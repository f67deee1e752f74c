/** The Jira Service Management format: a JSON object with a "statuses"
    list and a "rules" list. */
module Jsm {
  import opened Wrappers
  import opened Errors
  import opened Json
  import opened Models
  import opened Fields
  import Assoc

  function Missing(key: string): Error {
    ParserError("Missing required field in JSM workflow: '" + key + "'")
  }

  /** Any other fault on input of the wrong shape. */
  const IllShaped := ParserError("Error parsing JSM workflow: ill-shaped input")

  /** What serializing reports for a state without properties: reading a
      key of Python's `None`. */
  const NoProperties := ParserError("Error serializing to JSM format: 'NoneType' object has no attribute 'get'")

  const ToDo := JStr("TO_DO")
  const Done := JStr("DONE")

  // ---------------------------------------------------------------------
  // Parsing

  /** The three properties a status keeps: its category (defaulting to
      "TO_DO"), its id and its status type. */
  function StatusProperties(ms: Members): (r: Members)
    ensures Assoc.Keys(r) == ["statusCategory", "jsmId", "jsmType"]
    ensures Assoc.Get(r, "statusCategory") == Some(Assoc.GetOr(ms, "statusCategory", ToDo))
    ensures Assoc.Get(r, "jsmId") == Some(Assoc.GetOr(ms, "id", JNull))
    ensures Assoc.Get(r, "jsmType") == Some(Assoc.GetOr(ms, "statusType", JNull))
  {
    var r := [("statusCategory", Assoc.GetOr(ms, "statusCategory", ToDo)),
              ("jsmId", Assoc.GetOr(ms, "id", JNull)),
              ("jsmType", Assoc.GetOr(ms, "statusType", JNull))];
    assert r[0].0 == "statusCategory" && r[1].0 == "jsmId" && r[2].0 == "jsmType";
    assert Assoc.UniqueKeys(r);
    r
  }

  /** One status. Its name is required; it is terminal exactly when its
      category is "DONE". */
  function ParseStatus(v: Json): (r: Result<(string, WorkflowState), Error>)
    ensures r.Err? ==> r.error in {IllShaped, Missing("name")}
    ensures v.JObject? && !Assoc.HasKey(v.members, "name") ==> r == Err(Missing("name"))
    ensures r.Ok? ==> r.value.1.name == r.value.0
    ensures r.Ok? ==> && v.JObject?
                      && Assoc.Get(v.members, "name") == Some(JStr(r.value.0))
                      && r.value.1.name == r.value.0
                      && (r.value.1.isTerminal <==> Assoc.Get(v.members, "statusCategory") == Some(Done))
                      && r.value.1.isInitial == Flag(v.members, "initial")
                      && r.value.1.properties == Some(StatusProperties(v.members))
                      && Some(r.value.1.description) == OptionalString(Assoc.Get(v.members, "description"))
  {
    if !v.JObject? then Err(IllShaped)
    else
      var ms := v.members;
      var properties := StatusProperties(ms);
      var nameJson :- Assoc.Get(ms, "name").ToResult(Missing("name"));
      if !nameJson.JStr? then Err(IllShaped)
      else
        var description :- OptionalString(Assoc.Get(ms, "description")).ToResult(IllShaped);
        var terminal := Assoc.Get(ms, "statusCategory") == Some(Done);
        Ok((nameJson.s, WorkflowState(nameJson.s, description, Flag(ms, "initial"), terminal, Some(properties))))
  }

  /** A condition: the field is the "name" of a nested "field" object. */
  function ParseCondition(c: Json): (r: Result<Condition, Error>)
    ensures r.Err? ==> r.error == IllShaped
    ensures r.Ok? ==> && c.JObject?
                      && Assoc.GetOr(c.members, "field", JObject([])).JObject?
                      && StringField(Assoc.GetOr(c.members, "field", JObject([])).members, "name", "") == Some(r.value.field)
                      && StringField(c.members, "operator", "") == Some(r.value.operator)
                      && r.value.value == Assoc.GetOr(c.members, "value", JNull)
  {
    if !c.JObject? then Err(IllShaped)
    else
      var fieldJson := Assoc.GetOr(c.members, "field", JObject([]));
      if !fieldJson.JObject? then Err(IllShaped)
      else
        var field :- StringField(fieldJson.members, "name", "").ToResult(IllShaped);
        var operator :- StringField(c.members, "operator", "").ToResult(IllShaped);
        Ok(Condition(field, operator, Assoc.GetOr(c.members, "value", JNull)))
  }

  /** A post function becomes an action: its type, and its configuration as
      parameters. */
  function ParseAction(a: Json): (r: Result<Action, Error>)
    ensures r.Err? ==> r.error == IllShaped
    ensures r.Ok? ==> && a.JObject?
                      && StringField(a.members, "type", "") == Some(r.value.actionType)
                      && r.value.parameters == Assoc.GetOr(a.members, "configuration", JObject([]))
  {
    if !a.JObject? then Err(IllShaped)
    else
      var actionType :- StringField(a.members, "type", "").ToResult(IllShaped);
      Ok(Action(actionType, Assoc.GetOr(a.members, "configuration", JObject([]))))
  }

  /** A rule becomes a transition. Conditions and post functions are read
      first; then the two endpoints, which are required. */
  function ParseRule(t: Json): (r: Result<Transition, Error>)
    ensures r.Err? ==> r.error in {IllShaped, Missing("fromStatus"), Missing("toStatus")}
    ensures t.JObject? && !Assoc.HasKey(t.members, "fromStatus") ==> r.Err?
    ensures t.JObject? && !Assoc.HasKey(t.members, "toStatus") ==> r.Err?
    ensures r.Ok? ==> && t.JObject?
                      && Assoc.Get(t.members, "fromStatus") == Some(JStr(r.value.fromState))
                      && Assoc.Get(t.members, "toStatus") == Some(JStr(r.value.toState))
    ensures r.Ok? && !Assoc.HasKey(t.members, "conditions") ==> r.value.conditions == []
    ensures r.Ok? && !Assoc.HasKey(t.members, "postFunctions") ==> r.value.actions == []
  {
    if !t.JObject? then Err(IllShaped)
    else
      var ms := t.members;
      var conditionItems :- Iterate(Assoc.GetOr(ms, "conditions", JArray([]))).ToResult(IllShaped);
      var conditions :- MapResult(conditionItems, ParseCondition);
      var actionItems :- Iterate(Assoc.GetOr(ms, "postFunctions", JArray([]))).ToResult(IllShaped);
      var actions :- MapResult(actionItems, ParseAction);
      var from :- Assoc.Get(ms, "fromStatus").ToResult(Missing("fromStatus"));
      var to :- Assoc.Get(ms, "toStatus").ToResult(Missing("toStatus"));
      if !from.JStr? || !to.JStr? then Err(IllShaped)
      else Ok(Transition(from.s, to.s, conditions, actions))
  }

  /** The statuses, absent meaning none; a later status with the name of an
      earlier one replaces it in place. */
  function ReadStatuses(top: Members): (r: Result<StateMap, Error>)
    ensures r.Err? ==> r.error in {IllShaped, Missing("name")}
    ensures !Assoc.HasKey(top, "statuses") ==> r == Ok([])
    ensures r.Ok? ==> KeyedStates(r.value)
  {
    var items :- Iterate(Assoc.GetOr(top, "statuses", JArray([]))).ToResult(IllShaped);
    var entries :- MapResult(items, ParseStatus);
    StatusesNamed(items, entries);
    Ok(Assoc.Overlay([], entries))
  }

  lemma StatusesNamed(items: seq<Json>, entries: StateMap)
    requires MapResult(items, ParseStatus) == Ok(entries)
    ensures KeyedStates(Assoc.Overlay([], entries))
  {
    forall p | p in entries ensures p.1.name == p.0 {
      var i :| 0 <= i < |entries| && entries[i] == p;
      assert ParseStatus(items[i]) == Ok(p);
    }
    OverlayKeyed([], entries);
  }

  /** The rules, absent meaning none. */
  function ReadRules(top: Members): (r: Result<seq<Transition>, Error>)
    ensures r.Err? ==> r.error in {IllShaped, Missing("fromStatus"), Missing("toStatus")}
    ensures !Assoc.HasKey(top, "rules") ==> r == Ok([])
  {
    var items :- Iterate(Assoc.GetOr(top, "rules", JArray([]))).ToResult(IllShaped);
    MapResult(items, ParseRule)
  }

  /** Reads a JSM workflow: the statuses first, then the rules, reporting
      the first fault met. */
  function Parse(content: Content): (r: Result<UnifiedWorkflow, Error>)
    ensures r.Ok? <==> && content.Tree? && content.tree.JObject?
                       && ReadStatuses(content.tree.members).Ok?
                       && ReadRules(content.tree.members).Ok?
    ensures r.Err? ==> r.error.ParserError?
    ensures r.Ok? ==> && WellKeyed(r.value)
                      && r.value.metadata == SourceMetadata(Jsm)
                      && r.value.states == ReadStatuses(content.tree.members).value
                      && r.value.transitions == ReadRules(content.tree.members).value
  {
    if !content.Tree? || !content.tree.JObject? then Err(IllShaped)
    else
      var top := content.tree.members;
      var states :- ReadStatuses(top);
      var transitions :- ReadRules(top);
      Ok(UnifiedWorkflow(states, transitions, SourceMetadata(Jsm)))
  }

  // ---------------------------------------------------------------------
  // Serializing

  /** A state as a status. The category, id and status type come from its
      properties; the terminal flag is not written. A state without
      properties cannot be written. */
  function StatusJson(s: WorkflowState): (r: Result<Json, Error>)
    ensures r.Ok? <==> s.properties.Some?
    ensures r.Err? ==> r.error == NoProperties
  {
    match s.properties
    case None => Err(NoProperties)
    case Some(p) =>
      Ok(JObject([
        ("name", JStr(s.name)),
        ("description", OptionalJson(s.description)),
        ("initial", JBool(s.isInitial)),
        ("statusCategory", Assoc.GetOr(p, "statusCategory", ToDo)),
        ("id", Assoc.GetOr(p, "jsmId", JNull)),
        ("statusType", Assoc.GetOr(p, "jsmType", JNull))]))
  }

  function ConditionJson(c: Condition): Json {
    JObject([("field", JObject([("name", JStr(c.field))])), ("operator", JStr(c.operator)), ("value", c.value)])
  }

  function ActionJson(a: Action): Json {
    JObject([("type", JStr(a.actionType)), ("configuration", a.parameters)])
  }

  function RuleJson(t: Transition): Json {
    JObject([
      ("fromStatus", JStr(t.fromState)),
      ("toStatus", JStr(t.toState)),
      ("conditions", JArray(seq(|t.conditions|, i requires 0 <= i < |t.conditions| => ConditionJson(t.conditions[i])))),
      ("postFunctions", JArray(seq(|t.actions|, i requires 0 <= i < |t.actions| => ActionJson(t.actions[i]))))])
  }

  function RulesJson(ts: seq<Transition>): (r: seq<Json>)
    ensures |r| == |ts| && forall i :: 0 <= i < |ts| ==> r[i] == RuleJson(ts[i])
  {
    seq(|ts|, i requires 0 <= i < |ts| => RuleJson(ts[i]))
  }

  /** Writes a workflow as a JSM object: one status per state and one rule
      per transition, in order. It fails exactly when some state has no
      properties. */
  function Serialize(w: UnifiedWorkflow): (r: Result<Json, Error>)
    ensures r.Ok? <==> forall i :: 0 <= i < |w.states| ==> w.states[i].1.properties.Some?
    ensures r.Err? ==> r.error == NoProperties
    ensures r.Ok? ==> && r.value.JObject? && Assoc.Keys(r.value.members) == ["statuses", "rules"]
                      && r.value.members[0].1.JArray? && |r.value.members[0].1.items| == |w.states|
                      && (forall i :: 0 <= i < |w.states| ==> StatusJson(w.states[i].1) == Ok(r.value.members[0].1.items[i]))
                      && r.value.members[1].1 == JArray(RulesJson(w.transitions))
  {
    var statuses :- MapResult(Assoc.Values(w.states), StatusJson);
    Ok(JObject([("statuses", JArray(statuses)), ("rules", JArray(RulesJson(w.transitions)))]))
  }
}
