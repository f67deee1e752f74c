/** The Fresh Service format: a JSON object with a "states" object, keyed
    by state name, and a "transitions" list. */
module FreshService {
  import opened Wrappers
  import opened Errors
  import opened Json
  import opened Models
  import opened Fields
  import Assoc

  function Missing(key: string): Error {
    ParserError("Missing required field in Fresh Service workflow: '" + key + "'")
  }

  /** Any other fault on input of the wrong shape. */
  const IllShaped := ParserError("Error parsing Fresh Service workflow: ill-shaped input")

  // ---------------------------------------------------------------------
  // Parsing

  /** One state object, stored whole as the state's properties. Flags and
      description default to false and null. */
  function ParseState(name: string, data: Json): (r: Result<WorkflowState, Error>)
    ensures r.Ok? <==> data.JObject? && OptionalString(Assoc.Get(data.members, "description")).Some?
    ensures r.Err? ==> r.error == IllShaped
    ensures r.Ok? ==> && r.value.name == name
                      && r.value.properties == Some(data.members)
                      && Some(r.value.description) == OptionalString(Assoc.Get(data.members, "description"))
                      && r.value.isInitial == Flag(data.members, "is_initial")
                      && r.value.isTerminal == Flag(data.members, "is_terminal")
  {
    if !data.JObject? then Err(IllShaped)
    else
      var ms := data.members;
      var description :- OptionalString(Assoc.Get(ms, "description")).ToResult(IllShaped);
      Ok(WorkflowState(name, description, Flag(ms, "is_initial"), Flag(ms, "is_terminal"), Some(ms)))
  }

  function ParseStateEntry(e: (string, Json)): (r: Result<(string, WorkflowState), Error>)
    ensures r.Ok? ==> r.value.0 == e.0 && r.value.1.name == e.0
  {
    var state :- ParseState(e.0, e.1);
    Ok((e.0, state))
  }

  /** A condition object; field and operator default to the empty string,
      value to null. */
  function ParseCondition(c: Json): (r: Result<Condition, Error>)
    ensures r.Err? ==> r.error == IllShaped
    ensures r.Ok? ==> && c.JObject?
                      && StringField(c.members, "field", "") == Some(r.value.field)
                      && StringField(c.members, "operator", "") == Some(r.value.operator)
                      && r.value.value == Assoc.GetOr(c.members, "value", JNull)
  {
    if !c.JObject? then Err(IllShaped)
    else
      var field :- StringField(c.members, "field", "").ToResult(IllShaped);
      var operator :- StringField(c.members, "operator", "").ToResult(IllShaped);
      Ok(Condition(field, operator, Assoc.GetOr(c.members, "value", JNull)))
  }

  /** An action object; type defaults to the empty string, parameters to
      the empty object. */
  function ParseAction(a: Json): (r: Result<Action, Error>)
    ensures r.Err? ==> r.error == IllShaped
    ensures r.Ok? ==> && a.JObject?
                      && StringField(a.members, "type", "") == Some(r.value.actionType)
                      && r.value.parameters == Assoc.GetOr(a.members, "parameters", JObject([]))
  {
    if !a.JObject? then Err(IllShaped)
    else
      var actionType :- StringField(a.members, "type", "").ToResult(IllShaped);
      Ok(Action(actionType, Assoc.GetOr(a.members, "parameters", JObject([]))))
  }

  /** A transition object. Conditions and actions are read first; then the
      two endpoints, which are required. */
  function ParseTransition(t: Json): (r: Result<Transition, Error>)
    ensures r.Err? ==> r.error in {IllShaped, Missing("from_state"), Missing("to_state")}
    ensures t.JObject? && !Assoc.HasKey(t.members, "from_state") ==> r.Err?
    ensures t.JObject? && !Assoc.HasKey(t.members, "to_state") ==> r.Err?
    ensures r.Err? && r.error == Missing("to_state") ==> t.JObject? && Assoc.HasKey(t.members, "from_state")
    ensures r.Ok? ==> && t.JObject?
                      && Assoc.Get(t.members, "from_state") == Some(JStr(r.value.fromState))
                      && Assoc.Get(t.members, "to_state") == Some(JStr(r.value.toState))
    ensures r.Ok? && !Assoc.HasKey(t.members, "conditions") ==> r.value.conditions == []
    ensures r.Ok? && !Assoc.HasKey(t.members, "actions") ==> r.value.actions == []
  {
    if !t.JObject? then Err(IllShaped)
    else
      var ms := t.members;
      var conditionItems :- Iterate(Assoc.GetOr(ms, "conditions", JArray([]))).ToResult(IllShaped);
      var conditions :- MapResult(conditionItems, ParseCondition);
      var actionItems :- Iterate(Assoc.GetOr(ms, "actions", JArray([]))).ToResult(IllShaped);
      var actions :- MapResult(actionItems, ParseAction);
      assert |Missing("from_state").message| != |Missing("to_state").message|;
      var from :- Assoc.Get(ms, "from_state").ToResult(Missing("from_state"));
      var to :- Assoc.Get(ms, "to_state").ToResult(Missing("to_state"));
      if !from.JStr? || !to.JStr? then Err(IllShaped)
      else Ok(Transition(from.s, to.s, conditions, actions))
  }

  /** The "states" member: an object whose entries become the state map,
      each stored under its own key. */
  function ReadStates(top: Members): (r: Result<StateMap, Error>)
    ensures !Assoc.HasKey(top, "states") ==> r == Err(Missing("states"))
    ensures r.Err? ==> r.error in {IllShaped, Missing("states")}
    ensures r.Ok? ==> KeyedStates(r.value)
  {
    var statesJson :- Assoc.Get(top, "states").ToResult(Missing("states"));
    if !statesJson.JObject? then Err(IllShaped)
    else
      var entries :- MapResult(statesJson.members, ParseStateEntry);
      assert forall p :: p in entries ==> p.1.name == p.0;
      OverlayKeyed([], entries);
      Ok(Assoc.Overlay([], entries))
  }

  /** The "transitions" member, walked as Python walks any iterable. */
  function ReadTransitions(top: Members): (r: Result<seq<Transition>, Error>)
    ensures !Assoc.HasKey(top, "transitions") ==> r == Err(Missing("transitions"))
    ensures r.Err? ==> r.error in {IllShaped, Missing("transitions"), Missing("from_state"), Missing("to_state")}
  {
    var transitionsJson :- Assoc.Get(top, "transitions").ToResult(Missing("transitions"));
    var items :- Iterate(transitionsJson).ToResult(IllShaped);
    MapResult(items, ParseTransition)
  }

  /** Reads a Fresh Service workflow: the states first, then the
      transitions, reporting the first fault met. */
  function Parse(content: Content): (r: Result<UnifiedWorkflow, Error>)
    ensures r.Ok? <==> && content.Tree? && content.tree.JObject?
                       && ReadStates(content.tree.members).Ok?
                       && ReadTransitions(content.tree.members).Ok?
    ensures r.Err? ==> r.error.ParserError?
    ensures content.Tree? && content.tree.JObject? && ReadStates(content.tree.members).Err?
            ==> r.error == ReadStates(content.tree.members).error
    ensures r.Ok? ==> && WellKeyed(r.value)
                      && r.value.metadata == SourceMetadata(FreshService)
                      && r.value.states == ReadStates(content.tree.members).value
                      && r.value.transitions == ReadTransitions(content.tree.members).value
  {
    if !content.Tree? || !content.tree.JObject? then Err(IllShaped)
    else
      var top := content.tree.members;
      var states :- ReadStates(top);
      var transitions :- ReadTransitions(top);
      Ok(UnifiedWorkflow(states, transitions, SourceMetadata(FreshService)))
  }

  // ---------------------------------------------------------------------
  // Serializing

  /** The three explicit fields of a state. */
  function StateDefaults(s: WorkflowState): Members {
    [("description", OptionalJson(s.description)), ("is_initial", JBool(s.isInitial)), ("is_terminal", JBool(s.isTerminal))]
  }

  /** A state's object: its explicit fields, overwritten by whatever its
      properties hold under the same names. */
  function StateEntry(s: WorkflowState): Members {
    Assoc.Overlay(StateDefaults(s), s.properties.GetOr([]))
  }

  function ConditionJson(c: Condition): Json {
    JObject([("field", JStr(c.field)), ("operator", JStr(c.operator)), ("value", c.value)])
  }

  function ActionJson(a: Action): Json {
    JObject([("type", JStr(a.actionType)), ("parameters", a.parameters)])
  }

  function TransitionJson(t: Transition): Json {
    JObject([
      ("from_state", JStr(t.fromState)),
      ("to_state", JStr(t.toState)),
      ("conditions", JArray(seq(|t.conditions|, i requires 0 <= i < |t.conditions| => ConditionJson(t.conditions[i])))),
      ("actions", JArray(seq(|t.actions|, i requires 0 <= i < |t.actions| => ActionJson(t.actions[i]))))])
  }

  function StatesJson(m: StateMap): (r: Members)
    ensures Assoc.Keys(r) == Assoc.Keys(m)
    ensures forall i :: 0 <= i < |m| ==> r[i].1 == JObject(StateEntry(m[i].1))
  {
    seq(|m|, i requires 0 <= i < |m| => (m[i].0, JObject(StateEntry(m[i].1))))
  }

  function TransitionsJson(ts: seq<Transition>): (r: seq<Json>)
    ensures |r| == |ts| && forall i :: 0 <= i < |ts| ==> r[i] == TransitionJson(ts[i])
  {
    seq(|ts|, i requires 0 <= i < |ts| => TransitionJson(ts[i]))
  }

  /** Writes a workflow as a Fresh Service object. It never fails. */
  function Serialize(w: UnifiedWorkflow): (r: Json)
    ensures r.JObject? && Assoc.Keys(r.members) == ["states", "transitions"]
  {
    JObject([("states", JObject(StatesJson(w.states))), ("transitions", JArray(TransitionsJson(w.transitions)))])
  }
}
