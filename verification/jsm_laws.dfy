/** What reading and writing the JSM format preserve. */
module JsmLaws {
  import opened Wrappers
  import opened Errors
  import opened Json
  import opened Models
  import opened Fields
  import opened Jsm
  import Assoc

  lemma ConditionRoundTrip(c: Condition)
    ensures ParseCondition(ConditionJson(c)) == Ok(c)
  {
    var ms := ConditionJson(c).members;
    assert ms[0].0 == "field" && ms[1].0 == "operator" && ms[2].0 == "value";
    assert Assoc.UniqueKeys(ms);
    var fieldMembers := ms[0].1.members;
    assert fieldMembers[0].0 == "name";
  }

  lemma ActionRoundTrip(a: Action)
    ensures ParseAction(ActionJson(a)) == Ok(a)
  {
    var ms := ActionJson(a).members;
    assert ms[0].0 == "type" && ms[1].0 == "configuration";
    assert Assoc.UniqueKeys(ms);
  }

  /** A rule object whose parts all read successfully reads as the
      transition they make up. */
  lemma ParseRuleOf(t: Json, conditionItems: seq<Json>, actionItems: seq<Json>, tr: Transition)
    requires t.JObject?
    requires Iterate(Assoc.GetOr(t.members, "conditions", JArray([]))) == Some(conditionItems)
    requires MapResult(conditionItems, ParseCondition) == Ok(tr.conditions)
    requires Iterate(Assoc.GetOr(t.members, "postFunctions", JArray([]))) == Some(actionItems)
    requires MapResult(actionItems, ParseAction) == Ok(tr.actions)
    requires Assoc.Get(t.members, "fromStatus") == Some(JStr(tr.fromState))
    requires Assoc.Get(t.members, "toStatus") == Some(JStr(tr.toState))
    ensures ParseRule(t) == Ok(tr)
  {
  }

  /** A transition written as a rule reads back unchanged: the condition
      field, nested as {"name": field}, is unwrapped again. */
  lemma RuleRoundTrip(t: Transition)
    ensures ParseRule(RuleJson(t)) == Ok(t)
  {
    var ms := RuleJson(t).members;
    assert ms[0].0 == "fromStatus" && ms[1].0 == "toStatus" && ms[2].0 == "conditions" && ms[3].0 == "postFunctions";
    assert Assoc.UniqueKeys(ms);
    var cs := ms[2].1.items;
    forall i | 0 <= i < |cs| ensures ParseCondition(cs[i]) == Ok(t.conditions[i]) {
      ConditionRoundTrip(t.conditions[i]);
    }
    MapResultAll(cs, ParseCondition, t.conditions);
    var acts := ms[3].1.items;
    forall i | 0 <= i < |acts| ensures ParseAction(acts[i]) == Ok(t.actions[i]) {
      ActionRoundTrip(t.actions[i]);
    }
    MapResultAll(acts, ParseAction, t.actions);
    assert Assoc.GetOr(ms, "conditions", JArray([])) == ms[2].1;
    assert Assoc.GetOr(ms, "postFunctions", JArray([])) == ms[3].1;
    ParseRuleOf(RuleJson(t), cs, acts, t);
  }

  lemma RulesRoundTrip(ts: seq<Transition>)
    ensures MapResult(RulesJson(ts), ParseRule) == Ok(ts)
  {
    var js := RulesJson(ts);
    forall i | 0 <= i < |js| ensures ParseRule(js[i]) == Ok(ts[i]) {
      RuleRoundTrip(ts[i]);
    }
    MapResultAll(js, ParseRule, ts);
  }

  /** A status object with a string name and a well-typed description
      reads as the state its fields describe. */
  lemma ParseStatusOf(v: Json, k: string, s: WorkflowState)
    requires v.JObject?
    requires Assoc.Get(v.members, "name") == Some(JStr(k)) && s.name == k
    requires OptionalString(Assoc.Get(v.members, "description")) == Some(s.description)
    requires s.isInitial == Flag(v.members, "initial")
    requires s.isTerminal == (Assoc.Get(v.members, "statusCategory") == Some(Done))
    requires s.properties == Some(StatusProperties(v.members))
    ensures ParseStatus(v) == Ok((k, s))
  {
  }

  /** The fields of a written status. */
  lemma StatusFields(s: WorkflowState, p: Members)
    requires s.properties == Some(p)
    ensures StatusJson(s).Ok? && StatusJson(s).value.JObject?
    ensures Assoc.Get(StatusJson(s).value.members, "name") == Some(JStr(s.name))
    ensures Assoc.Get(StatusJson(s).value.members, "description") == Some(OptionalJson(s.description))
    ensures Assoc.Get(StatusJson(s).value.members, "initial") == Some(JBool(s.isInitial))
    ensures Assoc.Get(StatusJson(s).value.members, "statusCategory") == Some(Assoc.GetOr(p, "statusCategory", ToDo))
    ensures Assoc.Get(StatusJson(s).value.members, "id") == Some(Assoc.GetOr(p, "jsmId", JNull))
    ensures Assoc.Get(StatusJson(s).value.members, "statusType") == Some(Assoc.GetOr(p, "jsmType", JNull))
  {
    var js := StatusJson(s).value.members;
    assert js[0].0 == "name" && js[1].0 == "description" && js[2].0 == "initial"
        && js[3].0 == "statusCategory" && js[4].0 == "id" && js[5].0 == "statusType";
    assert Assoc.UniqueKeys(js);
  }

  /** A parsed status writes out and reads back as the same named state,
      its terminal flag recovered from its category. */
  lemma StatusRoundTrip(v: Json, k: string, s: WorkflowState)
    requires ParseStatus(v) == Ok((k, s))
    ensures StatusJson(s).Ok?
    ensures ParseStatus(StatusJson(s).value) == Ok((k, s))
  {
    var ms := v.members;
    var p := StatusProperties(ms);
    StatusFields(s, p);
    var js := StatusJson(s).value.members;
    var q := StatusProperties(js);
    assert q[0] == p[0] && q[1] == p[1] && q[2] == p[2];
    assert q == p;
    ParseStatusOf(StatusJson(s).value, k, s);
  }

  /** The statuses member read as a whole: a list whose items each read,
      assigned in order into an empty map. */
  lemma ReadStatusesShape(top: Members, m: StateMap)
    requires ReadStatuses(top) == Ok(m)
    ensures Iterate(Assoc.GetOr(top, "statuses", JArray([]))).Some?
    ensures MapResult(Iterate(Assoc.GetOr(top, "statuses", JArray([]))).value, ParseStatus).Ok?
    ensures m == Assoc.Overlay([], MapResult(Iterate(Assoc.GetOr(top, "statuses", JArray([]))).value, ParseStatus).value)
  {
  }

  /** Each status read from a list writes out and reads back as itself. */
  lemma StatusesReadBack(items: seq<Json>, entries: StateMap)
    requires MapResult(items, ParseStatus) == Ok(entries)
    ensures forall j :: 0 <= j < |entries| ==>
              StatusJson(entries[j].1).Ok? && ParseStatus(StatusJson(entries[j].1).value) == Ok(entries[j])
  {
    forall j | 0 <= j < |entries|
      ensures StatusJson(entries[j].1).Ok? && ParseStatus(StatusJson(entries[j].1).value) == Ok(entries[j])
    {
      StatusRoundTrip(items[j], entries[j].0, entries[j].1);
    }
  }

  lemma ReadStatusesOf(top: Members, items: seq<Json>, entries: StateMap)
    requires Iterate(Assoc.GetOr(top, "statuses", JArray([]))) == Some(items)
    requires MapResult(items, ParseStatus) == Ok(entries)
    ensures ReadStatuses(top) == Ok(Assoc.Overlay([], entries))
  {
  }

  /** Each state of a parsed workflow writes a status that reads back as
      that state. */
  lemma EachStatusReadsBack(x: Content, w: UnifiedWorkflow)
    requires Parse(x) == Ok(w)
    ensures forall i :: 0 <= i < |w.states| ==>
              StatusJson(w.states[i].1).Ok? && ParseStatus(StatusJson(w.states[i].1).value) == Ok(w.states[i])
  {
    var top := x.tree.members;
    ReadStatusesShape(top, w.states);
    var items := Iterate(Assoc.GetOr(top, "statuses", JArray([]))).value;
    var entries := MapResult(items, ParseStatus).value;
    StatusesReadBack(items, entries);
    forall i | 0 <= i < |w.states|
      ensures StatusJson(w.states[i].1).Ok? && ParseStatus(StatusJson(w.states[i].1).value) == Ok(w.states[i])
    {
      assert w.states[i] in entries by {
        Assoc.OverlayPairs([], entries);
        assert w.states[i] in w.states;
      }
      var j :| 0 <= j < |entries| && entries[j] == w.states[i];
    }
  }

  /** Every state a JSM parse produces carries its properties, so a parsed
      workflow can always be written back. */
  lemma ParsedStatesHaveProperties(x: Content, w: UnifiedWorkflow)
    requires Parse(x) == Ok(w)
    ensures forall i :: 0 <= i < |w.states| ==> w.states[i].1.properties.Some?
  {
    EachStatusReadsBack(x, w);
  }

  /** Where `Serialize` puts the statuses. */
  lemma WrittenStatuses(w: UnifiedWorkflow)
    requires Serialize(w).Ok?
    ensures Iterate(Assoc.GetOr(Serialize(w).value.members, "statuses", JArray([])))
            == Some(Serialize(w).value.members[0].1.items)
  {
    var out := Serialize(w).value;
    assert out.members[0].0 == "statuses" && out.members[1].0 == "rules";
    assert Assoc.UniqueKeys(out.members);
  }

  /** Statuses that each read back as their state read back as the whole
      state map. */
  lemma ReadWrittenStatuses(w: UnifiedWorkflow)
    requires KeyedStates(w.states)
    requires forall i :: 0 <= i < |w.states| ==>
               StatusJson(w.states[i].1).Ok? && ParseStatus(StatusJson(w.states[i].1).value) == Ok(w.states[i])
    ensures Serialize(w).Ok?
    ensures ReadStatuses(Serialize(w).value.members) == Ok(w.states)
  {
    var statuses := Serialize(w).value.members[0].1.items;
    assert forall i :: 0 <= i < |w.states| ==> ParseStatus(statuses[i]) == Ok(w.states[i]);
    MapResultAll(statuses, ParseStatus, w.states);
    WrittenStatuses(w);
    Assoc.OverlayOntoEmpty(w.states);
    ReadStatusesOf(Serialize(w).value.members, statuses, w.states);
  }

  /** The rules written for any workflow read back as its transitions. */
  lemma ReadWrittenRules(w: UnifiedWorkflow)
    requires Serialize(w).Ok?
    ensures ReadRules(Serialize(w).value.members) == Ok(w.transitions)
  {
    var out := Serialize(w).value;
    assert out.members[0].0 == "statuses" && out.members[1].0 == "rules";
    assert Assoc.UniqueKeys(out.members);
    assert Assoc.GetOr(out.members, "rules", JArray([])) == JArray(RulesJson(w.transitions));
    RulesRoundTrip(w.transitions);
  }

  /** Parsing what was written from a parsed JSM workflow gives that
      workflow back: serializing never fails on parser output, and parse
      after serialize after parse equals parse. */
  lemma RoundTrip(x: Content, w: UnifiedWorkflow)
    requires Parse(x) == Ok(w)
    ensures Serialize(w).Ok?
    ensures Parse(Tree(Serialize(w).value)) == Ok(w)
  {
    EachStatusReadsBack(x, w);
    ReadWrittenStatuses(w);
    ReadWrittenRules(w);
  }

  /** The terminal flag is never written: two workflows that differ only in
      it serialize alike. */
  lemma SerializeIgnoresTerminal(w: UnifiedWorkflow, i: nat, flag: bool)
    requires i < |w.states|
    ensures Serialize(w.(states := w.states[i := (w.states[i].0, w.states[i].1.(isTerminal := flag))])) == Serialize(w)
  {
    var w' := w.(states := w.states[i := (w.states[i].0, w.states[i].1.(isTerminal := flag))]);
    MapResultSameImages(Assoc.Values(w'.states), Assoc.Values(w.states), StatusJson);
  }
}
