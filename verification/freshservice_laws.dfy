/** What reading and writing the Fresh Service format preserve. */
module FreshServiceLaws {
  import opened Wrappers
  import opened Errors
  import opened Json
  import opened Models
  import opened Fields
  import opened FreshService
  import Assoc

  lemma ConditionRoundTrip(c: Condition)
    ensures ParseCondition(ConditionJson(c)) == Ok(c)
  {
    var ms := ConditionJson(c).members;
    assert ms[0].0 == "field" && ms[1].0 == "operator" && ms[2].0 == "value";
    assert Assoc.UniqueKeys(ms);
  }

  lemma ActionRoundTrip(a: Action)
    ensures ParseAction(ActionJson(a)) == Ok(a)
  {
    var ms := ActionJson(a).members;
    assert ms[0].0 == "type" && ms[1].0 == "parameters";
    assert Assoc.UniqueKeys(ms);
  }

  /** A transition object whose parts all read successfully reads as the
      transition they make up. */
  lemma ParseTransitionOf(t: Json, conditionItems: seq<Json>, actionItems: seq<Json>, tr: Transition)
    requires t.JObject?
    requires Iterate(Assoc.GetOr(t.members, "conditions", JArray([]))) == Some(conditionItems)
    requires MapResult(conditionItems, ParseCondition) == Ok(tr.conditions)
    requires Iterate(Assoc.GetOr(t.members, "actions", JArray([]))) == Some(actionItems)
    requires MapResult(actionItems, ParseAction) == Ok(tr.actions)
    requires Assoc.Get(t.members, "from_state") == Some(JStr(tr.fromState))
    requires Assoc.Get(t.members, "to_state") == Some(JStr(tr.toState))
    ensures ParseTransition(t) == Ok(tr)
  {
  }

  /** Every transition reads back exactly as it was written: endpoints,
      and the order and contents of its conditions and actions. */
  lemma TransitionRoundTrip(t: Transition)
    ensures ParseTransition(TransitionJson(t)) == Ok(t)
  {
    var ms := TransitionJson(t).members;
    assert ms[0].0 == "from_state" && ms[1].0 == "to_state" && ms[2].0 == "conditions" && ms[3].0 == "actions";
    assert Assoc.UniqueKeys(ms);
    var cs := ms[2].1.items;
    forall i | 0 <= i < |cs| ensures ParseCondition(cs[i]) == Ok(t.conditions[i]) {
      ConditionRoundTrip(t.conditions[i]);
    }
    MapResultAll(cs, ParseCondition, t.conditions);
    var acts := ms[3].1.items;
    forall i | 0 <= i < |acts| ensures ParseAction(acts[i]) == Ok(t.actions[i]) {
      ActionRoundTrip(t.actions[i]);
    }
    MapResultAll(acts, ParseAction, t.actions);
    assert Assoc.GetOr(ms, "conditions", JArray([])) == ms[2].1;
    assert Assoc.GetOr(ms, "actions", JArray([])) == ms[3].1;
    ParseTransitionOf(TransitionJson(t), cs, acts, t);
  }

  /** The transition list written by `Serialize` reads back unchanged. */
  lemma TransitionsRoundTrip(ts: seq<Transition>)
    ensures MapResult(TransitionsJson(ts), ParseTransition) == Ok(ts)
  {
    var js := TransitionsJson(ts);
    forall i | 0 <= i < |js| ensures ParseTransition(js[i]) == Ok(ts[i]) {
      TransitionRoundTrip(ts[i]);
    }
    MapResultAll(js, ParseTransition, ts);
  }

  /** The two members `Serialize` writes. */
  lemma SerializedMembers(w: UnifiedWorkflow)
    ensures Assoc.Get(Serialize(w).members, "states") == Some(JObject(StatesJson(w.states)))
    ensures Assoc.Get(Serialize(w).members, "transitions") == Some(JArray(TransitionsJson(w.transitions)))
  {
    var out := Serialize(w).members;
    assert out[0].0 == "states" && out[1].0 == "transitions";
    assert Assoc.UniqueKeys(out);
  }

  /** The states object of a Fresh Service input. */
  function InputStates(x: Json): Members
    requires x.JObject? && Assoc.Get(x.members, "states").Some? && Assoc.Get(x.members, "states").value.JObject?
  {
    Assoc.Get(x.members, "states").value.members
  }

  /** The states member read as a whole: an object whose entries each
      read, assigned in order into an empty map. */
  lemma ReadStatesShape(top: Members, m: StateMap)
    requires ReadStates(top) == Ok(m)
    ensures Assoc.Get(top, "states").Some? && Assoc.Get(top, "states").value.JObject?
    ensures MapResult(Assoc.Get(top, "states").value.members, ParseStateEntry).Ok?
    ensures m == Assoc.Overlay([], MapResult(Assoc.Get(top, "states").value.members, ParseStateEntry).value)
  {
  }

  /** A states object whose entries all read, under distinct keys, reads
      as exactly those entries. */
  lemma ReadStatesOf(top: Members, items: Members, entries: StateMap)
    requires Assoc.Get(top, "states") == Some(JObject(items))
    requires MapResult(items, ParseStateEntry) == Ok(entries)
    requires Assoc.UniqueKeys(entries)
    ensures ReadStates(top) == Ok(entries)
  {
    Assoc.OverlayOntoEmpty(entries);
  }

  /** The states object of distinct-keyed input has distinct keys, and so
      does each of its entries. */
  lemma InputStatesDistinct(x: Json)
    requires DistinctKeys(x) && x.JObject? && Assoc.Get(x.members, "states").Some?
    ensures DistinctKeys(Assoc.Get(x.members, "states").value)
  {
    var statesJson := Assoc.Get(x.members, "states").value;
    var i :| 0 <= i < |x.members| && x.members[i] == ("states", statesJson);
  }

  /** Entries read from objects with distinct keys: one per object, under
      its key, each read from its object. */
  lemma EntriesRead(so: Members, entries: StateMap)
    requires MapResult(so, ParseStateEntry) == Ok(entries)
    requires DistinctKeys(JObject(so))
    ensures Assoc.Keys(entries) == Assoc.Keys(so)
    ensures forall i :: 0 <= i < |entries| ==>
              && so[i].1.JObject?
              && Assoc.UniqueKeys(so[i].1.members)
              && ParseState(entries[i].0, so[i].1) == Ok(entries[i].1)
  {
    forall i | 0 <= i < |entries|
      ensures entries[i].0 == so[i].0
      ensures so[i].1.JObject? && Assoc.UniqueKeys(so[i].1.members)
      ensures ParseState(entries[i].0, so[i].1) == Ok(entries[i].1)
    {
      assert ParseStateEntry(so[i]) == Ok(entries[i]);
      assert DistinctKeys(so[i].1);
    }
    assert forall i :: 0 <= i < |so| ==> Assoc.Keys(entries)[i] == Assoc.Keys(so)[i];
  }

  /** On input with distinct keys, the state map holds one state per input
      state object, in input order, each read from its own object. */
  lemma ParsedStates(x: Json, w: UnifiedWorkflow)
    requires Parse(Tree(x)) == Ok(w) && DistinctKeys(x)
    ensures x.JObject? && Assoc.Get(x.members, "states").Some? && Assoc.Get(x.members, "states").value.JObject?
    ensures Assoc.Keys(w.states) == Assoc.Keys(InputStates(x))
    ensures forall i :: 0 <= i < |w.states| ==>
              && InputStates(x)[i].1.JObject?
              && Assoc.UniqueKeys(InputStates(x)[i].1.members)
              && ParseState(w.states[i].0, InputStates(x)[i].1) == Ok(w.states[i].1)
  {
    ReadStatesShape(x.members, w.states);
    InputStatesDistinct(x);
    var so := InputStates(x);
    var entries := MapResult(so, ParseStateEntry).value;
    EntriesRead(so, entries);
    assert w.states == entries by {
      assert Assoc.UniqueKeys(entries) by {
        forall i, j | 0 <= i < j < |entries| ensures entries[i].0 != entries[j].0 {
          assert Assoc.Keys(entries)[i] == so[i].0 && Assoc.Keys(entries)[j] == so[j].0;
        }
      }
      Assoc.OverlayOntoEmpty(entries);
    }
  }

  /** A state as it reads back after being written: everything but its
      properties is kept, and its properties become the written object. */
  function Reread(s: WorkflowState): WorkflowState {
    s.(properties := Some(StateEntry(s)))
  }

  /** Writing a parsed state and reading it again changes only its
      properties. */
  lemma StateRoundTrip(k: string, ms: Members, s: WorkflowState)
    requires ParseState(k, JObject(ms)) == Ok(s) && Assoc.UniqueKeys(ms)
    ensures ParseState(k, JObject(StateEntry(s))) == Ok(Reread(s))
  {
    var defaults := StateDefaults(s);
    var entry := StateEntry(s);
    assert entry == Assoc.Overlay(defaults, ms);
    assert defaults[0].0 == "description" && defaults[1].0 == "is_initial" && defaults[2].0 == "is_terminal";
    assert Assoc.UniqueKeys(defaults);
    Assoc.OverlayGet(defaults, ms, "description");
    Assoc.OverlayGet(defaults, ms, "is_initial");
    Assoc.OverlayGet(defaults, ms, "is_terminal");
    assert OptionalString(Assoc.Get(entry, "description")) == Some(s.description);
    assert Flag(entry, "is_initial") == s.isInitial;
    assert Flag(entry, "is_terminal") == s.isTerminal;
  }

  /** A state without properties is written as its three explicit fields
      alone, and reads back with that object as its properties. */
  lemma BareStateWritten(s: WorkflowState)
    requires s.properties.None?
    ensures Assoc.Keys(StateEntry(s)) == ["description", "is_initial", "is_terminal"]
    ensures ParseState(s.name, JObject(StateEntry(s))) == Ok(Reread(s))
  {
    var entry := StateEntry(s);
    assert entry == StateDefaults(s);
    assert entry[0].0 == "description" && entry[1].0 == "is_initial" && entry[2].0 == "is_terminal";
    assert Assoc.UniqueKeys(entry);
    assert OptionalString(Assoc.Get(entry, "description")) == Some(s.description);
  }

  /** A state's written object reads every member of its properties
      unchanged, and has besides only the three explicit fields. */
  lemma StateEntryKeeps(s: WorkflowState, ms: Members, k: string)
    requires s.properties == Some(ms) && Assoc.UniqueKeys(ms)
    ensures Assoc.HasKey(ms, k) ==> Assoc.Get(StateEntry(s), k) == Assoc.Get(ms, k)
    ensures !Assoc.HasKey(ms, k) ==> (Assoc.HasKey(StateEntry(s), k) <==> k in {"description", "is_initial", "is_terminal"})
  {
    var defaults := StateDefaults(s);
    Assoc.OverlayGet(defaults, ms, k);
    Assoc.OverlayKeys(defaults, ms);
    assert Assoc.HasKey(defaults, k) <==> k in {"description", "is_initial", "is_terminal"} by {
      assert defaults[0].0 == "description" && defaults[1].0 == "is_initial" && defaults[2].0 == "is_terminal";
    }
  }

  /** Writing a Fresh Service workflow keeps every member of every input
      state object, and adds only those of "description", "is_initial" and
      "is_terminal" that the object lacked. */
  lemma SerializeKeepsStateObjects(x: Json, w: UnifiedWorkflow)
    requires Parse(Tree(x)) == Ok(w) && DistinctKeys(x)
    ensures x.JObject? && Assoc.Get(x.members, "states").Some? && Assoc.Get(x.members, "states").value.JObject?
    ensures Assoc.Get(Serialize(w).members, "states") == Some(JObject(StatesJson(w.states)))
    ensures Assoc.Keys(StatesJson(w.states)) == Assoc.Keys(InputStates(x))
    ensures forall i, k :: 0 <= i < |w.states| && Assoc.HasKey(InputStates(x)[i].1.members, k) ==>
              Assoc.Get(StateEntry(w.states[i].1), k) == Assoc.Get(InputStates(x)[i].1.members, k)
    ensures forall i, k :: 0 <= i < |w.states| && !Assoc.HasKey(InputStates(x)[i].1.members, k) ==>
              (Assoc.HasKey(StateEntry(w.states[i].1), k) <==> k in {"description", "is_initial", "is_terminal"})
  {
    ParsedStates(x, w);
    SerializedMembers(w);
    var so := InputStates(x);
    forall i, k | 0 <= i < |w.states|
      ensures Assoc.HasKey(so[i].1.members, k) ==> Assoc.Get(StateEntry(w.states[i].1), k) == Assoc.Get(so[i].1.members, k)
      ensures !Assoc.HasKey(so[i].1.members, k) ==>
                (Assoc.HasKey(StateEntry(w.states[i].1), k) <==> k in {"description", "is_initial", "is_terminal"})
    {
      StateEntryKeeps(w.states[i].1, so[i].1.members, k);
    }
  }

  function RereadStates(m: StateMap): (r: StateMap)
    ensures |r| == |m| && forall i :: 0 <= i < |m| ==> r[i] == (m[i].0, Reread(m[i].1))
  {
    seq(|m|, i requires 0 <= i < |m| => (m[i].0, Reread(m[i].1)))
  }

  /** The written state objects read back, each as its state with the
      written object for properties. */
  lemma WrittenEntriesRead(x: Json, w: UnifiedWorkflow)
    requires Parse(Tree(x)) == Ok(w) && DistinctKeys(x)
    ensures MapResult(StatesJson(w.states), ParseStateEntry) == Ok(RereadStates(w.states))
  {
    ParsedStates(x, w);
    var so := InputStates(x);
    var sj := StatesJson(w.states);
    var expected := RereadStates(w.states);
    forall i | 0 <= i < |sj| ensures ParseStateEntry(sj[i]) == Ok(expected[i]) {
      StateRoundTrip(w.states[i].0, so[i].1.members, w.states[i].1);
    }
    MapResultAll(sj, ParseStateEntry, expected);
  }

  lemma ReadWrittenStates(x: Json, w: UnifiedWorkflow)
    requires Parse(Tree(x)) == Ok(w) && DistinctKeys(x)
    ensures ReadStates(Serialize(w).members) == Ok(RereadStates(w.states))
  {
    var expected := RereadStates(w.states);
    WrittenEntriesRead(x, w);
    assert Assoc.UniqueKeys(expected) by {
      assert Assoc.UniqueKeys(w.states);
      forall i, j | 0 <= i < j < |expected| ensures expected[i].0 != expected[j].0 {
        assert expected[i].0 == w.states[i].0 && expected[j].0 == w.states[j].0;
      }
    }
    SerializedMembers(w);
    ReadStatesOf(Serialize(w).members, StatesJson(w.states), expected);
  }

  /** Reading back what was written from a parsed Fresh Service workflow
      gives the same states under the same keys, each changed only in its
      properties, and the same transitions. */
  lemma Reparse(x: Json, w: UnifiedWorkflow)
    requires Parse(Tree(x)) == Ok(w) && DistinctKeys(x)
    ensures Parse(Tree(Serialize(w))) == Ok(UnifiedWorkflow(RereadStates(w.states), w.transitions, w.metadata))
  {
    ReadWrittenStates(x, w);
    SerializedMembers(w);
    TransitionsRoundTrip(w.transitions);
    assert ReadTransitions(Serialize(w).members) == Ok(w.transitions);
  }
}
