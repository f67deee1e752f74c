/** What survives writing a workflow as a Mermaid diagram and reading the
    diagram back. The start and note lines are written before any arrow,
    when the reader knows no state yet, so the initial flags and the
    descriptions are lost; the end lines come last and keep the terminal
    flags. */
module MermaidRoundTrip {
  import opened Wrappers
  import opened Errors
  import opened Models
  import opened Mermaid
  import opened MermaidLaws
  import opened MermaidReparse
  import opened Json
  import Validation
  import Assoc
  import Text

  /** A state as it reads back: bare, terminal when it was flagged so. */
  function ReadBackState(w: UnifiedWorkflow, k: string): WorkflowState {
    NamedState(k).(isTerminal := FlaggedName(w.states, false, k))
  }

  lemma FlaggedNamesExact(m: StateMap, initial: bool, k: string)
    ensures k in FlaggedNames(m, initial) <==> FlaggedName(m, initial, k)
  {
    var names := FlaggedNames(m, initial);
    if k in names {
      var j :| 0 <= j < |names| && names[j] == k;
    }
    if FlaggedName(m, initial, k) {
      var i :| 0 <= i < |m| && Flagged(m[i].1, initial) && m[i].1.name == k;
    }
  }

  /** The states read back are exactly the transition endpoints, each
      bare and terminal when the written workflow flagged it so. */
  lemma ReadBackStatesGet(w: UnifiedWorkflow, k: string)
    ensures Assoc.Get(ReadBackStates(w), k)
            == if Mentioned(w.transitions, k) then Some(ReadBackState(w, k)) else None
  {
    var names := FlaggedNames(w.states, false);
    var m := Endpoints([], w.transitions);
    var r := ReadBackStates(w);
    assert Assoc.Get(r, k)
           == if Assoc.HasKey(m, k) && k in names then Some(Apply(MarkTerminal, Assoc.Get(m, k).value)) else Assoc.Get(m, k) by {
      MarkAllGet(m, names, MarkTerminal, k);
    }
    EndpointsGet([], w.transitions, k);
    if Mentioned(w.transitions, k) {
      assert Assoc.Get(m, k) == Some(NamedState(k));
      FlaggedNamesExact(w.states, false, k);
      assert Apply(MarkTerminal, NamedState(k)) == NamedState(k).(isTerminal := true);
    } else {
      assert Assoc.Get(m, k) == None;
    }
  }

  /** The workflow read back from a written diagram. */
  function Reread(w: UnifiedWorkflow): UnifiedWorkflow {
    UnifiedWorkflow(ReadBackStates(w), RedrawnAll(w.transitions), SourceMetadata(Mermaid))
  }

  /** Each stored state of the reread workflow is the bare state of an
      endpoint: no state is initial, none has a description or
      properties, and a state is terminal exactly when it was flagged so. */
  lemma RereadStates(w: UnifiedWorkflow)
    requires PlainWorkflow(w)
    ensures WellKeyed(Reread(w))
    ensures forall k :: Assoc.HasKey(Reread(w).states, k) <==> Mentioned(w.transitions, k)
    ensures forall i :: 0 <= i < |Reread(w).states| ==> Reread(w).states[i].1 == ReadBackState(w, Reread(w).states[i].0)
  {
    assert WellKeyed(Reread(w)) by {
      Reparse(w);
    }
    ReadBackKeys(w);
    ReadBackValues(w);
  }

  lemma ReadBackKeys(w: UnifiedWorkflow)
    ensures forall k :: Assoc.HasKey(ReadBackStates(w), k) <==> Mentioned(w.transitions, k)
  {
    forall k ensures Assoc.HasKey(ReadBackStates(w), k) <==> Mentioned(w.transitions, k) {
      ReadBackStatesGet(w, k);
    }
  }

  lemma ReadBackValues(w: UnifiedWorkflow)
    requires PlainWorkflow(w)
    ensures forall i :: 0 <= i < |ReadBackStates(w)| ==> ReadBackStates(w)[i].1 == ReadBackState(w, ReadBackStates(w)[i].0)
  {
    var m := ReadBackStates(w);
    assert Assoc.UniqueKeys(m) by {
      Reparse(w);
    }
    forall i | 0 <= i < |m| ensures m[i].1 == ReadBackState(w, m[i].0) {
      ReadBackStatesGet(w, m[i].0);
      assert Assoc.Get(m, m[i].0) == Some(m[i].1);
    }
  }

  /** Writing a workflow and reading it back keeps its transitions' count,
      order and endpoints; its states become those the transitions name,
      none initial, none described, terminal when they were. */
  lemma RoundTrip(w: UnifiedWorkflow)
    requires PlainWorkflow(w)
    ensures Parse(Text(Serialize(w))) == Ok(Reread(w))
    ensures |Reread(w).transitions| == |w.transitions|
    ensures forall i :: 0 <= i < |w.transitions| ==>
              && Reread(w).transitions[i].fromState == w.transitions[i].fromState
              && Reread(w).transitions[i].toState == w.transitions[i].toState
              && Reread(w).transitions[i].actions == []
    ensures forall i :: 0 <= i < |Reread(w).states| ==>
              && !Reread(w).states[i].1.isInitial
              && Reread(w).states[i].1.description.None?
              && (Reread(w).states[i].1.isTerminal <==> FlaggedName(w.states, false, Reread(w).states[i].0))
  {
    Reparse(w);
    RereadStates(w);
    RereadTransitions(w.transitions);
  }

  /** Redrawing keeps each transition's endpoints and drops its actions. */
  lemma RereadTransitions(ts: seq<Transition>)
    ensures |RedrawnAll(ts)| == |ts|
    ensures forall i :: 0 <= i < |ts| ==>
              && RedrawnAll(ts)[i].fromState == ts[i].fromState
              && RedrawnAll(ts)[i].toState == ts[i].toState
              && RedrawnAll(ts)[i].actions == []
  {
  }

  /** A label shows each condition as its field, operator and value, and
      reading it back makes that whole text the value of an equality test:
      a diagram condition does not survive being written and read again. */
  lemma LabelReadAsValue(a: string, b: string, op: string, v: string)
    requires |v| > 0 && Text.Trimmed(v)
    requires !Text.Contains("condition " + op + " " + v, "&&")
    ensures Redrawn(Transition(a, b, [Condition("condition", op, JStr(v))], [])).conditions
            == [Condition("condition", "equals", JStr("condition " + op + " " + v))]
    ensures "condition " + op + " " + v != v
  {
    var t := Transition(a, b, [Condition("condition", op, JStr(v))], []);
    var text := "condition " + op + " " + v;
    assert Label(t) == text by {
      SoleConditionLabel(t);
    }
    assert Text.Trimmed(text) by {
      assert text[0] == 'c' && text[|text| - 1] == v[|v| - 1];
    }
    assert ReadFragments(t) == [text] by {
      Text.StripTrimmed(text);
    }
    assert |text| > |v|;
  }

  lemma SoleConditionLabel(t: Transition)
    requires |t.conditions| == 1 && t.conditions[0].field == "condition"
    ensures Label(t) == ConditionText(t.conditions[0])
  {
    assert Shown(t.conditions) == [t.conditions[0]];
  }

  /** With validation on, a written diagram never passes when read back:
      with no transitions it has no state, and otherwise no initial one. */
  lemma RoundTripFailsValidation(w: UnifiedWorkflow)
    requires PlainWorkflow(w)
    ensures && WellKeyed(Reread(w))
            && Validation.ValidateWorkflow(Reread(w)) == Fail(ValidationError(if |w.transitions| == 0 then Validation.NoStatesMessage else Validation.NoInitialMessage))
  {
    RereadStates(w);
    var r := Reread(w);
    assert Validation.NoInitialIn(r.states);
    if |w.transitions| > 0 {
      assert Mentioned(w.transitions, w.transitions[0].fromState);
      assert Validation.HasStates(r);
    } else {
      assert Assoc.Keys(r.states) == Assoc.Keys(Endpoints([], w.transitions));
      assert !Validation.HasStates(r);
    }
  }
}
