/** The older transpiler. It dispatches like the exported one but checks
    less: at least one state, at least one initial state, and known
    transition endpoints. Parser and validation errors reach the caller
    unchanged. */
module LegacyTranspiler {
  import opened Wrappers
  import opened Errors
  import opened Json
  import opened Models
  import opened Parsers
  import opened Validation
  import Transpile

  /** The inline check: the first of its three rules violated. */
  function LegacyValidate(w: UnifiedWorkflow): (r: Outcome<Error>)
    ensures r.Pass? <==> HasStates(w) && !NoInitialIn(w.states) && EndpointsKnown(w)
    ensures !HasStates(w) ==> r == Fail(ValidationError(NoStatesMessage))
    ensures HasStates(w) && NoInitialIn(w.states) ==> r == Fail(ValidationError(NoInitialMessage))
    ensures HasStates(w) && !NoInitialIn(w.states) ==> r == ValidateTransitions(w)
    ensures r.Fail? ==> r.error.ValidationError?
  {
    if |w.states| == 0 then Fail(ValidationError(NoStatesMessage))
    else if |InitialNames(w.states)| == 0 then Fail(ValidationError(NoInitialMessage))
    else ValidateTransitions(w)
  }

  /** Every workflow the full validator accepts, the inline check accepts
      too. */
  lemma LegacyAcceptsWellFormed(w: UnifiedWorkflow)
    requires WellFormed(w)
    ensures LegacyValidate(w) == Pass
  {
    var i :| 0 <= i < |w.states| && SoleInitialAt(w.states, i);
    assert w.states[i].1.isInitial;
  }

  /** Converts content from one format to another, passing parser and
      validation errors through as they are. */
  function LegacyTranspile(content: Content, from: Transpile.FormatKey, to: Transpile.FormatKey, validate: bool): (r: Result<Content, Error>)
    ensures from.Other? ==> r == Err(Transpile.Unsupported(from.raw))
    ensures from.Tag? && to.Other? ==> r == Err(Transpile.Unsupported(to.raw))
    ensures from.Tag? && to.Tag? && ParseAs(from.tag, content).Err? ==> r == Err(ParseAs(from.tag, content).error)
    ensures r.Ok? <==> && from.Tag? && to.Tag? && ParseAs(from.tag, content).Ok?
                       && (validate ==> LegacyValidate(ParseAs(from.tag, content).value).Pass?)
                       && SerializeAs(to.tag, ParseAs(from.tag, content).value).Ok?
    ensures r.Ok? ==> r == SerializeAs(to.tag, ParseAs(from.tag, content).value)
    ensures r.Err? && r.error.TranspilerError? ==> from.Other? || to.Other?
  {
    var source :- Transpile.Lookup(from);
    var target :- Transpile.Lookup(to);
    var w :- ParseAs(source, content);
    if validate then
      :- LegacyValidate(w);
      SerializeAs(target, w)
    else SerializeAs(target, w)
  }

  /** Whatever the exported transpiler converts, the older one converts to
      the same result. */
  lemma LegacyAcceptsMore(content: Content, from: Transpile.FormatKey, to: Transpile.FormatKey, validate: bool)
    requires Transpile.Transpile(content, from, to, validate).Ok?
    ensures LegacyTranspile(content, from, to, validate) == Transpile.Transpile(content, from, to, validate)
  {
    var w := ParseAs(from.tag, content).value;
    if validate {
      LegacyAcceptsWellFormed(w);
    }
  }

  /** What the inline check rejects, the full validator rejects too; with
      at most one initial state it reports the same error. With several
      initial states and an unknown endpoint the two disagree: the inline
      check reports the endpoint, the validator the initial states. */
  lemma LegacyRejectionShared(w: UnifiedWorkflow)
    requires WellKeyed(w) && LegacyValidate(w).Fail?
    ensures ValidateWorkflow(w).Fail?
    ensures !HasStates(w) || NoInitialIn(w.states) || UniqueInitial(w) ==> ValidateWorkflow(w) == LegacyValidate(w)
  {
    if HasStates(w) && !NoInitialIn(w.states) && UniqueInitial(w) {
      assert !EndpointsKnown(w);
    }
  }

  /** Whatever the older transpiler rejects, the exported one rejects. */
  lemma ExportedRejectsMore(content: Content, from: Transpile.FormatKey, to: Transpile.FormatKey, validate: bool)
    requires LegacyTranspile(content, from, to, validate).Err?
    ensures Transpile.Transpile(content, from, to, validate).Err?
  {
    if from.Tag? && to.Tag? && ParseAs(from.tag, content).Ok? && validate {
      var w := ParseAs(from.tag, content).value;
      if LegacyValidate(w).Fail? {
        LegacyRejectionShared(w);
      }
    }
  }

  /** A parser error reaches the caller of the older transpiler as it is,
      and the caller of the exported one wrapped. */
  lemma ParserErrorPolicies(content: Content, source: AutomationType, target: AutomationType, validate: bool)
    requires ParseAs(source, content).Err?
    ensures LegacyTranspile(content, Transpile.Tag(source), Transpile.Tag(target), validate) == Err(ParseAs(source, content).error)
    ensures Transpile.Transpile(content, Transpile.Tag(source), Transpile.Tag(target), validate)
            == Err(Transpile.Wrapped(ParseAs(source, content).error))
  {
    Transpile.TranspileFailure(content, source, target, validate);
  }

  // ---------------------------------------------------------------------
  // What the inline check lets through

  function Bare(name: string, initial: bool, terminal: bool): WorkflowState {
    WorkflowState(name, None, initial, terminal, None)
  }

  function Edge(a: string, b: string): Transition {
    Transition(a, b, [], [])
  }

  /** Two initial states pass the inline check; the validator rejects them. */
  lemma TwoInitialAccepted()
    ensures var w := UnifiedWorkflow([("A", Bare("A", true, false)), ("B", Bare("B", true, false))], [], []);
            && LegacyValidate(w) == Pass
            && ValidateWorkflow(w) == Fail(ValidationError(MultipleInitialMessage))
  {
    var w := UnifiedWorkflow([("A", Bare("A", true, false)), ("B", Bare("B", true, false))], [], []);
    assert w.states[0].1.isInitial && w.states[1].1.isInitial;
    assert !UniqueInitial(w);
  }

  /** A state no transition reaches passes the inline check; the validator
      rejects it. */
  lemma UnreachableAccepted()
    ensures var w := UnifiedWorkflow([("A", Bare("A", true, false)), ("B", Bare("B", false, false))], [], []);
            && LegacyValidate(w) == Pass
            && ValidateWorkflow(w).Fail?
  {
    var w := UnifiedWorkflow([("A", Bare("A", true, false)), ("B", Bare("B", false, false))], [], []);
    assert w.states[0].1.isInitial && w.states[0].0 == "A" && w.states[1].0 == "B";
    assert SoleInitialAt(w.states, 0);
    NoEdgesNoPath("A", "B");
    assert !Reachability.Reachable(w.transitions, "A", w.states[1].0);
    assert !AllReachableFrom(w, w.states[0].0);
  }

  /** Without transitions, a state reaches only itself. */
  lemma NoEdgesNoPath(a: string, b: string)
    requires a != b
    ensures !Reachability.Reachable([], a, b)
  {
    forall p: seq<string> | |p| > 1 ensures !Reachability.IsPath([], p) {
      assert !Reachability.Edge([], p[0], p[1]);
    }
  }

  /** A terminal state with an outgoing transition passes the inline check;
      the validator rejects it. */
  lemma TerminalExitAccepted()
    ensures var w := UnifiedWorkflow([("A", Bare("A", true, true)), ("B", Bare("B", false, false))], [Edge("A", "B")], []);
            && LegacyValidate(w) == Pass
            && ValidateWorkflow(w).Fail?
  {
    var w := UnifiedWorkflow([("A", Bare("A", true, true)), ("B", Bare("B", false, false))], [Edge("A", "B")], []);
    assert w.states[0].1.isInitial && w.states[0].0 == "A" && w.states[1].0 == "B";
    assert IsState(w, "A") && IsState(w, "B");
    assert KnownEndpoints(w, w.transitions[0]);
    assert w.states[0].1.isTerminal && w.transitions[0].fromState == w.states[0].1.name;
    assert !TerminalsSilent(w);
  }
}
