/** The structural checks run over a unified workflow, in their fixed
    order: states, transition endpoints, reachability, terminal states,
    conflicting conditions. Each check passes or reports the first problem
    it meets as a validation error. */
module Validation {
  import opened Wrappers
  import opened Errors
  import opened Models
  import opened Reachability
  import Assoc
  import Text

  const NoStatesMessage := "Workflow must have at least one state"
  const NoInitialMessage := "Workflow must have an initial state"
  const MultipleInitialMessage := "Workflow cannot have multiple initial states"
  const UnreachablePrefix := "Following states are unreachable: "

  // ---------------------------------------------------------------------
  // The rules, stated declaratively.

  predicate HasStates(w: UnifiedWorkflow) {
    |w.states| > 0
  }

  predicate NoInitialIn(s: StateMap) {
    forall i :: 0 <= i < |s| ==> !s[i].1.isInitial
  }

  /** The state at `i` is initial and no other state is. */
  predicate SoleInitialAt(s: StateMap, i: int) {
    && 0 <= i < |s|
    && s[i].1.isInitial
    && forall j :: 0 <= j < |s| && j != i ==> !s[j].1.isInitial
  }

  predicate UniqueInitial(w: UnifiedWorkflow) {
    exists i :: 0 <= i < |w.states| && SoleInitialAt(w.states, i)
  }

  predicate KnownEndpoints(w: UnifiedWorkflow, t: Transition) {
    IsState(w, t.fromState) && IsState(w, t.toState)
  }

  predicate EndpointsKnown(w: UnifiedWorkflow) {
    forall i :: 0 <= i < |w.transitions| ==> KnownEndpoints(w, w.transitions[i])
  }

  /** Every state can be reached from `start` along transitions. */
  ghost predicate AllReachableFrom(w: UnifiedWorkflow, start: string) {
    forall j :: 0 <= j < |w.states| ==> Reachable(w.transitions, start, w.states[j].0)
  }

  ghost predicate AllReachable(w: UnifiedWorkflow) {
    forall i :: SoleInitialAt(w.states, i) ==> AllReachableFrom(w, w.states[i].0)
  }

  /** No transition starts at a terminal state. */
  predicate TerminalsSilent(w: UnifiedWorkflow) {
    forall i, j :: 0 <= i < |w.transitions| && 0 <= j < |w.states| && w.states[j].1.isTerminal
                   ==> w.transitions[i].fromState != w.states[j].1.name
  }

  function FieldOperator(c: Condition): (string, string) {
    (c.field, c.operator)
  }

  /** No two conditions of one transition share a field and an operator. */
  predicate DistinctConditions(cs: seq<Condition>) {
    forall a, b :: 0 <= a < b < |cs| ==> FieldOperator(cs[a]) != FieldOperator(cs[b])
  }

  predicate ConditionsDistinct(w: UnifiedWorkflow) {
    forall i :: 0 <= i < |w.transitions| ==> DistinctConditions(w.transitions[i].conditions)
  }

  /** A workflow every check accepts. */
  ghost predicate WellFormed(w: UnifiedWorkflow) {
    && HasStates(w)
    && UniqueInitial(w)
    && EndpointsKnown(w)
    && AllReachable(w)
    && TerminalsSilent(w)
    && ConditionsDistinct(w)
  }

  // ---------------------------------------------------------------------
  // The checks, as the validator runs them.

  /** The names of the initial states, in state order. None means no
      initial state, one means a single one, and the first is the first
      initial state. */
  function InitialNames(s: StateMap): (r: seq<string>)
    ensures |r| == 0 <==> NoInitialIn(s)
    ensures |r| == 1 <==> exists i :: SoleInitialAt(s, i)
    ensures |r| > 0 ==> exists i :: 0 <= i < |s| && s[i].1.isInitial && r[0] == s[i].1.name
                                    && forall j :: 0 <= j < i ==> !s[j].1.isInitial
  {
    if |s| == 0 then []
    else
      var rest := InitialNames(s[1..]);
      assert forall j :: 1 <= j < |s| ==> s[j] == s[1..][j - 1];
      if s[0].1.isInitial then
        assert |rest| == 0 ==> SoleInitialAt(s, 0);
        assert |rest| > 0 ==> forall i :: !SoleInitialAt(s, i) by {
          if |rest| > 0 {
            var k :| 0 <= k < |s[1..]| && s[1..][k].1.isInitial;
            assert s[k + 1].1.isInitial;
          }
        }
        [s[0].1.name] + rest
      else
        assert forall i :: SoleInitialAt(s, i) <==> i > 0 && SoleInitialAt(s[1..], i - 1);
        assert (exists i :: SoleInitialAt(s[1..], i)) ==> exists i :: SoleInitialAt(s, i) by {
          if exists i :: SoleInitialAt(s[1..], i) {
            var i :| SoleInitialAt(s[1..], i);
            assert SoleInitialAt(s, i + 1);
          }
        }
        rest
  }

  /** At least one state, exactly one of them initial. */
  function ValidateStates(w: UnifiedWorkflow): (r: Outcome<Error>)
    ensures r.Pass? <==> HasStates(w) && UniqueInitial(w)
    ensures !HasStates(w) ==> r == Fail(ValidationError(NoStatesMessage))
    ensures HasStates(w) && NoInitialIn(w.states) ==> r == Fail(ValidationError(NoInitialMessage))
    ensures (HasStates(w) && !NoInitialIn(w.states) && !UniqueInitial(w))
            ==> r == Fail(ValidationError(MultipleInitialMessage))
  {
    if |w.states| == 0 then Fail(ValidationError(NoStatesMessage))
    else
      var initial := InitialNames(w.states);
      if |initial| == 0 then Fail(ValidationError(NoInitialMessage))
      else if |initial| > 1 then Fail(ValidationError(MultipleInitialMessage))
      else Pass
  }

  function EndpointProblem(w: UnifiedWorkflow, t: Transition): Option<Error> {
    if !IsState(w, t.fromState) then Some(ValidationError("Invalid from_state in transition: " + t.fromState))
    else if !IsState(w, t.toState) then Some(ValidationError("Invalid to_state in transition: " + t.toState))
    else None
  }

  /** Every transition names known states; otherwise the first transition
      that does not is reported, its source checked before its target. */
  function ValidateTransitions(w: UnifiedWorkflow): (r: Outcome<Error>)
    ensures r.Pass? <==> EndpointsKnown(w)
    ensures r.Fail? ==>
      exists i :: && 0 <= i < |w.transitions|
                  && !KnownEndpoints(w, w.transitions[i])
                  && (forall j :: 0 <= j < i ==> KnownEndpoints(w, w.transitions[j]))
                  && r.error == ValidationError(
                       if !IsState(w, w.transitions[i].fromState)
                       then "Invalid from_state in transition: " + w.transitions[i].fromState
                       else "Invalid to_state in transition: " + w.transitions[i].toState)
  {
    FirstError(w.transitions, t => EndpointProblem(w, t))
  }

  function StateNames(w: UnifiedWorkflow): (r: set<string>)
    ensures forall k :: k in r <==> IsState(w, k)
  {
    set i | 0 <= i < |w.states| :: w.states[i].0
  }

  /** The keys outside `visited`, in state order. */
  function Unvisited(s: StateMap, visited: set<string>): (r: seq<string>)
    ensures forall k :: k in r <==> Assoc.HasKey(s, k) && k !in visited
  {
    if |s| == 0 then []
    else
      var rest := Unvisited(s[1..], visited);
      assert forall k :: Assoc.HasKey(s, k) <==> k == s[0].0 || Assoc.HasKey(s[1..], k) by {
        forall k ensures Assoc.HasKey(s, k) <==> k == s[0].0 || Assoc.HasKey(s[1..], k) {
          if Assoc.HasKey(s, k) && k != s[0].0 {
            var i :| 0 <= i < |s| && s[i].0 == k;
            assert s[1..][i - 1] == s[i];
          }
          if Assoc.HasKey(s[1..], k) {
            var i :| 0 <= i < |s[1..]| && s[1..][i].0 == k;
            assert s[i + 1] == s[1..][i];
          }
        }
      }
      (if s[0].0 in visited then [] else [s[0].0]) + rest
  }

  /** Every state is reachable from `start`, a state of `w`; the error
      lists exactly the states that are not. */
  function ReachableFromCheck(w: UnifiedWorkflow, start: string): (r: Outcome<Error>)
    requires WellKeyed(w) && EndpointsKnown(w)
    requires exists i :: 0 <= i < |w.states| && w.states[i].1.name == start
    ensures r.Pass? <==> AllReachableFrom(w, start)
    ensures r.Fail? ==>
      exists names: seq<string> ::
        && r.error == ValidationError(UnreachablePrefix + Text.Join(names, ", "))
        && |names| > 0
        && forall k :: k in names <==> IsState(w, k) && !Reachable(w.transitions, start, k)
  {
    var nodes := StateNames(w);
    assert start in nodes by {
      var i :| 0 <= i < |w.states| && start == w.states[i].1.name;
      assert IsState(w, w.states[i].0);
    }
    assert TargetsIn(w.transitions, nodes) by {
      forall i | 0 <= i < |w.transitions| ensures w.transitions[i].toState in nodes {
        assert KnownEndpoints(w, w.transitions[i]);
      }
    }
    var visited := VisitedFrom(w.transitions, nodes, start);
    VisitedIsReachable(w.transitions, nodes, start);
    var unreachable := Unvisited(w.states, visited);
    assert AllReachableFrom(w, start) <==> |unreachable| == 0 by {
      if |unreachable| > 0 {
        assert unreachable[0] in unreachable;
        var j :| 0 <= j < |w.states| && w.states[j].0 == unreachable[0];
      } else {
        forall j | 0 <= j < |w.states| ensures Reachable(w.transitions, start, w.states[j].0) {
          assert w.states[j].0 !in unreachable;
        }
      }
    }
    if |unreachable| == 0 then Pass
    else Fail(ValidationError(UnreachablePrefix + Text.Join(unreachable, ", ")))
  }

  /** Every state is reachable from the first initial state; the error
      lists exactly the states that are not. Without an initial state the
      check has nothing to do, whatever the states and transitions. */
  function ValidateReachability(w: UnifiedWorkflow): (r: Outcome<Error>)
    requires !NoInitialIn(w.states) ==> WellKeyed(w) && EndpointsKnown(w)
    ensures NoInitialIn(w.states) ==> r == Pass
    ensures !NoInitialIn(w.states) ==>
              (r.Pass? <==> AllReachableFrom(w, InitialNames(w.states)[0]))
    ensures r.Fail? ==>
      exists names: seq<string> ::
        && r.error == ValidationError(UnreachablePrefix + Text.Join(names, ", "))
        && |names| > 0
        && forall k :: k in names <==> IsState(w, k) && !Reachable(w.transitions, InitialNames(w.states)[0], k)
  {
    var initial := InitialNames(w.states);
    if |initial| == 0 then Pass
    else ReachableFromCheck(w, initial[0])
  }

  /** The names of the terminal states. */
  function TerminalNames(w: UnifiedWorkflow): (r: set<string>)
    ensures forall n :: n in r <==> exists j :: 0 <= j < |w.states| && w.states[j].1.isTerminal && w.states[j].1.name == n
  {
    set j | 0 <= j < |w.states| && w.states[j].1.isTerminal :: w.states[j].1.name
  }

  function TerminalProblem(terminal: set<string>, t: Transition): Option<Error> {
    if t.fromState in terminal
    then Some(ValidationError("Terminal state " + t.fromState + " cannot have outgoing transitions"))
    else None
  }

  /** No transition leaves a terminal state; otherwise the first one that
      does is reported. */
  function ValidateTerminalStates(w: UnifiedWorkflow): (r: Outcome<Error>)
    ensures r.Pass? <==> TerminalsSilent(w)
    ensures r.Fail? ==>
      exists i, j :: && 0 <= i < |w.transitions| && 0 <= j < |w.states|
                     && w.states[j].1.isTerminal && w.transitions[i].fromState == w.states[j].1.name
                     && r.error == ValidationError("Terminal state " + w.transitions[i].fromState
                                                   + " cannot have outgoing transitions")
                     && forall i' :: 0 <= i' < i ==> w.transitions[i'].fromState !in TerminalNames(w)
  {
    var terminal := TerminalNames(w);
    FirstError(w.transitions, t => TerminalProblem(terminal, t))
  }

  /** Condition `j` repeats the field and operator of an earlier one. */
  predicate RepeatsEarlier(cs: seq<Condition>, j: int)
    requires 0 <= j < |cs|
  {
    exists k :: 0 <= k < j && FieldOperator(cs[k]) == FieldOperator(cs[j])
  }

  /** Scans the conditions from `i` on, remembering the field/operator pairs
      already seen, and returns the first that repeats one. */
  function FirstRepeatFrom(cs: seq<Condition>, i: nat, seen: set<(string, string)>): (r: Option<nat>)
    requires i <= |cs|
    requires seen == set k | 0 <= k < i :: FieldOperator(cs[k])
    ensures r.Some? ==> i <= r.value < |cs| && RepeatsEarlier(cs, r.value)
                        && forall j :: i <= j < r.value ==> !RepeatsEarlier(cs, j)
    ensures r.None? ==> forall j :: i <= j < |cs| ==> !RepeatsEarlier(cs, j)
    decreases |cs| - i
  {
    if i == |cs| then None
    else if FieldOperator(cs[i]) in seen then
      var k :| 0 <= k < i && FieldOperator(cs[k]) == FieldOperator(cs[i]);
      Some(i)
    else
      assert !RepeatsEarlier(cs, i);
      var seen' := seen + {FieldOperator(cs[i])};
      assert seen' == set k | 0 <= k < i + 1 :: FieldOperator(cs[k]);
      FirstRepeatFrom(cs, i + 1, seen')
  }

  function ConflictProblem(t: Transition): Option<Error> {
    match FirstRepeatFrom(t.conditions, 0, {})
    case None => None
    case Some(j) =>
      Some(ValidationError("Conflicting conditions for " + t.conditions[j].field
                           + " in transition " + t.fromState + " -> " + t.toState))
  }

  lemma DistinctIffNoRepeat(cs: seq<Condition>)
    ensures DistinctConditions(cs) <==> forall j :: 0 <= j < |cs| ==> !RepeatsEarlier(cs, j)
  {
    if !DistinctConditions(cs) {
      var a, b :| 0 <= a < b < |cs| && FieldOperator(cs[a]) == FieldOperator(cs[b]);
      assert RepeatsEarlier(cs, b);
    }
  }

  /** No transition has two conditions on the same field with the same
      operator; otherwise the first such transition is reported, naming the
      field of its first repeated condition. */
  function ValidateConditions(w: UnifiedWorkflow): (r: Outcome<Error>)
    ensures r.Pass? <==> ConditionsDistinct(w)
    ensures r.Fail? ==>
      exists i, j :: && 0 <= i < |w.transitions| && 0 <= j < |w.transitions[i].conditions|
                     && RepeatsEarlier(w.transitions[i].conditions, j)
                     && (forall j' :: 0 <= j' < j ==> !RepeatsEarlier(w.transitions[i].conditions, j'))
                     && (forall i' :: 0 <= i' < i ==> DistinctConditions(w.transitions[i'].conditions))
                     && r.error == ValidationError("Conflicting conditions for " + w.transitions[i].conditions[j].field
                                                   + " in transition " + w.transitions[i].fromState
                                                   + " -> " + w.transitions[i].toState)
  {
    forall t: Transition ensures ConflictProblem(t).None? <==> DistinctConditions(t.conditions) {
      DistinctIffNoRepeat(t.conditions);
    }
    FirstError(w.transitions, ConflictProblem)
  }

  /** Runs the checks in order and reports the first rule violated. A
      workflow passes exactly when it is well formed. */
  function ValidateWorkflow(w: UnifiedWorkflow): (r: Outcome<Error>)
    requires WellKeyed(w)
    ensures r.Pass? <==> WellFormed(w)
    ensures !HasStates(w) ==> r == Fail(ValidationError(NoStatesMessage))
    ensures HasStates(w) && NoInitialIn(w.states) ==> r == Fail(ValidationError(NoInitialMessage))
    ensures (HasStates(w) && !NoInitialIn(w.states) && !UniqueInitial(w))
            ==> r == Fail(ValidationError(MultipleInitialMessage))
    ensures UniqueInitial(w) && !EndpointsKnown(w) ==> r == ValidateTransitions(w)
    ensures (UniqueInitial(w) && EndpointsKnown(w) && !AllReachable(w))
            ==> r == ValidateReachability(w) && r.Fail?
    ensures (UniqueInitial(w) && EndpointsKnown(w) && AllReachable(w) && !TerminalsSilent(w))
            ==> r == ValidateTerminalStates(w) && r.Fail?
    ensures (UniqueInitial(w) && EndpointsKnown(w) && AllReachable(w) && TerminalsSilent(w)
             && !ConditionsDistinct(w)) ==> r == ValidateConditions(w) && r.Fail?
  {
    var states := ValidateStates(w);
    if states.Fail? then states
    else
      var endpoints := ValidateTransitions(w);
      if endpoints.Fail? then endpoints
      else
        SoleInitialIsFirst(w);
        var reach := ValidateReachability(w);
        if reach.Fail? then reach
        else
          var terminal := ValidateTerminalStates(w);
          if terminal.Fail? then terminal
          else ValidateConditions(w)
  }

  /** With a single initial state, the traversal starts from its key. */
  lemma SoleInitialIsFirst(w: UnifiedWorkflow)
    requires WellKeyed(w) && UniqueInitial(w)
    ensures !NoInitialIn(w.states)
    ensures AllReachable(w) <==> AllReachableFrom(w, InitialNames(w.states)[0])
  {
    var i :| SoleInitialAt(w.states, i);
    var names := InitialNames(w.states);
    var f :| 0 <= f < |w.states| && w.states[f].1.isInitial && names[0] == w.states[f].1.name
             && forall j :: 0 <= j < f ==> !w.states[j].1.isInitial;
    assert f == i;
    assert names[0] == w.states[i].0;
  }
}
