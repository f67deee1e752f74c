/** What reading back a written diagram gives: the transitions and their
    endpoints survive, end markers survive on states that some transition
    names, and start markers and notes are lost, because they are written
    before any transition has created a state. */
module MermaidReparse {
  import opened Wrappers
  import opened Errors
  import opened Json
  import opened Models
  import opened Text
  import opened Mermaid
  import opened MermaidLaws
  import Assoc

  // ---------------------------------------------------------------------
  // Note blocks

  /** A name a note can be attached to: trimmed, non-empty, on one line,
      and without "of", which the reader splits the note line on. */
  predicate NoteName(n: string) {
    |n| > 0 && Trimmed(n) && '\n' !in n && !Contains(n, "of")
  }

  /** A description the body line of a note carries: on one line, and read
      back, once trimmed, as an ordinary line. */
  predicate PlainNote(d: string) {
    '\n' !in d && NoKeyword(Strip(d))
  }

  lemma NoteLineText(name: string)
    requires NoteName(name)
    ensures var line := "note right of " + name;
            && Strip(Indent + line) == line
            && |line| > 0 && !StartsWith(line, "state") && StartsWith(line, "note")
  {
    var p := "note right of ";
    var line := p + name;
    assert p[0] == 'n';
    TrimmedAfter(p, name);
    StripIndented(line);
    NotStartsWithAt(line, "state", 0);
    assert StartsWith("note right of ", "note");
    StartsWithAppend("note right of ", name, "note");
  }

  lemma NoteLineTarget(name: string)
    requires NoteName(name)
    ensures var line := "note right of " + name;
            Contains(line, "of") && Strip(Split(line, "of")[1]) == name
  {
    var p := "note right";
    assert "note right of " == p + " " + "of" + " ";
    MissingEndChar(p, "of");
    SplitSpaced(p, "of", name);
    ContainsMiddle(p + " ", "of", " " + name);
    Regroup(p, " ", "of", " ", name);
    StripSpaced(name);
  }

  lemma NoteBodyText(d: string)
    ensures Strip(Indent + Indent + d) == Strip(d)
  {
    assert Indent + Indent + d == (Indent + Indent) + d;
    StripLeading(Indent + Indent, d);
  }

  lemma NoteEndText()
    ensures Strip(Indent + "end note") == "end note"
    ensures NoKeyword("end note")
  {
    StripIndented("end note");
    EndNoteNoKeyword();
  }

  /** Running over three lines is taking the three steps in turn. */
  lemma RunThree(s: Scan, lines: seq<string>, s1: Scan, s2: Scan, s3: Scan)
    requires |lines| == 3
    requires Step(s, lines[0]) == Ok(s1) && Step(s1, lines[1]) == Ok(s2) && Step(s2, lines[2]) == Ok(s3)
    ensures Run(s, lines) == Ok(s3)
  {
    assert Run(s3, lines[1..][1..][1..]) == Ok(s3);
    assert Run(s2, lines[1..][1..]) == Ok(s3);
    assert Run(s1, lines[1..]) == Ok(s3);
  }

  lemma NoteOpened(s: Scan, name: string)
    requires NoteName(name)
    ensures Step(s, Indent + "note right of " + name) == Ok(s.(note := Some([]), target := Some(name)))
  {
    NoteLineText(name);
    NoteLineTarget(name);
    Regroup3(Indent, "note right of ", name);
    NoteStartCase(s, "note right of " + name);
    StepOf(s, Indent + "note right of " + name, "note right of " + name);
  }

  lemma NoteCollected(s: Scan, raw: string, line: string)
    requires s.note == Some([]) && Strip(raw) == line && NoKeyword(line)
    ensures Step(s, raw) == Ok(s.(note := Some([line])))
  {
    assert !Closes(s);
    NoteBodyCase(s, line);
    StepOf(s, raw, line);
    assert s.note.value + [line] == [line];
  }

  lemma NoteClosed(s: Scan, body: string, name: string)
    requires s.note == Some([body]) && s.target == Some(name) && |name| > 0
    ensures Step(s, Indent + "end note") == Ok(Scan(Modify(s.states, name, Describe(body)), s.transitions, None, None))
  {
    NoteEndText();
    NoteEndCase(s, "end note");
    StepOf(s, Indent + "end note", "end note");
  }

  /** Outside a note, a written note block sets the description of the
      named state, when it exists, to the trimmed description, and leaves
      no note open. */
  lemma NoteBlockRead(s: Scan, name: string, d: string)
    requires s.note.None? && NoteName(name) && PlainNote(d)
    ensures Run(s, NoteBlock(name, d)) == Ok(Scan(Modify(s.states, name, Describe(Strip(d))), s.transitions, None, None))
  {
    var s1 := s.(note := Some([]), target := Some(name));
    var s2 := s1.(note := Some([Strip(d)]));
    NoteOpened(s, name);
    NoteBodyText(d);
    NoteCollected(s1, Indent + Indent + d, Strip(d));
    NoteClosed(s2, Strip(d), name);
    RunThree(s, NoteBlock(name, d), s1, s2, Scan(Modify(s.states, name, Describe(Strip(d))), s.transitions, None, None));
  }

  // ---------------------------------------------------------------------
  // Running over consecutive segments

  /** Folding over two segments is folding over the first and then over
      the second from where the first stopped. */
  lemma {:induction false} FoldAppend(step: (Scan, string) -> Result<Scan, Error>, s: Scan, xs: seq<string>, ys: seq<string>, t: Scan)
    requires Fold(step, s, xs) == Ok(t)
    ensures Fold(step, s, xs + ys) == Fold(step, t, ys)
    decreases |xs|
  {
    if |xs| == 0 {
      assert xs + ys == ys;
    } else {
      assert (xs + ys)[0] == xs[0];
      assert (xs + ys)[1..] == xs[1..] + ys;
      FoldAppend(step, step(s, xs[0]).value, xs[1..], ys, t);
    }
  }

  lemma RunAppend(s: Scan, xs: seq<string>, ys: seq<string>, t: Scan)
    requires Run(s, xs) == Ok(t)
    ensures Run(s, xs + ys) == Run(t, ys)
  {
    FoldAppend(Step, s, xs, ys, t);
  }

  /** Running over lines is taking the first step, then running over the
      rest. */
  lemma RunCons(s: Scan, lines: seq<string>, t: Scan)
    requires |lines| > 0 && Step(s, lines[0]) == Ok(t)
    ensures Run(s, lines) == Run(t, lines[1..])
  {
  }

  /** The header line is skipped. */
  lemma HeaderSkipped(s: Scan)
    ensures Step(s, Header) == Ok(s)
  {
    assert Header[0] == 's' && Header[|Header| - 1] == '2';
    StripTrimmed(Header);
    StartsWithPrefix(Diagram, "-v2");
    SkippedCase(s, Header);
    StepOf(s, Header, Header);
  }

  // ---------------------------------------------------------------------
  // Start and end lines

  function Marker(initial: bool): Mark {
    if initial then MarkInitial else MarkTerminal
  }

  function MarkerLine(initial: bool, n: string): string {
    if initial then InitialLine(n) else TerminalLine(n)
  }

  /** The states after marking each name in turn. */
  function MarkAll(m: StateMap, names: seq<string>, mark: Mark): (r: StateMap)
    ensures Assoc.Keys(r) == Assoc.Keys(m)
    decreases |names|
  {
    if |names| == 0 then m else MarkAll(Modify(m, names[0], mark), names[1..], mark)
  }

  /** Marking twice is marking once. */
  lemma ApplyTwice(mark: Mark, st: WorkflowState)
    ensures Apply(mark, Apply(mark, st)) == Apply(mark, st)
  {
  }

  /** After marking, a state is marked exactly when its key is among the
      names; no state is added or removed. */
  lemma {:induction false} MarkAllGet(m: StateMap, names: seq<string>, mark: Mark, k: string)
    ensures Assoc.Get(MarkAll(m, names, mark), k)
            == if Assoc.HasKey(m, k) && k in names then Some(Apply(mark, Assoc.Get(m, k).value)) else Assoc.Get(m, k)
    decreases |names|
  {
    if |names| > 0 {
      var m1 := Modify(m, names[0], mark);
      MarkAllGet(m1, names[1..], mark, k);
      assert k in names <==> k == names[0] || k in names[1..] by {
        assert names == [names[0]] + names[1..];
      }
      if Assoc.HasKey(m, k) && k == names[0] {
        ApplyTwice(mark, Assoc.Get(m, k).value);
      }
    }
  }

  lemma MarkAllEmpty(names: seq<string>, mark: Mark)
    ensures MarkAll([], names, mark) == []
  {
    assert |Assoc.Keys(MarkAll([], names, mark))| == 0;
  }

  /** Outside a note, a run of start (or end) lines marks each of their
      names in turn. */
  lemma {:induction false} RunMarkers(s: Scan, lines: seq<string>, names: seq<string>, initial: bool)
    requires s.note.None?
    requires |lines| == |names|
    requires forall j :: 0 <= j < |names| ==> PlainName(names[j]) && lines[j] == MarkerLine(initial, names[j])
    ensures Run(s, lines) == Ok(s.(states := MarkAll(s.states, names, Marker(initial))))
    decreases |names|
  {
    if |names| > 0 {
      var s1 := s.(states := Modify(s.states, names[0], Marker(initial)));
      if initial {
        StartLine(s, names[0]);
      } else {
        EndLine(s, names[0]);
      }
      assert Step(s, lines[0]) == Ok(s1);
      RunMarkers(s1, lines[1..], names[1..], initial);
    }
  }

  // ---------------------------------------------------------------------
  // Note blocks at the start

  /** Every state the notes are written for carries a readable name and
      description. */
  predicate PlainNotes(m: StateMap) {
    forall i :: 0 <= i < |m| && m[i].1.description.Some? && |m[i].1.description.value| > 0 ==>
      NoteName(m[i].1.name) && PlainNote(m[i].1.description.value)
  }

  /** Read with no state known yet, the note blocks change nothing: each
      names a state that does not exist. */
  lemma {:induction false} RunNotes(s: Scan, m: StateMap)
    requires s.states == [] && s.note.None? && s.target.None? && PlainNotes(m)
    ensures Run(s, NoteLines(m)) == Ok(s)
    decreases |m|
  {
    if |m| > 0 {
      var st := m[0].1;
      assert forall i :: 0 <= i < |m[1..]| ==> m[1..][i] == m[i + 1];
      RunNotes(s, m[1..]);
      if st.description.Some? && |st.description.value| > 0 {
        var block := NoteBlock(st.name, st.description.value);
        assert NoteLines(m) == block + NoteLines(m[1..]);
        NoteBlockRead(s, st.name, st.description.value);
        assert !Assoc.HasKey(s.states, st.name);
        assert Scan(Modify(s.states, st.name, Describe(Strip(st.description.value))), s.transitions, None, None) == s;
        RunAppend(s, block, NoteLines(m[1..]), s);
      } else {
        assert NoteLines(m) == [] + NoteLines(m[1..]);
        assert NoteLines(m) == NoteLines(m[1..]);
      }
    }
  }

  // ---------------------------------------------------------------------
  // Arrow lines

  /** The states after creating, in order, each missing endpoint of each
      transition. */
  function Endpoints(m: StateMap, ts: seq<Transition>): StateMap
    decreases |ts|
  {
    if |ts| == 0 then m else Endpoints(EnsureState(EnsureState(m, ts[0].fromState), ts[0].toState), ts[1..])
  }

  /** `k` is an endpoint of some transition. */
  predicate Mentioned(ts: seq<Transition>, k: string) {
    exists i :: 0 <= i < |ts| && (ts[i].fromState == k || ts[i].toState == k)
  }

  lemma EnsureStateGet(m: StateMap, n: string, k: string)
    ensures Assoc.Get(EnsureState(m, n), k) == if k == n && !Assoc.HasKey(m, k) then Some(NamedState(k)) else Assoc.Get(m, k)
  {
  }

  lemma MentionedCons(ts: seq<Transition>, k: string)
    requires |ts| > 0
    ensures Mentioned(ts, k) <==> ts[0].fromState == k || ts[0].toState == k || Mentioned(ts[1..], k)
  {
    if Mentioned(ts, k) {
      var i :| 0 <= i < |ts| && (ts[i].fromState == k || ts[i].toState == k);
      if i > 0 {
        assert ts[1..][i - 1] == ts[i];
      }
    }
    if Mentioned(ts[1..], k) {
      var i :| 0 <= i < |ts[1..]| && (ts[1..][i].fromState == k || ts[1..][i].toState == k);
      assert ts[i + 1] == ts[1..][i];
    }
  }

  /** Creating the endpoints keeps every existing state and adds a bare
      state for exactly each endpoint not yet known. */
  lemma {:induction false} EndpointsGet(m: StateMap, ts: seq<Transition>, k: string)
    ensures Assoc.Get(Endpoints(m, ts), k)
            == if Assoc.HasKey(m, k) then Assoc.Get(m, k)
               else if Mentioned(ts, k) then Some(NamedState(k))
               else None
    decreases |ts|
  {
    if |ts| > 0 {
      var m0 := EnsureState(m, ts[0].fromState);
      var m1 := EnsureState(m0, ts[0].toState);
      EnsureStateGet(m, ts[0].fromState, k);
      EnsureStateGet(m0, ts[0].toState, k);
      EndpointsGet(m1, ts[1..], k);
      MentionedCons(ts, k);
    } else {
      assert !Mentioned(ts, k);
    }
  }

  /** The transitions as they read back. */
  function RedrawnAll(ts: seq<Transition>): (r: seq<Transition>)
    ensures |r| == |ts| && forall i :: 0 <= i < |ts| ==> r[i] == Redrawn(ts[i])
  {
    if |ts| == 0 then [] else [Redrawn(ts[0])] + RedrawnAll(ts[1..])
  }

  lemma AppendAssoc<T>(a: seq<T>, b: seq<T>, c: seq<T>)
    ensures a + b + c == a + (b + c)
  {
  }

  /** The scan after reading one arrow line for `t`. */
  function ArrowRead(s: Scan, t: Transition): Scan {
    s.(states := EnsureState(EnsureState(s.states, t.fromState), t.toState), transitions := s.transitions + [Redrawn(t)])
  }

  /** `step` reads every plain arrow line outside a note as the reader
      does. */
  ghost predicate ReadsArrows(step: (Scan, string) -> Result<Scan, Error>) {
    forall s: Scan, t: Transition {:trigger step(s, ArrowLine(t))} ::
      s.note.None? && PlainTransition(t) ==> step(s, ArrowLine(t)) == Ok(ArrowRead(s, t))
  }

  lemma {:induction false} FoldArrows(step: (Scan, string) -> Result<Scan, Error>, s: Scan, ts: seq<Transition>)
    requires ReadsArrows(step)
    requires s.note.None? && forall i :: 0 <= i < |ts| ==> PlainTransition(ts[i])
    ensures Fold(step, s, ArrowLines(ts)) == Ok(s.(states := Endpoints(s.states, ts), transitions := s.transitions + RedrawnAll(ts)))
    decreases |ts|
  {
    if |ts| == 0 {
      assert s.transitions + RedrawnAll(ts) == s.transitions;
    } else {
      var lines := ArrowLines(ts);
      var s1 := ArrowRead(s, ts[0]);
      assert step(s, lines[0]) == Ok(s1);
      assert lines[1..] == ArrowLines(ts[1..]);
      FoldArrows(step, s1, ts[1..]);
      AppendAssoc(s.transitions, [Redrawn(ts[0])], RedrawnAll(ts[1..]));
    }
  }

  /** Outside a note, the arrow lines create the missing endpoints of each
      transition and append its redrawn copy, in order. */
  lemma RunArrows(s: Scan, ts: seq<Transition>)
    requires s.note.None? && forall i :: 0 <= i < |ts| ==> PlainTransition(ts[i])
    ensures Run(s, ArrowLines(ts)) == Ok(s.(states := Endpoints(s.states, ts), transitions := s.transitions + RedrawnAll(ts)))
  {
    forall s': Scan, t: Transition | s'.note.None? && PlainTransition(t)
      ensures Step(s', ArrowLine(t)) == Ok(ArrowRead(s', t))
    {
      ArrowLineRead(s', t);
    }
    FoldArrows(Step, s, ts);
  }

  // ---------------------------------------------------------------------
  // The written text splits back into its lines

  /** No line holds a line break. */
  predicate OneLine(lines: seq<string>) {
    forall i :: 0 <= i < |lines| ==> '\n' !in lines[i]
  }

  lemma OneLineAppend(a: seq<string>, b: seq<string>)
    requires OneLine(a) && OneLine(b)
    ensures OneLine(a + b)
  {
    forall i | 0 <= i < |a + b| ensures '\n' !in (a + b)[i] {
      if i >= |a| {
        assert (a + b)[i] == b[i - |a|];
      }
    }
  }

  lemma FixedTextOneLine()
    ensures '\n' !in Indent && '\n' !in Sentinel && '\n' !in Arrow && '\n' !in Header
    ensures '\n' !in " " && '\n' !in ": " && '\n' !in "note right of " && '\n' !in "end note"
  {
  }

  /** A workflow whose names, notes and labels the diagram text carries
      unchanged: every flagged state has a plain name, every note a
      readable name and description, every transition plain endpoints and
      label. */
  predicate PlainWorkflow(w: UnifiedWorkflow) {
    && (forall i :: 0 <= i < |w.states| && (w.states[i].1.isInitial || w.states[i].1.isTerminal) ==> PlainName(w.states[i].1.name))
    && PlainNotes(w.states)
    && (forall i :: 0 <= i < |w.transitions| ==> PlainTransition(w.transitions[i]))
  }

  /** A workflow whose written lines are each one line: no flagged state's
      name, no note's name or description, and no transition's endpoint or
      shown label holds a line break. */
  predicate OneLineWorkflow(w: UnifiedWorkflow) {
    && (forall i :: 0 <= i < |w.states| && (w.states[i].1.isInitial || w.states[i].1.isTerminal) ==> '\n' !in w.states[i].1.name)
    && (forall i :: 0 <= i < |w.states| && Described(w.states[i].1) ==>
          '\n' !in w.states[i].1.name && '\n' !in w.states[i].1.description.value)
    && (forall i :: 0 <= i < |w.transitions| ==>
          '\n' !in w.transitions[i].fromState && '\n' !in w.transitions[i].toState && '\n' !in Label(w.transitions[i]))
  }

  lemma PlainIsOneLine(w: UnifiedWorkflow)
    requires PlainWorkflow(w)
    ensures OneLineWorkflow(w)
  {
    forall i | 0 <= i < |w.states| && Described(w.states[i].1)
      ensures '\n' !in w.states[i].1.description.value
    {
      assert PlainNote(w.states[i].1.description.value);
    }
  }

  lemma FlaggedOneLine(w: UnifiedWorkflow, initial: bool, n: string)
    requires OneLineWorkflow(w) && FlaggedName(w.states, initial, n)
    ensures '\n' !in n
  {
    var i :| 0 <= i < |w.states| && Flagged(w.states[i].1, initial) && w.states[i].1.name == n;
  }

  lemma MarkerLinesOneLine(w: UnifiedWorkflow, initial: bool)
    requires OneLineWorkflow(w)
    ensures OneLine(if initial then InitialLines(w.states) else TerminalLines(w.states))
  {
    var names := FlaggedNames(w.states, initial);
    FixedTextOneLine();
    forall j | 0 <= j < |names| ensures '\n' !in MarkerLine(initial, names[j]) {
      FlaggedOneLine(w, initial, names[j]);
    }
  }

  lemma NoteBlockOneLine(name: string, d: string)
    requires '\n' !in name && '\n' !in d
    ensures OneLine(NoteBlock(name, d))
  {
    FixedTextOneLine();
    var b := NoteBlock(name, d);
    assert '\n' !in b[0] && '\n' !in b[1] && '\n' !in b[2];
  }

  lemma {:induction false} NoteLinesOneLine(m: StateMap)
    requires forall i :: 0 <= i < |m| && Described(m[i].1) ==> '\n' !in m[i].1.name && '\n' !in m[i].1.description.value
    ensures OneLine(NoteLines(m))
    decreases |m|
  {
    if |m| > 0 {
      assert forall i :: 0 <= i < |m[1..]| ==> m[1..][i] == m[i + 1];
      NoteLinesOneLine(m[1..]);
      var st := m[0].1;
      var here := if st.description.Some? && |st.description.value| > 0 then NoteBlock(st.name, st.description.value) else [];
      assert OneLine(here) by {
        if st.description.Some? && |st.description.value| > 0 {
          NoteBlockOneLine(st.name, st.description.value);
        }
      }
      assert NoteLines(m) == here + NoteLines(m[1..]);
      OneLineAppend(here, NoteLines(m[1..]));
    }
  }

  lemma ArrowLinesOneLine(ts: seq<Transition>)
    requires forall i :: 0 <= i < |ts| ==> '\n' !in ts[i].fromState && '\n' !in ts[i].toState && '\n' !in Label(ts[i])
    ensures OneLine(ArrowLines(ts))
  {
    FixedTextOneLine();
    forall i | 0 <= i < |ts| ensures '\n' !in ArrowLine(ts[i]) {
      assert '\n' !in LabelSuffix(Label(ts[i]));
    }
  }

  /** Splitting the written text on line breaks gives back its lines,
      whenever every line is one line. */
  lemma SerializeSplits(w: UnifiedWorkflow)
    requires OneLineWorkflow(w)
    ensures Split(Serialize(w), "\n") == DiagramLines(w)
  {
    FixedTextOneLine();
    MarkerLinesOneLine(w, true);
    MarkerLinesOneLine(w, false);
    NoteLinesOneLine(w.states);
    ArrowLinesOneLine(w.transitions);
    var a := [Header] + InitialLines(w.states);
    OneLineAppend([Header], InitialLines(w.states));
    OneLineAppend(a, NoteLines(w.states));
    OneLineAppend(a + NoteLines(w.states), ArrowLines(w.transitions));
    OneLineAppend(a + NoteLines(w.states) + ArrowLines(w.transitions), TerminalLines(w.states));
    assert "\n" == ['\n'];
    SplitJoinChar(DiagramLines(w), '\n');
  }

  // ---------------------------------------------------------------------
  // Reading back a written diagram

  /** The states read back: one bare state per transition endpoint, in
      order of first mention, marked terminal when the written workflow
      flagged it so. */
  function ReadBackStates(w: UnifiedWorkflow): StateMap {
    MarkAll(Endpoints([], w.transitions), FlaggedNames(w.states, false), MarkTerminal)
  }

  lemma RunHeader(s: Scan)
    ensures Run(s, [Header]) == Ok(s)
  {
    HeaderSkipped(s);
    RunCons(s, [Header], s);
  }

  lemma FlaggedNamesPlain(w: UnifiedWorkflow, initial: bool)
    requires PlainWorkflow(w)
    ensures forall j :: 0 <= j < |FlaggedNames(w.states, initial)| ==> PlainName(FlaggedNames(w.states, initial)[j])
  {
    var names := FlaggedNames(w.states, initial);
    forall j | 0 <= j < |names| ensures PlainName(names[j]) {
      FlaggedOneLine(w, initial, names[j]);
    }
  }

  /** The header and the start lines leave the reader at its start: there
      is no state yet to mark initial. */
  lemma RunOpening(w: UnifiedWorkflow)
    requires PlainWorkflow(w)
    ensures Run(Start, [Header] + InitialLines(w.states)) == Ok(Start)
  {
    var starts := FlaggedNames(w.states, true);
    FlaggedNamesPlain(w, true);
    RunHeader(Start);
    RunMarkers(Start, InitialLines(w.states), starts, true);
    MarkAllEmpty(starts, MarkInitial);
    RunAppend(Start, [Header], InitialLines(w.states), Start);
  }

  /** ... and so do the notes. */
  lemma RunPrelude(w: UnifiedWorkflow)
    requires PlainWorkflow(w)
    ensures Run(Start, [Header] + InitialLines(w.states) + NoteLines(w.states)) == Ok(Start)
  {
    RunOpening(w);
    RunNotes(Start, w.states);
    RunAppend(Start, [Header] + InitialLines(w.states), NoteLines(w.states), Start);
  }

  /** The arrow lines then create the states and transitions. */
  lemma RunBody(w: UnifiedWorkflow, prelude: seq<string>)
    requires PlainWorkflow(w) && Run(Start, prelude) == Ok(Start)
    ensures Run(Start, prelude + ArrowLines(w.transitions))
            == Ok(Scan(Endpoints([], w.transitions), RedrawnAll(w.transitions), None, None))
  {
    var ts := w.transitions;
    var s4 := Scan(Endpoints([], ts), RedrawnAll(ts), None, None);
    assert Run(Start, ArrowLines(ts)) == Ok(s4) by {
      RunArrows(Start, ts);
      assert Start.transitions + RedrawnAll(ts) == RedrawnAll(ts);
      assert Start.(states := Endpoints(Start.states, ts), transitions := Start.transitions + RedrawnAll(ts)) == s4;
    }
    RunAppend(Start, prelude, ArrowLines(ts), Start);
  }

  /** Reading the written lines in order: the header, the start lines and
      the notes leave the reader at its start, since no state exists yet;
      the arrow lines create the states and transitions; the end lines
      mark the terminal states. */
  lemma RunDiagram(w: UnifiedWorkflow)
    requires PlainWorkflow(w)
    ensures Run(Start, DiagramLines(w)) == Ok(Scan(ReadBackStates(w), RedrawnAll(w.transitions), None, None))
  {
    var prelude := [Header] + InitialLines(w.states) + NoteLines(w.states);
    var body := prelude + ArrowLines(w.transitions);
    var s4 := Scan(Endpoints([], w.transitions), RedrawnAll(w.transitions), None, None);
    RunPrelude(w);
    RunBody(w, prelude);
    FlaggedNamesPlain(w, false);
    RunMarkers(s4, TerminalLines(w.states), FlaggedNames(w.states, false), false);
    RunAppend(Start, body, TerminalLines(w.states), s4);
    assert DiagramLines(w) == body + TerminalLines(w.states);
  }

  /** Reading back a written diagram gives one bare state per transition
      endpoint, marked terminal when it was flagged so, and the redrawn
      transitions, in order. */
  lemma Reparse(w: UnifiedWorkflow)
    requires PlainWorkflow(w)
    ensures Parse(Text(Serialize(w))) == Ok(UnifiedWorkflow(ReadBackStates(w), RedrawnAll(w.transitions), SourceMetadata(Mermaid)))
  {
    PlainIsOneLine(w);
    SerializeSplits(w);
    RunDiagram(w);
  }
}
