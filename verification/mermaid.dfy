/** The Mermaid state-diagram format: plain text read one trimmed line at a
    time, with a small amount of state for collecting notes. */
module Mermaid {
  import opened Wrappers
  import opened Errors
  import opened Json
  import opened Models
  import opened Text
  import Assoc

  /** Every fault while reading a diagram is reported under this prefix. */
  function Failed(message: string): Error {
    ParserError("Error parsing Mermaid diagram: " + message)
  }

  /** A JSON tree handed to the text parser. */
  const IllShaped := Failed("ill-shaped input")

  /** An arrow line that does not split into exactly two sides. */
  function InvalidLine(line: string): Error {
    Failed("Error parsing Mermaid transition: Invalid transition line: " + line)
  }

  const Arrow := "-->"

  /** The start/end sentinel `[*]`. */
  const Sentinel := "[*]"

  // ---------------------------------------------------------------------
  // Arrow lines

  /** The pieces of an arrow line: its two sides and the fragments of its
      label. */
  datatype ArrowParts = ArrowParts(source: string, target: string, fragments: seq<string>)

  /** A label split on "&&", each piece trimmed. */
  function Fragments(text: string): (r: seq<string>)
    ensures |r| >= 1
    ensures forall i :: 0 <= i < |r| ==> Trimmed(r[i])
    ensures !Contains(text, "&&") ==> r == [Strip(text)]
  {
    var pieces := Split(text, "&&");
    seq(|pieces|, i requires 0 <= i < |pieces| => Strip(pieces[i]))
  }

  /** Splits an arrow line into source, target and label fragments. The
      target ends at the first ':' after the arrow, and the label at the
      second. A line with more than one arrow is rejected. */
  function ParseTransitionLine(line: string): (r: Result<ArrowParts, Error>)
    ensures r.Ok? ==> Contains(line, Arrow)
    ensures r.Err? ==> r.error == InvalidLine(line)
    ensures r.Ok? ==> Trimmed(r.value.source) && Trimmed(r.value.target)
    ensures r.Ok? ==> forall i :: 0 <= i < |r.value.fragments| ==> Trimmed(r.value.fragments[i])
  {
    var parts := Split(line, Arrow);
    if |parts| != 2 then Err(InvalidLine(line))
    else
      var toParts := Split(parts[1], ":");
      var fragments := if |toParts| > 1 then Fragments(Strip(toParts[1])) else [];
      Ok(ArrowParts(Strip(parts[0]), Strip(toParts[0]), fragments))
  }

  /** The conditions of a diagram transition: one equality test per label
      fragment, in order. */
  function LabelConditions(fragments: seq<string>): (r: seq<Condition>)
    ensures |r| == |fragments|
    ensures forall i :: 0 <= i < |r| ==> r[i] == Condition("condition", "equals", JStr(fragments[i]))
  {
    seq(|fragments|, i requires 0 <= i < |fragments| => Condition("condition", "equals", JStr(fragments[i])))
  }

  // ---------------------------------------------------------------------
  // State updates

  /** The changes a line can make to an existing state. */
  datatype Mark = Describe(text: string) | MarkInitial | MarkTerminal

  function Apply(mark: Mark, st: WorkflowState): (r: WorkflowState)
    ensures r.name == st.name && r.properties == st.properties
  {
    match mark
    case Describe(d) => st.(description := Some(d))
    case MarkInitial => st.(isInitial := true)
    case MarkTerminal => st.(isTerminal := true)
  }

  /** Changes the state stored under `name` in place; a name that is not a
      state changes nothing. */
  function Modify(m: StateMap, name: string, mark: Mark): (r: StateMap)
    ensures Assoc.Keys(r) == Assoc.Keys(m)
    ensures !Assoc.HasKey(m, name) ==> r == m
    ensures Assoc.HasKey(m, name) ==> Assoc.Get(r, name) == Some(Apply(mark, Assoc.Get(m, name).value))
    ensures forall k :: k != name ==> Assoc.Get(r, k) == Assoc.Get(m, k)
    ensures forall p :: p in r ==> p in m || (Assoc.HasKey(m, name) && p == (name, Apply(mark, Assoc.Get(m, name).value)))
  {
    match Assoc.Get(m, name)
    case None => m
    case Some(st) => Assoc.Put(m, name, Apply(mark, st))
  }

  /** Adds a bare state for `name` unless one exists. */
  function EnsureState(m: StateMap, name: string): (r: StateMap)
    ensures Assoc.HasKey(m, name) ==> r == m
    ensures !Assoc.HasKey(m, name) ==> r == m + [(name, NamedState(name))]
  {
    if Assoc.HasKey(m, name) then m else Assoc.Put(m, name, NamedState(name))
  }

  // ---------------------------------------------------------------------
  // Reading

  /** What the reader carries from line to line: the states and transitions
      so far, the note being collected, and the state it is about. */
  datatype Scan = Scan(states: StateMap, transitions: seq<Transition>, note: Option<seq<string>>, target: Option<string>)

  const Start := Scan([], [], None, None)

  /** A transition as the diagram reader builds it: conditions from the
      label only, and no actions. */
  predicate DiagramTransition(t: Transition) {
    && t.actions == []
    && forall j :: 0 <= j < |t.conditions| ==>
         t.conditions[j].field == "condition" && t.conditions[j].operator == "equals" && t.conditions[j].value.JStr?
  }

  /** What holds of the reader's state after every line: states are keyed
      by name and carry no properties, and every transition is a diagram
      transition between known states. */
  predicate Good(s: Scan) {
    && KeyedStates(s.states)
    && (forall i :: 0 <= i < |s.states| ==> s.states[i].1.properties.None?)
    && (forall i :: 0 <= i < |s.transitions| ==>
          && Assoc.HasKey(s.states, s.transitions[i].fromState)
          && Assoc.HasKey(s.states, s.transitions[i].toState)
          && DiagramTransition(s.transitions[i]))
  }

  /** What one parsed arrow does. An arrow from the start sentinel marks
      its target initial and an arrow to the end sentinel marks its source
      terminal, in both cases only when that state exists; any other arrow
      adds its missing endpoints and appends one transition. */
  function Connect(s: Scan, a: ArrowParts): (r: Scan)
    ensures s.transitions <= r.transitions && |r.transitions| <= |s.transitions| + 1
  {
    if a.source == Sentinel then s.(states := Modify(s.states, a.target, MarkInitial))
    else if a.target == Sentinel then s.(states := Modify(s.states, a.source, MarkTerminal))
    else
      var states := EnsureState(EnsureState(s.states, a.source), a.target);
      s.(states := states, transitions := s.transitions + [Transition(a.source, a.target, LabelConditions(a.fragments), [])])
  }

  /** One arrow line outside a note. */
  function StepArrow(s: Scan, line: string): (r: Result<Scan, Error>)
    ensures r.Err? ==> r.error == InvalidLine(line)
    ensures r.Ok? ==> && s.transitions <= r.value.transitions
                      && |r.value.transitions| <= |s.transitions| + 1
  {
    var a :- ParseTransitionLine(line);
    Ok(Connect(s, a))
  }

  /** The kinds of trimmed line, as the reader tests for them in order:
      blank or header, state declaration, note start, and anything else. */
  datatype Kind = Blank | Declaration | NoteStart | Other

  /** The keyword that starts the header line. */
  const Diagram := "stateDiagram"

  function KindOf(line: string): Kind {
    if |line| == 0 || StartsWith(line, Diagram) then Blank
    else if StartsWith(line, "state") then Declaration
    else if StartsWith(line, "note") then NoteStart
    else Other
  }

  /** A declaration line: the text between its first two quotes becomes a
      bare state, replacing any state of that name. Without two quotes the
      line changes nothing. */
  function Declare(s: Scan, line: string): Scan {
    var parts := Split(line, "\"");
    if |parts| >= 3 then s.(states := Assoc.Put(s.states, parts[1], NamedState(parts[1]))) else s
  }

  /** A note start opens an empty note. Its target is the trimmed text after
      the first "of"; without "of" the previous target stays. */
  function OpenNote(s: Scan, line: string): Scan {
    s.(note := Some([]), target := if Contains(line, "of") then Some(Strip(Split(line, "of")[1])) else s.target)
  }

  /** A note end closes the note only when it has a body and a named
      target. */
  predicate Closes(s: Scan) {
    s.note.Some? && |s.note.value| > 0 && s.target.Some? && |s.target.value| > 0
  }

  /** Closing a note describes its target with the body lines joined by
      newlines, and forgets the note and its target. */
  function CloseNote(s: Scan): Scan
    requires Closes(s)
  {
    Scan(Modify(s.states, s.target.value, Describe(Join(s.note.value, "\n"))), s.transitions, None, None)
  }

  /** Any other line: the end of a note that can be closed, collected
      inside any other note, read as an arrow when it has one, and otherwise
      ignored. */
  function Continue(s: Scan, line: string): (r: Result<Scan, Error>)
    ensures r.Err? ==> s.note.None? && Contains(line, Arrow) && r.error == InvalidLine(line)
    ensures r.Ok? ==> && s.transitions <= r.value.transitions
                      && |r.value.transitions| <= |s.transitions| + 1
  {
    if Closes(s) && line == "end note" then Ok(CloseNote(s))
    else if s.note.Some? then Ok(s.(note := Some(s.note.value + [line])))
    else if Contains(line, Arrow) then StepArrow(s, line)
    else Ok(s)
  }

  /** One trimmed line, dispatched on its kind. */
  function Dispatch(s: Scan, line: string): (r: Result<Scan, Error>)
    ensures r.Err? ==> s.note.None? && Contains(line, Arrow) && r.error == InvalidLine(line)
    ensures r.Ok? ==> && s.transitions <= r.value.transitions
                      && |r.value.transitions| <= |s.transitions| + 1
  {
    match KindOf(line)
    case Blank => Ok(s)
    case Declaration => Ok(Declare(s, line))
    case NoteStart => Ok(OpenNote(s, line))
    case Other => Continue(s, line)
  }

  /** One raw line: the reader looks only at its trimmed text. */
  function Step(s: Scan, raw: string): (r: Result<Scan, Error>)
    ensures r.Err? ==> s.note.None? && Contains(Strip(raw), Arrow) && r.error == InvalidLine(Strip(raw))
    ensures r.Ok? ==> && s.transitions <= r.value.transitions
                      && |r.value.transitions| <= |s.transitions| + 1
  {
    Dispatch(s, Strip(raw))
  }

  lemma ModifyGood(s: Scan, name: string, mark: Mark)
    requires Good(s)
    ensures Good(s.(states := Modify(s.states, name, mark)))
  {
    var m := Modify(s.states, name, mark);
    assert Assoc.UniqueKeys(m) by {
      assert Assoc.Keys(m) == Assoc.Keys(s.states);
      forall i, j | 0 <= i < j < |m| ensures m[i].0 != m[j].0 {
        assert Assoc.Keys(m)[i] == Assoc.Keys(s.states)[i];
        assert Assoc.Keys(m)[j] == Assoc.Keys(s.states)[j];
      }
    }
    forall i | 0 <= i < |m| ensures m[i].1.name == m[i].0 && m[i].1.properties.None? {
      assert m[i] in m;
      if m[i] !in s.states {
        var st := Assoc.Get(s.states, name).value;
        var k :| 0 <= k < |s.states| && s.states[k] == (name, st);
      } else {
        var k :| 0 <= k < |s.states| && s.states[k] == m[i];
      }
    }
    forall k | Assoc.HasKey(s.states, k) ensures Assoc.HasKey(m, k) {
      assert Assoc.Get(s.states, k).Some?;
      if k == name {
      } else {
        assert Assoc.Get(m, k) == Assoc.Get(s.states, k);
      }
    }
  }

  lemma EnsureStateGood(s: Scan, name: string)
    requires Good(s)
    ensures Good(s.(states := EnsureState(s.states, name)))
    ensures Assoc.HasKey(EnsureState(s.states, name), name)
    ensures forall k :: Assoc.HasKey(s.states, k) ==> Assoc.HasKey(EnsureState(s.states, name), k)
  {
    var m := EnsureState(s.states, name);
    if !Assoc.HasKey(s.states, name) {
      assert m[|s.states|] == (name, NamedState(name));
      forall k | Assoc.HasKey(s.states, k) ensures Assoc.HasKey(m, k) {
        var i :| 0 <= i < |s.states| && s.states[i].0 == k;
        assert m[i] == s.states[i];
      }
    }
  }

  lemma ConnectGood(s: Scan, a: ArrowParts)
    requires Good(s)
    ensures Good(Connect(s, a))
  {
    if a.source == Sentinel {
      ModifyGood(s, a.target, MarkInitial);
    } else if a.target == Sentinel {
      ModifyGood(s, a.source, MarkTerminal);
    } else {
      EnsureStateGood(s, a.source);
      var s1 := s.(states := EnsureState(s.states, a.source));
      EnsureStateGood(s1, a.target);
      var s2 := s1.(states := EnsureState(s1.states, a.target));
      var t := Transition(a.source, a.target, LabelConditions(a.fragments), []);
      AppendGood(s2, t);
    }
  }

  lemma AppendGood(s: Scan, t: Transition)
    requires Good(s) && DiagramTransition(t)
    requires Assoc.HasKey(s.states, t.fromState) && Assoc.HasKey(s.states, t.toState)
    ensures Good(s.(transitions := s.transitions + [t]))
  {
    var r := s.(transitions := s.transitions + [t]);
    forall i | 0 <= i < |r.transitions|
      ensures Assoc.HasKey(r.states, r.transitions[i].fromState) && Assoc.HasKey(r.states, r.transitions[i].toState)
      ensures DiagramTransition(r.transitions[i])
    {
      if i < |s.transitions| {
        assert r.transitions[i] == s.transitions[i];
      } else {
        assert r.transitions[i] == t;
      }
    }
  }

  lemma DeclareGood(s: Scan, name: string)
    requires Good(s)
    ensures Good(s.(states := Assoc.Put(s.states, name, NamedState(name))))
  {
    var m := Assoc.Put(s.states, name, NamedState(name));
    forall i | 0 <= i < |m| ensures m[i].1.name == m[i].0 && m[i].1.properties.None? {
      assert m[i] in m;
      if m[i] != (name, NamedState(name)) {
        var k :| 0 <= k < |s.states| && s.states[k] == m[i];
      }
    }
    forall k | Assoc.HasKey(s.states, k) ensures Assoc.HasKey(m, k) {
      assert Assoc.Get(s.states, k).Some?;
      if k != name {
        assert Assoc.Get(m, k) == Assoc.Get(s.states, k);
      }
    }
  }

  /** Every line keeps the reader's invariant. */
  lemma DispatchGood(s: Scan, line: string)
    ensures Good(s) && Dispatch(s, line).Ok? ==> Good(Dispatch(s, line).value)
  {
    if Good(s) {
      match KindOf(line)
      case Declaration =>
        var parts := Split(line, "\"");
        if |parts| >= 3 {
          DeclareGood(s, parts[1]);
        }
      case Other => ContinueGood(s, line);
      case _ =>
    }
  }

  lemma ContinueGood(s: Scan, line: string)
    requires Good(s)
    ensures Continue(s, line).Ok? ==> Good(Continue(s, line).value)
  {
    if Closes(s) && line == "end note" {
      ModifyGood(s, s.target.value, Describe(Join(s.note.value, "\n")));
    } else if s.note.None? && Contains(line, Arrow) {
      match ParseTransitionLine(line)
      case Err(_) =>
      case Ok(a) => ConnectGood(s, a);
    }
  }

  /** A step folded over lines, stopping at the first fault. */
  function Fold(step: (Scan, string) -> Result<Scan, Error>, s: Scan, lines: seq<string>): Result<Scan, Error>
    decreases |lines|
  {
    if |lines| == 0 then Ok(s)
    else
      var next :- step(s, lines[0]);
      Fold(step, next, lines[1..])
  }

  /** The reader folded over the lines. */
  function Run(s: Scan, lines: seq<string>): Result<Scan, Error> {
    Fold(Step, s, lines)
  }

  /** The reader keeps its invariant from line to line. */
  lemma {:induction false} RunGood(s: Scan, lines: seq<string>)
    requires Good(s)
    ensures Run(s, lines).Ok? ==> Good(Run(s, lines).value)
    decreases |lines|
  {
    if |lines| > 0 && Step(s, lines[0]).Ok? {
      DispatchGood(s, Strip(lines[0]));
      RunGood(Step(s, lines[0]).value, lines[1..]);
    }
  }

  /** The only fault is an arrow line that does not split in two, reported
      with the trimmed line. */
  lemma {:induction false} RunFault(s: Scan, lines: seq<string>)
    ensures Run(s, lines).Err? ==> exists i :: 0 <= i < |lines| && Run(s, lines).error == InvalidLine(Strip(lines[i]))
    decreases |lines|
  {
    if |lines| > 0 && Step(s, lines[0]).Ok? {
      var r := Run(Step(s, lines[0]).value, lines[1..]);
      RunFault(Step(s, lines[0]).value, lines[1..]);
      if r.Err? {
        var i :| 0 <= i < |lines[1..]| && r.error == InvalidLine(Strip(lines[1..][i]));
        assert lines[1..][i] == lines[i + 1];
      }
    }
  }

  /** Reads a Mermaid diagram. The result keeps states keyed by name, with
      no properties; each transition joins two of its states, has no
      actions, and tests only label fragments. */
  function Parse(content: Content): (r: Result<UnifiedWorkflow, Error>)
    ensures content.Tree? ==> r == Err(IllShaped)
    ensures r.Err? ==> r.error.ParserError?
    ensures r.Ok? ==> && WellKeyed(r.value)
                      && r.value.metadata == SourceMetadata(Mermaid)
                      && (forall i :: 0 <= i < |r.value.states| ==> r.value.states[i].1.properties.None?)
                      && (forall i :: 0 <= i < |r.value.transitions| ==>
                            && IsState(r.value, r.value.transitions[i].fromState)
                            && IsState(r.value, r.value.transitions[i].toState)
                            && DiagramTransition(r.value.transitions[i]))
  {
    match content
    case Tree(_) => Err(IllShaped)
    case Text(text) =>
      var lines := Split(text, "\n");
      RunGood(Start, lines);
      RunFault(Start, lines);
      var s :- Run(Start, lines);
      Ok(UnifiedWorkflow(s.states, s.transitions, SourceMetadata(Mermaid)))
  }

  // ---------------------------------------------------------------------
  // Writing

  /** How a condition is shown in a label: field, operator and value. */
  function ConditionText(c: Condition): string {
    c.field + " " + c.operator + " " + PyStr(c.value)
  }

  /** A transition's label: its condition-type conditions, joined. */
  function Label(t: Transition): string {
    var shown := Shown(t.conditions);
    Join(seq(|shown|, i requires 0 <= i < |shown| => ConditionText(shown[i])), " && ")
  }

  /** The conditions a label shows: those whose field is "condition". */
  function Shown(cs: seq<Condition>): (r: seq<Condition>)
    ensures |r| <= |cs|
    ensures forall i :: 0 <= i < |r| ==> r[i].field == "condition" && r[i] in cs
    ensures forall c :: c in cs && c.field == "condition" ==> c in r
  {
    if |cs| == 0 then []
    else (if cs[0].field == "condition" then [cs[0]] else []) + Shown(cs[1..])
  }

  /** The indentation of every line after the header. */
  const Indent := "    "

  const Header := Diagram + "-v2"

  function InitialLine(name: string): string {
    Indent + Sentinel + " " + Arrow + " " + name
  }

  function TerminalLine(name: string): string {
    Indent + name + " " + Arrow + " " + Sentinel
  }

  function NoteBlock(name: string, description: string): seq<string> {
    [Indent + "note right of " + name, Indent + Indent + description, Indent + "end note"]
  }

  /** The label written after the target, when there is one. */
  function LabelSuffix(shown: string): string {
    if |shown| > 0 then ": " + shown else ""
  }

  function ArrowLine(t: Transition): string {
    Indent + t.fromState + " " + Arrow + " " + t.toState + LabelSuffix(Label(t))
  }

  /** The flag a marker line shows: initial, or else terminal. */
  predicate Flagged(st: WorkflowState, initial: bool) {
    if initial then st.isInitial else st.isTerminal
  }

  /** `n` names a flagged state of `m`. */
  predicate FlaggedName(m: StateMap, initial: bool, n: string) {
    exists i :: 0 <= i < |m| && Flagged(m[i].1, initial) && m[i].1.name == n
  }

  /** How many states of `m` carry the flag. */
  function FlaggedCount(m: StateMap, initial: bool): nat {
    if |m| == 0 then 0 else (if Flagged(m[0].1, initial) then 1 else 0) + FlaggedCount(m[1..], initial)
  }

  /** The names of the flagged states, in map order. */
  function FlaggedNames(m: StateMap, initial: bool): (r: seq<string>)
    ensures |r| == FlaggedCount(m, initial)
    ensures forall j :: 0 <= j < |r| ==> FlaggedName(m, initial, r[j])
    ensures forall i :: 0 <= i < |m| && Flagged(m[i].1, initial) ==> m[i].1.name in r
  {
    if |m| == 0 then []
    else
      var rest := FlaggedNames(m[1..], initial);
      assert forall i :: 1 <= i < |m| ==> m[i] == m[1..][i - 1];
      assert forall n :: FlaggedName(m[1..], initial, n) ==> FlaggedName(m, initial, n) by {
        forall n | FlaggedName(m[1..], initial, n) ensures FlaggedName(m, initial, n) {
          var i :| 0 <= i < |m[1..]| && Flagged(m[1..][i].1, initial) && m[1..][i].1.name == n;
          assert m[i + 1] == m[1..][i];
        }
      }
      var head := if Flagged(m[0].1, initial) then [m[0].1.name] else [];
      assert forall j :: |head| <= j < |head + rest| ==> (head + rest)[j] == rest[j - |head|];
      head + rest
  }

  /** One start line per initial state, in map order: as many lines as
      initial states, each naming one, and none missing. */
  function InitialLines(m: StateMap): (r: seq<string>)
    ensures |r| == FlaggedCount(m, true)
    ensures forall j :: 0 <= j < |r| ==> exists n :: FlaggedName(m, true, n) && r[j] == InitialLine(n)
    ensures forall i :: 0 <= i < |m| && m[i].1.isInitial ==> InitialLine(m[i].1.name) in r
  {
    var names := FlaggedNames(m, true);
    var r := seq(|names|, j requires 0 <= j < |names| => InitialLine(names[j]));
    assert forall j :: 0 <= j < |r| ==> FlaggedName(m, true, names[j]) && r[j] == InitialLine(names[j]);
    assert forall i :: 0 <= i < |m| && m[i].1.isInitial ==> InitialLine(m[i].1.name) in r by {
      forall i | 0 <= i < |m| && m[i].1.isInitial ensures InitialLine(m[i].1.name) in r {
        assert Flagged(m[i].1, true);
        var j :| 0 <= j < |names| && names[j] == m[i].1.name;
        assert r[j] == InitialLine(names[j]);
      }
    }
    r
  }

  /** A state whose note is written: its description is present and not
      empty. */
  predicate Described(st: WorkflowState) {
    st.description.Some? && |st.description.value| > 0
  }

  /** How many states of `m` are described. */
  function DescribedCount(m: StateMap): nat {
    if |m| == 0 then 0 else (if Described(m[0].1) then 1 else 0) + DescribedCount(m[1..])
  }

  /** The `j`th block of three lines in `lines` is the note of `st`. */
  predicate BlockAt(lines: seq<string>, j: int, st: WorkflowState)
    requires Described(st)
  {
    0 <= j && 3 * j + 3 <= |lines| && lines[3 * j..3 * j + 3] == NoteBlock(st.name, st.description.value)
  }

  /** The `j`th block of three lines in `lines` is the note of some state
      of `m`. */
  predicate NoteOfSome(lines: seq<string>, j: int, m: StateMap) {
    exists i :: 0 <= i < |m| && Described(m[i].1) && BlockAt(lines, j, m[i].1)
  }

  /** A block keeps its place, counted in blocks, behind `n` whole
      blocks. */
  lemma BlockShift(front: seq<string>, lines: seq<string>, j: int, n: nat, st: WorkflowState)
    requires Described(st) && |front| == 3 * n && BlockAt(lines, j, st)
    ensures BlockAt(front + lines, j + n, st)
  {
    assert (front + lines)[3 * (j + n)..3 * (j + n) + 3] == lines[3 * j..3 * j + 3];
  }

  /** The lines written for one state's note: none when it is not
      described. */
  function NoteOf(st: WorkflowState): (r: seq<string>)
    ensures |r| == if Described(st) then 3 else 0
  {
    if Described(st) then NoteBlock(st.name, st.description.value) else []
  }

  /** Every described state of `m[1..]` with a block in `rest` keeps one
      behind the first state's note, and the first state has its own. */
  lemma NotesConsCover(m: StateMap, rest: seq<string>)
    requires |m| > 0 && |rest| % 3 == 0
    requires forall i :: 0 <= i < |m[1..]| && Described(m[1..][i].1) ==> exists j :: BlockAt(rest, j, m[1..][i].1)
    ensures forall i :: 0 <= i < |m| && Described(m[i].1) ==> exists j :: BlockAt(NoteOf(m[0].1) + rest, j, m[i].1)
  {
    var here := NoteOf(m[0].1);
    var r := here + rest;
    forall i | 0 <= i < |m| && Described(m[i].1) ensures exists j :: BlockAt(r, j, m[i].1) {
      if i == 0 {
        assert r[0..3] == here;
        assert BlockAt(r, 0, m[i].1);
      } else {
        assert m[i] == m[1..][i - 1];
        var j :| BlockAt(rest, j, m[i].1);
        BlockShift(here, rest, j, |here| / 3, m[i].1);
      }
    }
  }

  /** The `j`th block of the first state's note followed by `rest` is the
      note of a state of `m`, when the blocks of `rest` are notes of
      states of `m[1..]`. */
  lemma NoteConsAt(m: StateMap, rest: seq<string>, j: int)
    requires |m| > 0 && |rest| == 3 * DescribedCount(m[1..])
    requires forall k :: 0 <= k < DescribedCount(m[1..]) ==> NoteOfSome(rest, k, m[1..])
    requires 0 <= j < DescribedCount(m)
    ensures NoteOfSome(NoteOf(m[0].1) + rest, j, m)
  {
    var st := m[0].1;
    var here := NoteOf(st);
    var r := here + rest;
    if Described(st) && j == 0 {
      assert r[0..3] == here;
      assert BlockAt(r, 0, m[0].1);
    } else {
      var n := if Described(st) then 1 else 0;
      var k := j - n;
      assert 0 <= k < DescribedCount(m[1..]);
      assert NoteOfSome(rest, k, m[1..]);
      var i :| 0 <= i < |m[1..]| && Described(m[1..][i].1) && BlockAt(rest, k, m[1..][i].1);
      BlockShift(here, rest, k, n, m[1..][i].1);
      assert m[i + 1] == m[1..][i];
      assert BlockAt(r, j, m[i + 1].1);
    }
  }

  /** Every block behind the first state's note is the note of a state of
      `m[1..]`, and so of `m`. */
  lemma NotesConsSound(m: StateMap, rest: seq<string>)
    requires |m| > 0 && |rest| == 3 * DescribedCount(m[1..])
    requires forall j :: 0 <= j < DescribedCount(m[1..]) ==> NoteOfSome(rest, j, m[1..])
    ensures forall j :: 0 <= j < DescribedCount(m) ==> NoteOfSome(NoteOf(m[0].1) + rest, j, m)
  {
    forall j | 0 <= j < DescribedCount(m) ensures NoteOfSome(NoteOf(m[0].1) + rest, j, m) {
      NoteConsAt(m, rest, j);
    }
  }

  /** A three-line note per state with a non-empty description, in map
      order: three lines for each described state, none without one. */
  function NoteLines(m: StateMap): (r: seq<string>)
    ensures |r| == 3 * DescribedCount(m)
    ensures (forall i :: 0 <= i < |m| ==> m[i].1.description.None? || m[i].1.description == Some("")) ==> r == []
  {
    if |m| == 0 then []
    else
      assert forall i :: 1 <= i < |m| ==> m[i] == m[1..][i - 1];
      NoteOf(m[0].1) + NoteLines(m[1..])
  }

  /** No described state is left without its note block. */
  lemma {:induction false} NoteLinesCover(m: StateMap)
    ensures forall i :: 0 <= i < |m| && Described(m[i].1) ==> exists j :: BlockAt(NoteLines(m), j, m[i].1)
    decreases |m|
  {
    if |m| > 0 {
      NoteLinesCover(m[1..]);
      NotesConsCover(m, NoteLines(m[1..]));
      assert NoteLines(m) == NoteOf(m[0].1) + NoteLines(m[1..]);
    }
  }

  /** Every note block is the note of a described state. */
  lemma {:induction false} NoteLinesSound(m: StateMap)
    ensures forall j :: 0 <= j < DescribedCount(m) ==> NoteOfSome(NoteLines(m), j, m)
    decreases |m|
  {
    if |m| > 0 {
      NoteLinesSound(m[1..]);
      NotesConsSound(m, NoteLines(m[1..]));
      assert NoteLines(m) == NoteOf(m[0].1) + NoteLines(m[1..]);
    }
  }

  /** One arrow line per transition, in order. */
  function ArrowLines(ts: seq<Transition>): (r: seq<string>)
    ensures |r| == |ts| && forall i :: 0 <= i < |ts| ==> r[i] == ArrowLine(ts[i])
  {
    seq(|ts|, i requires 0 <= i < |ts| => ArrowLine(ts[i]))
  }

  /** One end line per terminal state, in map order: as many lines as
      terminal states, each naming one, and none missing. */
  function TerminalLines(m: StateMap): (r: seq<string>)
    ensures |r| == FlaggedCount(m, false)
    ensures forall j :: 0 <= j < |r| ==> exists n :: FlaggedName(m, false, n) && r[j] == TerminalLine(n)
    ensures forall i :: 0 <= i < |m| && m[i].1.isTerminal ==> TerminalLine(m[i].1.name) in r
  {
    var names := FlaggedNames(m, false);
    var r := seq(|names|, j requires 0 <= j < |names| => TerminalLine(names[j]));
    assert forall j :: 0 <= j < |r| ==> FlaggedName(m, false, names[j]) && r[j] == TerminalLine(names[j]);
    assert forall i :: 0 <= i < |m| && m[i].1.isTerminal ==> TerminalLine(m[i].1.name) in r by {
      forall i | 0 <= i < |m| && m[i].1.isTerminal ensures TerminalLine(m[i].1.name) in r {
        assert Flagged(m[i].1, false);
        var j :| 0 <= j < |names| && names[j] == m[i].1.name;
        assert r[j] == TerminalLine(names[j]);
      }
    }
    r
  }

  /** The lines of a diagram, in the order they are written: header, start
      lines, notes, arrows, end lines. */
  function DiagramLines(w: UnifiedWorkflow): seq<string> {
    [Header] + InitialLines(w.states) + NoteLines(w.states) + ArrowLines(w.transitions) + TerminalLines(w.states)
  }

  /** Writes a workflow as a Mermaid diagram. It never fails. */
  function Serialize(w: UnifiedWorkflow): (r: string)
    ensures StartsWith(r, Header)
  {
    var lines := DiagramLines(w);
    assert Join(lines, "\n") == Header + (if |lines| == 1 then "" else "\n" + Join(lines[1..], "\n"));
    Join(lines, "\n")
  }
}
