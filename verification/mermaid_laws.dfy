/** How the Mermaid reader treats each kind of line. */
module MermaidLaws {
  import opened Wrappers
  import opened Errors
  import opened Json
  import opened Models
  import opened Text
  import opened Mermaid
  import Assoc

  /** A state name the diagram text can carry unchanged: non-empty, trimmed,
      on one line, free of the arrow and of ':', not the sentinel, and not
      read as a declaration or a note. */
  predicate PlainName(n: string) {
    && |n| > 0 && Trimmed(n)
    && '\n' !in n && ':' !in n
    && !Contains(n, Arrow) && n != Sentinel
    && !StartsWith(n, "state") && !StartsWith(n, "note")
  }

  /** A label the diagram text can carry unchanged: trimmed, on one line,
      without ':' or an arrow. */
  predicate PlainLabel(l: string) {
    Trimmed(l) && '\n' !in l && ':' !in l && !Contains(l, Arrow)
  }

  lemma StatePrefix(x: string)
    ensures StartsWith(x, Diagram) ==> StartsWith(x, "state")
  {
    if StartsWith(x, Diagram) {
      assert x[..5] == x[..12][..5];
    }
  }

  /** A line starting with a plain name is none of the keyword lines. */
  lemma NameFirst(n: string, rest: string)
    requires PlainName(n)
    ensures NoKeyword(n + " " + rest)
  {
    NotStartsWithSpaced(n, rest, "state");
    NotStartsWithSpaced(n, rest, "note");
    StatePrefix(n + " " + rest);
  }

  /** A trimmed line that is none of the keyword lines. */
  predicate NoKeyword(line: string) {
    |line| > 0 && !StartsWith(line, Diagram) && !StartsWith(line, "state") && !StartsWith(line, "note")
  }

  /** The reader sees only the trimmed line. */
  lemma StepOf(s: Scan, raw: string, line: string)
    requires Strip(raw) == line
    ensures Step(s, raw) == Dispatch(s, line)
  {
  }

  /** Outside a note, a line that is no keyword line and holds an arrow is
      read as an arrow line. */
  lemma ArrowCase(s: Scan, line: string)
    requires s.note.None? && NoKeyword(line) && Contains(line, Arrow)
    ensures Dispatch(s, line) == StepArrow(s, line)
  {
    assert KindOf(line) == Other;
    assert !Closes(s);
    assert Continue(s, line) == StepArrow(s, line);
  }

  /** What the arrow-line parser returns once the line's two splits are
      known. */
  lemma ParseTransitionLineOf(line: string, p0: string, p1: string, toParts: seq<string>)
    requires Split(line, Arrow) == [p0, p1] && Split(p1, ":") == toParts
    ensures ParseTransitionLine(line) == Ok(ArrowParts(Strip(p0), Strip(toParts[0]),
                                            if |toParts| > 1 then Fragments(Strip(toParts[1])) else []))
  {
  }

  /** Whitespace-only lines are skipped. */
  lemma BlankLineSkipped(s: Scan, raw: string)
    requires AllSpace(raw)
    ensures Step(s, raw) == Ok(s)
  {
    StripBlank(raw);
    SkippedCase(s, "");
  }

  /** Empty lines and lines starting with "stateDiagram" change nothing. */
  lemma SkippedCase(s: Scan, line: string)
    requires |line| == 0 || StartsWith(line, Diagram)
    ensures Dispatch(s, line) == Ok(s)
  {
    assert KindOf(line) == Blank;
  }

  /** A line that starts with "state" but not "stateDiagram" and has two
      quotes declares the name between them, replacing any state of that
      name, even inside a note. */
  lemma DeclarationCase(s: Scan, line: string)
    requires |line| > 0 && !StartsWith(line, Diagram) && StartsWith(line, "state")
    requires |Split(line, "\"")| >= 3
    ensures var x := Split(line, "\"")[1]; Dispatch(s, line) == Ok(s.(states := Assoc.Put(s.states, x, NamedState(x))))
  {
    assert KindOf(line) == Declaration;
  }

  /** A line starting with "note" opens a note with no body; its target is
      the trimmed text after the first "of", or the previous target when
      the line has no "of". */
  lemma NoteStartCase(s: Scan, line: string)
    requires |line| > 0 && !StartsWith(line, "state") && StartsWith(line, "note")
    ensures Dispatch(s, line) == Ok(s.(note := Some([]), target := if Contains(line, "of") then Some(Strip(Split(line, "of")[1])) else s.target))
  {
    StatePrefix(line);
    assert KindOf(line) == NoteStart;
  }

  /** The line "end note", inside a note with a body and a named target,
      sets the target's description to the body lines joined by newlines
      and closes the note. */
  lemma NoteEndCase(s: Scan, line: string)
    requires line == "end note" && NoKeyword(line) && Closes(s)
    ensures Dispatch(s, line) == Ok(Scan(Modify(s.states, s.target.value, Describe(Join(s.note.value, "\n"))), s.transitions, None, None))
  {
    assert KindOf(line) == Other;
    assert Continue(s, line) == Ok(CloseNote(s));
  }

  /** Any other non-keyword line inside a note is collected, trimmed, as a
      body line. */
  lemma NoteBodyCase(s: Scan, line: string)
    requires s.note.Some? && NoKeyword(line)
    requires !Closes(s) || line != "end note"
    ensures Dispatch(s, line) == Ok(s.(note := Some(s.note.value + [line])))
  {
    assert KindOf(line) == Other;
    assert Continue(s, line) == Ok(s.(note := Some(s.note.value + [line])));
  }

  /** Outside a note, a non-keyword line without an arrow is ignored. */
  lemma QuietCase(s: Scan, line: string)
    requires s.note.None? && NoKeyword(line) && !Contains(line, Arrow)
    ensures Dispatch(s, line) == Ok(s)
  {
    assert KindOf(line) == Other;
    assert !Closes(s);
  }

  /** "end note" is no keyword line. */
  lemma EndNoteNoKeyword()
    ensures NoKeyword("end note")
  {
    assert "end note"[0] == 'e';
  }

  /** How a declaration line splits on quotes: the quoted name is the
      second piece. */
  lemma DeclarationSplit(x: string, rest: string)
    requires '"' !in x
    ensures var parts := Split("state \"" + x + "\"" + rest, "\""); |parts| >= 3 && parts[1] == x
  {
    MissingEndChar("state", "\"");
    assert "state \"" + x + "\"" + rest == "state" + [' '] + "\"" + (x + "\"" + rest);
    SplitAfter("state", ' ', "\"", x + "\"" + rest);
    forall k | 0 <= k < |x| ensures !IsAt(x + "\"" + rest, "\"", k) {
      assert (x + "\"" + rest)[k] == x[k];
    }
    SplitAtFirst(x, "\"", rest);
  }

  lemma DeclarationText(x: string, rest: string)
    requires Trimmed(rest)
    ensures var line := "state \"" + x + "\"" + rest;
            && Strip(line) == line && |line| > 0
            && StartsWith(line, "state") && !StartsWith(line, Diagram)
  {
    var p, y := "state \"", x + "\"" + rest;
    var line := p + y;
    assert line == "state \"" + x + "\"" + rest;
    assert Trimmed(line) by {
      assert line[0] == 's';
      if |rest| > 0 {
        assert line[|line| - 1] == rest[|rest| - 1];
      } else {
        assert line[|line| - 1] == '"';
      }
    }
    StripTrimmed(line);
    assert StartsWith(p, "state");
    StartsWithAppend(p, y, "state");
    assert line[5] == p[5] == ' ';
    NotStartsWithAt(line, Diagram, 5);
  }

  /** A line declaring a quoted name makes that name a fresh bare state,
      replacing any state of that name, whatever follows the closing quote
      and even inside a note; it never adds a transition. */
  lemma DeclarationReplaces(s: Scan, x: string, rest: string)
    requires '"' !in x && Trimmed(rest)
    ensures Step(s, "state \"" + x + "\"" + rest) == Ok(s.(states := Assoc.Put(s.states, x, NamedState(x))))
  {
    var line := "state \"" + x + "\"" + rest;
    DeclarationText(x, rest);
    DeclarationSplit(x, rest);
    DeclarationCase(s, line);
    StepOf(s, line, line);
  }

  /** Inside a note with no body yet, the closing line is collected as the
      first body line and the note stays open. */
  lemma EmptyNoteSwallowsEnd(s: Scan, ws1: string, ws2: string)
    requires s.note == Some([]) && AllSpace(ws1) && AllSpace(ws2)
    ensures Step(s, ws1 + "end note" + ws2) == Ok(s.(note := Some(["end note"])))
  {
    StripPadded(ws1, "end note", ws2);
    EndNoteNoKeyword();
    NoteBodyCase(s, "end note");
    StepOf(s, ws1 + "end note" + ws2, "end note");
    assert [] + ["end note"] == ["end note"];
  }

  // ---------------------------------------------------------------------
  // Arrow lines as the writer produces them

  lemma SentinelPlain()
    ensures !Contains(Sentinel, Arrow) && ':' !in Sentinel && Trimmed(Sentinel)
  {
    MissingEndChar(Sentinel, Arrow);
  }

  /** A space before a plain word is all that `strip` removes. */
  lemma StripSpaced(n: string)
    requires |n| > 0 && Trimmed(n)
    ensures Strip(" " + n) == n && Strip(n + " ") == n
  {
    StripPadded(" ", n, "");
    assert " " + n + "" == " " + n;
    StripPadded("", n, " ");
    assert "" + n + " " == n + " ";
  }

  /** The indentation is all that `strip` removes from a written line whose
      text is trimmed. */
  lemma StripIndented(line: string)
    requires |line| > 0 && Trimmed(line)
    ensures Strip(Indent + line) == line
  {
    StripPadded(Indent, line, "");
    assert Indent + line + "" == Indent + line;
  }

  /** The trimmed text of a start line, and how it is read. */
  lemma StartLineText(n: string)
    requires PlainName(n)
    ensures var line := Sentinel + " " + Arrow + " " + n;
            && Strip(InitialLine(n)) == line
            && NoKeyword(line) && Contains(line, Arrow)
  {
    var line := Sentinel + " " + Arrow + " " + n;
    assert line[0] == Sentinel[0] == '[';
    assert Strip(InitialLine(n)) == line by {
      assert InitialLine(n) == Indent + line;
      assert line[|line| - 1] == n[|n| - 1];
      StripIndented(line);
    }
    assert NoKeyword(line) by {
      NotStartsWithAt(line, "state", 0);
      NotStartsWithAt(line, "note", 0);
      StatePrefix(line);
    }
    assert Contains(line, Arrow) by {
      assert line == (Sentinel + " ") + Arrow + (" " + n);
      ContainsMiddle(Sentinel + " ", Arrow, " " + n);
    }
  }

  lemma StartLineParts(n: string)
    requires PlainName(n)
    ensures ParseTransitionLine(Sentinel + " " + Arrow + " " + n) == Ok(ArrowParts(Sentinel, n, []))
  {
    SentinelPlain();
    SplitSpaced(Sentinel, Arrow, n);
    SplitWithout(" " + n, ':');
    StripSpaced(n);
    StripSpaced(Sentinel);
    ParseTransitionLineOf(Sentinel + " " + Arrow + " " + n, Sentinel + " ", " " + n, [" " + n]);
  }

  /** Outside a note, a start line marks its target initial when that state
      exists, and changes nothing else: no state is added and no
      transition. */
  lemma StartLine(s: Scan, n: string)
    requires s.note.None? && PlainName(n)
    ensures Step(s, InitialLine(n)) == Ok(s.(states := Modify(s.states, n, MarkInitial)))
  {
    var line := Sentinel + " " + Arrow + " " + n;
    StartLineText(n);
    StartLineParts(n);
    ArrowCase(s, line);
    StepOf(s, InitialLine(n), line);
  }

  /** The trimmed text of an end line, and how it is read. */
  lemma EndLineText(n: string)
    requires PlainName(n)
    ensures var line := n + " " + Arrow + " " + Sentinel;
            && Strip(TerminalLine(n)) == line
            && NoKeyword(line) && Contains(line, Arrow)
  {
    assert TerminalLine(n) == Indent + (n + " " + Arrow + " " + Sentinel);
    SpacedArrowText(n, Sentinel);
  }

  lemma EndLineParts(n: string)
    requires PlainName(n)
    ensures ParseTransitionLine(n + " " + Arrow + " " + Sentinel) == Ok(ArrowParts(n, Sentinel, []))
  {
    SentinelPlain();
    SplitSpaced(n, Arrow, Sentinel);
    SplitWithout(" " + Sentinel, ':');
    StripSpaced(n);
    StripSpaced(Sentinel);
    ParseTransitionLineOf(n + " " + Arrow + " " + Sentinel, n + " ", " " + Sentinel, [" " + Sentinel]);
  }

  /** Outside a note, an end line marks its source terminal when that state
      exists, and changes nothing else. */
  lemma EndLine(s: Scan, n: string)
    requires s.note.None? && PlainName(n)
    ensures Step(s, TerminalLine(n)) == Ok(s.(states := Modify(s.states, n, MarkTerminal)))
  {
    var line := n + " " + Arrow + " " + Sentinel;
    EndLineText(n);
    EndLineParts(n);
    ArrowCase(s, line);
    StepOf(s, TerminalLine(n), line);
  }
  /** The fragments a written transition reads back with: those of its
      label, or none when the label is empty. */
  function ReadFragments(t: Transition): seq<string> {
    var shown := Label(t);
    if |shown| > 0 then Fragments(shown) else []
  }

  /** A written transition as it reads back: the same endpoints, conditions
      rebuilt from its label, and no actions. */
  function Redrawn(t: Transition): (r: Transition)
    ensures DiagramTransition(r)
  {
    Transition(t.fromState, t.toState, LabelConditions(ReadFragments(t)), [])
  }

  /** A transition the diagram text can carry: plain endpoints and a plain
      label. */
  predicate PlainTransition(t: Transition) {
    PlainName(t.fromState) && PlainName(t.toState) && PlainLabel(Label(t))
  }

  /** What follows the arrow and its space on a written arrow line. */
  function Tail(t: Transition): string {
    t.toState + LabelSuffix(Label(t))
  }

  lemma TailSplits(t: Transition)
    requires PlainTransition(t)
    ensures !Contains(Tail(t), Arrow)
    ensures |Label(t)| > 0 ==> Split(" " + Tail(t), ":") == [" " + t.toState, " " + Label(t)]
    ensures |Label(t)| == 0 ==> Split(" " + Tail(t), ":") == [" " + t.toState]
  {
    var b, l := t.toState, Label(t);
    if |l| > 0 {
      assert " " + l == [] + [' '] + l;
      NoSepAround([], ' ', l, Arrow);
      assert Tail(t) == b + [':'] + (" " + l);
      NoSepAround(b, ':', " " + l, Arrow);
      assert " " + Tail(t) == (" " + b) + [':'] + (" " + l);
      SplitOnce(" " + b, ':', " " + l);
    } else {
      assert Tail(t) == b;
      SplitWithout(" " + b, ':');
    }
  }

  /** The trimmed text of an indented arrow line from a plain name. */
  lemma SpacedArrowText(a: string, tail: string)
    requires PlainName(a) && |tail| > 0 && !IsSpace(tail[|tail| - 1])
    ensures var line := a + " " + Arrow + " " + tail;
            && Trimmed(line) && Strip(Indent + line) == line
            && NoKeyword(line) && Contains(line, Arrow)
  {
    SpacedArrowTrim(a, tail);
    Regroup(a, " ", Arrow, " ", tail);
    NameFirst(a, Arrow + " " + tail);
    ContainsMiddle(a + " ", Arrow, " " + tail);
  }

  lemma SpacedArrowTrim(a: string, tail: string)
    requires |a| > 0 && !IsSpace(a[0]) && |tail| > 0 && !IsSpace(tail[|tail| - 1])
    ensures Trimmed(a + " " + Arrow + " " + tail)
    ensures Strip(Indent + (a + " " + Arrow + " " + tail)) == a + " " + Arrow + " " + tail
  {
    var line := a + " " + Arrow + " " + tail;
    assert line[0] == a[0] && line[|line| - 1] == tail[|tail| - 1];
    StripIndented(line);
  }

  lemma ArrowLineText(t: Transition)
    requires PlainTransition(t)
    ensures var line := t.fromState + " " + Arrow + " " + Tail(t);
            && Strip(ArrowLine(t)) == line
            && NoKeyword(line) && Contains(line, Arrow)
  {
    var tail := Tail(t);
    assert ArrowLine(t) == Indent + (t.fromState + " " + Arrow + " " + tail);
    assert |tail| > 0 && tail[|tail| - 1] == if |Label(t)| > 0 then Label(t)[|Label(t)| - 1] else t.toState[|t.toState| - 1];
    SpacedArrowText(t.fromState, tail);
  }

  lemma ArrowLineParts(t: Transition)
    requires PlainTransition(t)
    ensures ParseTransitionLine(t.fromState + " " + Arrow + " " + Tail(t)) == Ok(ArrowParts(t.fromState, t.toState, ReadFragments(t)))
  {
    var a, tail := t.fromState, Tail(t);
    var line := a + " " + Arrow + " " + tail;
    TailSplits(t);
    SplitSpaced(a, Arrow, tail);
    StripSpaced(a);
    StripSpaced(t.toState);
    if |Label(t)| > 0 {
      StripSpaced(Label(t));
      ParseTransitionLineOf(line, a + " ", " " + tail, [" " + t.toState, " " + Label(t)]);
    } else {
      ParseTransitionLineOf(line, a + " ", " " + tail, [" " + t.toState]);
    }
  }

  /** Outside a note, a written arrow line between two plain names appends
      one transition, rebuilt from its label, and adds any missing endpoint
      as a bare state. */
  lemma ArrowLineRead(s: Scan, t: Transition)
    requires s.note.None? && PlainTransition(t)
    ensures Step(s, ArrowLine(t)) == Ok(s.(states := EnsureState(EnsureState(s.states, t.fromState), t.toState),
                                           transitions := s.transitions + [Redrawn(t)]))
  {
    var line := t.fromState + " " + Arrow + " " + Tail(t);
    ArrowLineText(t);
    ArrowLineParts(t);
    ArrowCase(s, line);
    StepOf(s, ArrowLine(t), line);
  }
  /** Outside a note, a trimmed arrow line that does not split into two
      sides is rejected, naming the line. */
  lemma RejectedCase(s: Scan, line: string)
    requires s.note.None? && Trimmed(line) && NoKeyword(line) && Contains(line, Arrow)
    requires |Split(line, Arrow)| != 2
    ensures Step(s, line) == Err(InvalidLine(line))
  {
    StripTrimmed(line);
    ArrowCase(s, line);
    StepOf(s, line, line);
  }

  /** Outside a note, a line with two arrows is rejected, naming the line. */
  lemma TwoArrowsRejected(s: Scan, a: string, b: string, c: string)
    requires s.note.None? && PlainName(a) && PlainName(b) && PlainName(c)
    ensures var line := a + " " + Arrow + " " + (b + " " + Arrow + " " + c);
            Step(s, line) == Err(InvalidLine(line))
  {
    var tail := b + " " + Arrow + " " + c;
    var line := a + " " + Arrow + " " + tail;
    assert Trimmed(line) && NoKeyword(line) && Contains(line, Arrow) by {
      assert tail[|tail| - 1] == c[|c| - 1];
      SpacedArrowText(a, tail);
    }
    assert |Split(line, Arrow)| != 2 by {
      SplitTwice(a, Arrow, b, c);
    }
    RejectedCase(s, line);
  }
}
