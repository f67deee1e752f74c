/** The transpiler the library exports: look both format tags up, parse,
    optionally validate, serialize. Every failure inside, parser and
    validation errors included, comes out as a transpiler error. */
module Transpile {
  import opened Wrappers
  import opened Errors
  import opened Models
  import opened Parsers
  import Validation
  import Mermaid
  import MermaidReparse
  import MermaidRoundTrip
  import Jsm
  import Text

  /** A format argument as the caller passes it: one of the enumeration's
      members, or any other string. The table is keyed by the members, so
      a bare string is never found, even one spelling a tag value. */
  datatype FormatKey = Tag(tag: AutomationType) | Other(raw: string)

  const UnsupportedPrefix := "Unsupported format type: "
  const WrapPrefix := "Error during transpilation: "

  /** The failed lookup of a string key: a `KeyError` prints its key as
      Python's `repr` does, quoted and escaped. */
  function Unsupported(raw: string): Error {
    TranspilerError(UnsupportedPrefix + Text.Repr(raw))
  }

  /** A failure caught inside the transpiler, reported by its message. */
  function Wrapped(e: Error): Error {
    TranspilerError(WrapPrefix + e.message)
  }

  /** Finds the parser for a format argument. */
  function Lookup(key: FormatKey): (r: Result<AutomationType, Error>)
    ensures r.Ok? <==> key.Tag?
    ensures r.Ok? ==> r.value == key.tag
    ensures r.Err? ==> r.error == Unsupported(key.raw)
  {
    match key
    case Tag(t) => Ok(t)
    case Other(raw) => Err(Unsupported(raw))
  }

  /** The validator the transpiler delegates to. */
  function Validate(w: UnifiedWorkflow): (r: Outcome<Error>)
    requires WellKeyed(w)
    ensures r.Pass? <==> Validation.WellFormed(w)
    ensures r.Fail? ==> r.error.ValidationError?
  {
    Validation.ValidateWorkflow(w)
  }

  /** The parsed workflow, validated when asked. */
  function Checked(t: AutomationType, content: Content, validate: bool): (r: Result<UnifiedWorkflow, Error>)
    ensures r.Ok? <==> ParseAs(t, content).Ok? && (validate ==> Validation.WellFormed(ParseAs(t, content).value))
    ensures r.Ok? ==> r.value == ParseAs(t, content).value
    ensures r.Err? ==> r.error.ParserError? || r.error.ValidationError?
  {
    var w :- ParseAs(t, content);
    if validate then
      :- Validate(w);
      Ok(w)
    else Ok(w)
  }

  /** Converts content from one format to another. Both arguments are
      looked up before anything is read; on success the result is the
      target serializer's output for the parsed workflow. */
  function Transpile(content: Content, from: FormatKey, to: FormatKey, validate: bool): (r: Result<Content, Error>)
    ensures from.Other? ==> r == Err(Unsupported(from.raw))
    ensures from.Tag? && to.Other? ==> r == Err(Unsupported(to.raw))
    ensures r.Err? ==> r.error.TranspilerError?
    ensures r.Ok? <==> && from.Tag? && to.Tag?
                       && Checked(from.tag, content, validate).Ok?
                       && SerializeAs(to.tag, Checked(from.tag, content, validate).value).Ok?
    ensures r.Ok? ==> r == SerializeAs(to.tag, ParseAs(from.tag, content).value)
  {
    var source :- Lookup(from);
    var target :- Lookup(to);
    match Checked(source, content, validate)
    case Err(e) => Err(Wrapped(e))
    case Ok(w) =>
      match SerializeAs(target, w)
      case Err(e) => Err(Wrapped(e))
      case Ok(out) => Ok(out)
  }

  /** With both tags known, each failure is the first one met, wrapped:
      the parser's, then the validator's, then the serializer's. */
  lemma TranspileFailure(content: Content, source: AutomationType, target: AutomationType, validate: bool)
    ensures ParseAs(source, content).Err? ==>
              Transpile(content, Tag(source), Tag(target), validate) == Err(Wrapped(ParseAs(source, content).error))
    ensures ParseAs(source, content).Ok? && validate && Validate(ParseAs(source, content).value).Fail? ==>
              Transpile(content, Tag(source), Tag(target), validate) == Err(Wrapped(Validate(ParseAs(source, content).value).error))
    ensures && ParseAs(source, content).Ok? && (validate ==> Validate(ParseAs(source, content).value).Pass?)
            && SerializeAs(target, ParseAs(source, content).value).Err? ==>
              Transpile(content, Tag(source), Tag(target), validate) == Err(Wrapped(Jsm.NoProperties))
  {
  }

  /** Without validation, a workflow the validator rejects is still
      converted. */
  lemma UnvalidatedStillConverts(content: Content, source: AutomationType, target: AutomationType)
    requires ParseAs(source, content).Ok? && SerializeAs(target, ParseAs(source, content).value).Ok?
    ensures Transpile(content, Tag(source), Tag(target), false).Ok?
  {
  }

  /** A tag's value passed as a plain string is not a key of the table. */
  lemma BareValueUnsupported(content: Content, t: AutomationType, to: FormatKey, validate: bool)
    ensures Transpile(content, Other(TagValue(t)), to, validate) == Err(Unsupported(TagValue(t)))
  {
  }

  /** A diagram written from a workflow with transitions cannot be
      converted onward with validation on: read back, it has no initial
      state. Without transitions it has no state at all. */
  lemma WrittenDiagramRejected(w: UnifiedWorkflow, target: AutomationType)
    requires MermaidReparse.PlainWorkflow(w)
    ensures Transpile(Text(Mermaid.Serialize(w)), Tag(Mermaid), Tag(target), true)
            == Err(Wrapped(ValidationError(if |w.transitions| == 0 then Validation.NoStatesMessage else Validation.NoInitialMessage)))
  {
    var back := MermaidRoundTrip.Reread(w);
    var e := ValidationError(if |w.transitions| == 0 then Validation.NoStatesMessage else Validation.NoInitialMessage);
    assert ParseAs(Mermaid, Text(Mermaid.Serialize(w))) == Ok(back) by {
      MermaidRoundTrip.RoundTrip(w);
    }
    assert WellKeyed(back) && Validate(back) == Fail(e) by {
      MermaidRoundTrip.RoundTripFailsValidation(w);
    }
    assert Checked(Mermaid, Text(Mermaid.Serialize(w)), true) == Err(e);
  }
}
