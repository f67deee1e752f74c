/** The table from format tag to its parser and serializer. Each parser
    reads its own kind of content and reports its own faults as parser
    errors; the diagram serializer writes text, the other two a JSON tree. */
module Parsers {
  import opened Wrappers
  import opened Errors
  import opened Json
  import opened Models
  import Assoc
  import Mermaid
  import MermaidLaws
  import MermaidReparse
  import MermaidRoundTrip
  import FreshService
  import FreshServiceLaws
  import Jsm
  import JsmLaws

  /** Reads content with the parser registered for `t`. */
  function ParseAs(t: AutomationType, content: Content): (r: Result<UnifiedWorkflow, Error>)
    ensures r.Err? ==> r.error.ParserError?
    ensures r.Ok? ==> WellKeyed(r.value) && r.value.metadata == SourceMetadata(t)
  {
    match t
    case FreshService => FreshService.Parse(content)
    case Jsm => Jsm.Parse(content)
    case Mermaid => Mermaid.Parse(content)
  }

  /** Writes a workflow with the serializer registered for `t`. Only the
      JSM serializer can fail, and only on a state without properties. */
  function SerializeAs(t: AutomationType, w: UnifiedWorkflow): (r: Result<Content, Error>)
    ensures r.Ok? ==> (r.value.Text? <==> t == Mermaid)
    ensures r.Err? <==> t == Jsm && exists i :: 0 <= i < |w.states| && w.states[i].1.properties.None?
    ensures r.Err? ==> r.error == Jsm.NoProperties
  {
    match t
    case FreshService => Ok(Tree(FreshService.Serialize(w)))
    case Jsm =>
      var tree :- Jsm.Serialize(w);
      Ok(Tree(tree))
    case Mermaid => Ok(Text(Mermaid.Serialize(w)))
  }

  /** The diagram parser rejects a JSON tree, and the two JSON parsers
      reject text: each reads only what its own serializer writes. */
  lemma WrongContentRejected(t: AutomationType, content: Content)
    requires content.Text? <==> t != Mermaid
    ensures ParseAs(t, content).Err?
  {
  }

  /** Every state the diagram parser creates lacks properties, so a parsed
      diagram can be written as JSM only when it has no state at all. */
  lemma DiagramAsJsm(x: Content, w: UnifiedWorkflow)
    requires Mermaid.Parse(x) == Ok(w)
    ensures SerializeAs(Jsm, w).Ok? <==> |w.states| == 0
    ensures |w.states| > 0 ==> SerializeAs(Jsm, w) == Err(Jsm.NoProperties)
  {
    if |w.states| > 0 {
      assert w.states[0].1.properties.None?;
    }
  }

  /** The transitions of `v` have the count, order and endpoints of those
      of `w`. */
  predicate SameEndpoints(v: UnifiedWorkflow, w: UnifiedWorkflow) {
    && |v.transitions| == |w.transitions|
    && forall i :: 0 <= i < |w.transitions| ==>
         && v.transitions[i].fromState == w.transitions[i].fromState
         && v.transitions[i].toState == w.transitions[i].toState
  }

  /** Serializing a parsed workflow in its own format and parsing the
      result again never fails. The two JSON formats keep the state keys,
      in order, and the transitions; the diagram format keeps the number,
      order and endpoints of the transitions, provided its text can carry
      the names and labels. */
  lemma ReparseSameFormat(t: AutomationType, x: Content, w: UnifiedWorkflow)
    requires ParseAs(t, x) == Ok(w)
    requires t == FreshService ==> x.Tree? && DistinctKeys(x.tree)
    requires t == Mermaid ==> MermaidReparse.PlainWorkflow(w)
    ensures SerializeAs(t, w).Ok?
    ensures ParseAs(t, SerializeAs(t, w).value).Ok?
    ensures t != Mermaid ==> && Assoc.Keys(ParseAs(t, SerializeAs(t, w).value).value.states) == Assoc.Keys(w.states)
                             && ParseAs(t, SerializeAs(t, w).value).value.transitions == w.transitions
    ensures SameEndpoints(ParseAs(t, SerializeAs(t, w).value).value, w)
  {
    match t
    case FreshService => ReparseFreshService(x, w);
    case Jsm => JsmLaws.RoundTrip(x, w);
    case Mermaid => ReparseMermaid(w);
  }

  lemma ReparseFreshService(x: Content, w: UnifiedWorkflow)
    requires FreshService.Parse(x) == Ok(w) && x.Tree? && DistinctKeys(x.tree)
    ensures SerializeAs(FreshService, w) == Ok(Tree(FreshService.Serialize(w)))
    ensures && FreshService.Parse(Tree(FreshService.Serialize(w))).Ok?
            && Assoc.Keys(FreshService.Parse(Tree(FreshService.Serialize(w))).value.states) == Assoc.Keys(w.states)
            && FreshService.Parse(Tree(FreshService.Serialize(w))).value.transitions == w.transitions
  {
    FreshServiceLaws.Reparse(x.tree, w);
    var m := FreshServiceLaws.RereadStates(w.states);
    assert Assoc.Keys(m) == Assoc.Keys(w.states);
  }

  lemma ReparseMermaid(w: UnifiedWorkflow)
    requires MermaidReparse.PlainWorkflow(w)
    ensures SerializeAs(Mermaid, w) == Ok(Text(Mermaid.Serialize(w)))
    ensures Mermaid.Parse(Text(Mermaid.Serialize(w))) == Ok(MermaidRoundTrip.Reread(w))
    ensures SameEndpoints(MermaidRoundTrip.Reread(w), w)
  {
    MermaidRoundTrip.RoundTrip(w);
  }
}
