/** The unified, format-independent workflow every parser produces and
    every serializer consumes. */
module Models {
  import opened Wrappers
  import opened Json
  import Assoc

  /** The three supported formats. */
  datatype AutomationType = FreshService | Jsm | Mermaid

  /** The enumeration value of each format tag. */
  function TagValue(t: AutomationType): string {
    match t
    case FreshService => "freshservice"
    case Jsm => "jsm"
    case Mermaid => "mermaid"
  }

  /** Looking a tag up by its value, as `AutomationType(value)` does. */
  function TagOf(value: string): (r: Option<AutomationType>)
    ensures r.Some? ==> TagValue(r.value) == value
    ensures r.None? ==> forall t :: TagValue(t) != value
  {
    if value == "freshservice" then Some(FreshService)
    else if value == "jsm" then Some(Jsm)
    else if value == "mermaid" then Some(Mermaid)
    else None
  }

  /** The format vocabulary is exactly the three tag values, and each tag
      is recovered from its value. */
  lemma TagVocabulary(t: AutomationType, value: string)
    ensures TagOf(TagValue(t)) == Some(t)
    ensures TagOf(value).Some? <==> value in {"freshservice", "jsm", "mermaid"}
  {
  }

  /** One predicate guarding a transition. */
  datatype Condition = Condition(field: string, operator: string, value: Json)

  /** One effect run when a transition fires. */
  datatype Action = Action(actionType: string, parameters: Json)

  /** A directed edge between two state names, guarded by the conjunction
      of its conditions, running its actions in order. */
  datatype Transition = Transition(
    fromState: string,
    toState: string,
    conditions: seq<Condition>,
    actions: seq<Action>)

  datatype WorkflowState = WorkflowState(
    name: string,
    description: Option<string>,
    isInitial: bool,
    isTerminal: bool,
    properties: Option<Members>)

  /** A state built from its name alone, with every other field at its
      dataclass default. */
  function NamedState(name: string): WorkflowState {
    WorkflowState(name, None, false, false, None)
  }

  /** States keyed by name, in insertion order. */
  type StateMap = seq<(string, WorkflowState)>

  datatype UnifiedWorkflow = UnifiedWorkflow(
    states: StateMap,
    transitions: seq<Transition>,
    metadata: Members)

  /** What a parser reads and a serializer writes: text for the diagram
      format, a JSON tree for the other two. */
  datatype Content = Text(text: string) | Tree(tree: Json)

  /** The shape every parser builds: each key appears once, and each state
      is stored under its own name. */
  predicate KeyedStates(m: StateMap) {
    && Assoc.UniqueKeys(m)
    && forall i :: 0 <= i < |m| ==> m[i].1.name == m[i].0
  }

  predicate WellKeyed(w: UnifiedWorkflow) {
    KeyedStates(w.states)
  }

  /** A state map built by assigning pairs that each carry their own name
      is keyed by name. */
  lemma OverlayKeyed(base: StateMap, extra: StateMap)
    requires KeyedStates(base)
    requires forall p :: p in extra ==> p.1.name == p.0
    ensures KeyedStates(Assoc.Overlay(base, extra))
  {
    Assoc.OverlayKeys(base, extra);
    Assoc.OverlayPairs(base, extra);
    var m := Assoc.Overlay(base, extra);
    forall i | 0 <= i < |m| ensures m[i].1.name == m[i].0 {
      assert m[i] in m;
    }
  }

  predicate IsState(w: UnifiedWorkflow, name: string) {
    Assoc.HasKey(w.states, name)
  }

  /** The metadata a parser records: the format it read. */
  function SourceMetadata(t: AutomationType): Members {
    [("source", JStr(TagValue(t)))]
  }
}
