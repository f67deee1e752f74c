# aloof-union workflow transpiler — a Dafny model

aloof-union converts automation workflows between three formats: Fresh
Service (a JSON object with a `states` object and a `transitions` list),
Jira Service Management (a JSON object with `statuses` and `rules` lists) and
Mermaid state diagrams (text). Every parser reads its format into one
unified workflow — named states with a description, initial and terminal
flags and a free-form property bag, plus transitions with conditions and
actions — and every serializer writes a unified workflow back out. A
validator checks a unified workflow against five rules (states and a
single initial state, known transition endpoints, reachability from the
initial state, no exit from a terminal state, no two conditions of a
transition on the same field and operator). Two transpilers glue the
pieces together: the exported one in `core/transpilers/workflow.py`, which
wraps every inner failure as a transpiler error, and the older one in
`core/transpiler.py`, with its own, weaker validation, which lets parser and
validation errors through unchanged.

The model is a set of Dafny modules that follow the program's structure:

| module | models |
|---|---|
| `Errors` | the three error kinds, each carrying its message |
| `Models` | the format tags and the unified workflow records |
| `Json`, `Assoc`, `Fields` | JSON values, Python dictionaries as ordered association lists with unique keys, and the `dict.get` idioms the parsers use |
| `Text` | Python's `strip`, `split`, `join`, `startswith` and `repr` on strings |
| `Validation`, `Reachability` | the five validation rules and the depth-first search |
| `FreshService`, `FreshServiceLaws` | the Fresh Service parser and serializer, and what survives writing and reading back |
| `Jsm`, `JsmLaws` | the same for JSM |
| `Mermaid`, `MermaidLaws`, `MermaidReparse`, `MermaidRoundTrip` | the diagram reader as a line-by-line state machine, the writer, how each written line reads back, and what a whole diagram reads back as |
| `Parsers` | the table from format tag to parser and serializer |
| `Transpile`, `LegacyTranspiler` | the exported transpiler and the older one |

Python dictionaries keep insertion order, so a state map is a sequence of
`(name, state)` pairs with unique keys; assigning an existing key replaces
its value in place and a new key is appended. A raised exception is an
`Err` (or a `Fail` outcome for a check that returns nothing) carrying the
exception's kind and message. Input that Python would choke on in some way
other than a missing key (a list where an object belongs, a number where a
string belongs) gives one fixed parser error per parser.

Where the docstrings and the code disagree, the model follows the code: the exported transpiler turns a validation error into a transpiler
error ("Error during transpilation: …") although its docstring
(`core/transpilers/workflow.py`, lines 56-58) says a validation error
propagates; `Transpile.TranspileFailure` and
`Transpile.WrittenDiagramRejected` state the wrapped form.

## Model

| member | source | states |
|---|---|---|
| Models.TagOf | src/aloof_union/core/models.py:7-10 | the tag whose value is the given string, and none when no tag has that value |
| Models.TagVocabulary | src/aloof_union/core/models.py:7-10 | every tag is found by its value, and exactly the three strings "freshservice", "jsm" and "mermaid" name a tag |
| Models.OverlayKeyed | src/aloof_union/core/parsers/freshservice.py:22-29 | assigning states that each carry their own name keeps a state map keyed by name |
| Json.FalsyValues | src/aloof_union/core/transpilers/validation.py:18 | a JSON value is false in a condition exactly when it is null, false, 0, or the empty string, object or list |
| Json.Iterate | src/aloof_union/core/parsers/freshservice.py:32-41 | a `for` loop walks the items of a list, the keys of an object or the characters of a string, as many as there are, and is refused on any other value |
| Assoc.Put | src/aloof_union/core/parsers/freshservice.py:23 | assigning a key makes it map to the new value and leaves every other key as it was; an existing key keeps its place, a new one is appended |
| Assoc.OverlayGet | src/aloof_union/core/parsers/freshservice.py:63-67 | in a dictionary built as `{**base, **extra}`, `extra` having no repeated key, a key of `extra` has its value from `extra` and any other key its value from `base` |
| Assoc.OverlayKeys | src/aloof_union/core/parsers/freshservice.py:63-67 | the keys of `{**base, **extra}` are those of both, none repeated |
| Text.Strip | src/aloof_union/core/parsers/mermaid.py:50 | the stripped text has no whitespace at either end |
| Text.StripInfix | src/aloof_union/core/parsers/mermaid.py:50 | the stripped text is a piece of the input with only whitespace before and after it |
| Text.StripPadded | src/aloof_union/core/parsers/mermaid.py:50 | stripping whitespace around a trimmed non-empty text gives that text back |
| Text.Split | src/aloof_union/core/parsers/mermaid.py:20-22 | the pieces joined with the separator give the input back, no piece contains the separator, and there is one piece exactly when the input does not contain it |
| Text.SplitAtFirst | src/aloof_union/core/parsers/mermaid.py:27 | the input is cut at the first occurrence of the separator |
| Text.Repr | src/aloof_union/core/transpilers/workflow.py:75-76 | a key is printed between the quotes `repr` chooses, and the printed form, read back as a Python string literal, gives the key again |
| Text.EscapeAllReadsBack | src/aloof_union/core/transpilers/workflow.py:75-76 | the escaped text inside the quotes reads back as the original text |
| Text.ReprPlain | src/aloof_union/core/transpilers/workflow.py:75-76 | printable text without a backslash or single quote is printed between single quotes unchanged |
| Text.ReprApostrophe | src/aloof_union/core/transpilers/workflow.py:75-76 | a key holding a single quote and no double quote is printed between double quotes: `it's` as `"it's"` |
| Wrappers.MapResult | src/aloof_union/core/parsers/freshservice.py:32-50 | building a list item by item succeeds exactly when every item does, giving the items' results in order; otherwise the first failure is reported |
| Validation.InitialNames | src/aloof_union/core/transpilers/validation.py:18 | the initial states' names in map order: empty exactly when no state is initial, a single name exactly when one state is, and first the first initial state |
| Validation.ValidateStates | src/aloof_union/core/transpilers/validation.py:12-22 | passes exactly when there is a state and exactly one initial state; otherwise the no-state, no-initial or multiple-initial message, in that priority |
| Validation.ValidateTransitions | src/aloof_union/core/transpilers/validation.py:25-38 | passes exactly when every endpoint is a state; otherwise names the first transition with an unknown endpoint, its source checked before its target |
| Validation.Unvisited | src/aloof_union/core/transpilers/validation.py:64 | exactly the keys not visited |
| Validation.ValidateReachability | src/aloof_union/core/transpilers/validation.py:41-68 | does nothing without an initial state; otherwise passes exactly when every state is reachable from the first initial state, and the message lists exactly the unreachable states |
| Reachability.Successors | src/aloof_union/core/transpilers/validation.py:48-50 | a state's adjacency list holds exactly the targets of its outgoing transitions |
| Reachability.Explore | src/aloof_union/core/transpilers/validation.py:53-61 | the search visits every state on its stack, stays within the states and leaves a set closed under transitions |
| Reachability.ExploreWithin | src/aloof_union/core/transpilers/validation.py:53-61 | the search never leaves a closed set holding its start |
| Reachability.ClosedContainsReachable | src/aloof_union/core/transpilers/validation.py:53-61 | a set closed under transitions holds the end of every path starting in it |
| Reachability.VisitedIsReachable | src/aloof_union/core/transpilers/validation.py:53-61 | the search from a state visits exactly the states reachable from it |
| Validation.ValidateTerminalStates | src/aloof_union/core/transpilers/validation.py:71-80 | passes exactly when no transition leaves a terminal state; otherwise names the first transition that does |
| Validation.FirstRepeatFrom | src/aloof_union/core/transpilers/validation.py:86-95 | the first condition whose field and operator an earlier one of the same transition already had, or none |
| Validation.DistinctIffNoRepeat | src/aloof_union/core/transpilers/validation.py:86-95 | a transition's conditions are pairwise distinct on field and operator exactly when none repeats an earlier one |
| Validation.ValidateConditions | src/aloof_union/core/transpilers/validation.py:83-95 | passes exactly when no transition has two conditions on one field and operator; otherwise names the first repeat of the first such transition |
| Validation.ValidateWorkflow | src/aloof_union/core/transpilers/validation.py:97-111 | passes exactly when all five rules hold; otherwise reports the first rule that fails, in the order states, transitions, reachability, terminal states, conditions |
| Validation.SoleInitialIsFirst | src/aloof_union/core/transpilers/validation.py:53-61 | with one initial state, the search starts from it, so reachability means reachability from that state |
| Fields.StringField | src/aloof_union/core/parsers/freshservice.py:34 | a missing key gives the default, a string value gives that string, any other value is ill-shaped |
| Fields.OptionalString | src/aloof_union/core/parsers/freshservice.py:25 | a missing key and null both give no description, a string gives that string |
| Fields.OptionalJson | src/aloof_union/core/parsers/freshservice.py:64 | an absent description is written as null and reads back as absent |
| Fields.Flag | src/aloof_union/core/parsers/freshservice.py:26-27 | a missing flag is false and a boolean flag is its value |
| FreshService.ParseState | src/aloof_union/core/parsers/freshservice.py:22-29 | a state object becomes a state with that name, its description and flags, and the whole object as its properties |
| FreshService.ParseStateEntry | src/aloof_union/core/parsers/freshservice.py:22-29 | a state is stored under its own name |
| FreshService.ParseCondition | src/aloof_union/core/parsers/freshservice.py:33-36 | field and operator default to the empty string and the value to null |
| FreshService.ParseAction | src/aloof_union/core/parsers/freshservice.py:38-41 | the type defaults to the empty string and the parameters to an empty object |
| FreshService.ParseTransition | src/aloof_union/core/parsers/freshservice.py:32-50 | a transition without "from_state" or "to_state" is rejected with the missing key; otherwise it carries those endpoints, and absent condition or action lists read as empty |
| FreshService.ReadStates | src/aloof_union/core/parsers/freshservice.py:22-29 | a document without "states" fails with that missing key; the result is keyed by state name |
| FreshService.ReadTransitions | src/aloof_union/core/parsers/freshservice.py:32-50 | a document without "transitions" fails with that missing key |
| FreshService.Parse | src/aloof_union/core/parsers/freshservice.py:16-57 | succeeds exactly when both sections read; every failure is a parser error; the result is keyed by name and tagged with its source |
| FreshService.Serialize | src/aloof_union/core/parsers/freshservice.py:59-88 | never fails and writes exactly a "states" and a "transitions" member |
| FreshServiceLaws.ConditionRoundTrip | src/aloof_union/core/parsers/freshservice.py:76 | a written condition reads back unchanged |
| FreshServiceLaws.ActionRoundTrip | src/aloof_union/core/parsers/freshservice.py:80 | a written action reads back unchanged |
| FreshServiceLaws.TransitionRoundTrip | src/aloof_union/core/parsers/freshservice.py:72-83 | a written transition reads back unchanged |
| FreshServiceLaws.TransitionsRoundTrip | src/aloof_union/core/parsers/freshservice.py:71-85 | the written transition list reads back unchanged |
| FreshServiceLaws.SerializedMembers | src/aloof_union/core/parsers/freshservice.py:61-86 | the written document holds the written states and transitions under their keys |
| FreshServiceLaws.ParsedStates | src/aloof_union/core/parsers/freshservice.py:22-29 | the parsed states have the input's keys in order, and each is the parse of its input object |
| FreshServiceLaws.StateRoundTrip | src/aloof_union/core/parsers/freshservice.py:62-69 | a parsed state, written and read again, keeps its name, description and flags and gets its written object as properties |
| FreshServiceLaws.BareStateWritten | src/aloof_union/core/parsers/freshservice.py:63-67 | a state without properties is written as exactly its description and two flags, and reads back with those |
| FreshServiceLaws.StateEntryKeeps | src/aloof_union/core/parsers/freshservice.py:63-67 | a written state object holds every stored property unchanged, and adds only the description and the two flags |
| FreshServiceLaws.SerializeKeepsStateObjects | src/aloof_union/core/parsers/freshservice.py:59-70 | writing a parsed workflow gives each state its input object back, plus only the description and flags it lacked |
| FreshServiceLaws.RereadStates | src/aloof_union/core/parsers/freshservice.py:62-69 | the states as they read back: same keys, each state's properties replaced by its written object |
| FreshServiceLaws.ReadWrittenStates | src/aloof_union/core/parsers/freshservice.py:22-29 | the written states section reads back as those states |
| FreshServiceLaws.Reparse | src/aloof_union/core/parsers/freshservice.py:16-88 | writing a parsed workflow and parsing the result gives the same state keys, the same transitions and the same metadata |
| Jsm.ParseStatus | src/aloof_union/core/parsers/jsm.py:22-35 | a status without a name is rejected with that missing key; otherwise it is stored under its name, terminal exactly when its category is "DONE" |
| Jsm.ParseCondition | src/aloof_union/core/parsers/jsm.py:40-47 | the field is the name inside the nested field object, defaults as for the other format |
| Jsm.ParseAction | src/aloof_union/core/parsers/jsm.py:50-56 | the parameters come from "configuration" |
| Jsm.ParseRule | src/aloof_union/core/parsers/jsm.py:38-65 | a rule without "fromStatus" or "toStatus" is rejected; otherwise it carries those endpoints, and absent conditions or post-functions read as empty |
| Jsm.ReadStatuses | src/aloof_union/core/parsers/jsm.py:22-35 | an absent statuses list gives no states; the result is keyed by name |
| Jsm.StatusesNamed | src/aloof_union/core/parsers/jsm.py:29 | statuses assigned by name give a map keyed by name |
| Jsm.ReadRules | src/aloof_union/core/parsers/jsm.py:38-65 | an absent rules list gives no transitions |
| Jsm.Parse | src/aloof_union/core/parsers/jsm.py:16-72 | succeeds exactly when both lists read; every failure is a parser error; the result is keyed by name and tagged with its source |
| Jsm.StatusJson | src/aloof_union/core/parsers/jsm.py:77-89 | writing a state fails exactly when it has no properties, with the error Python reports for reading a key of `None` |
| Jsm.Serialize | src/aloof_union/core/parsers/jsm.py:74-111 | succeeds exactly when every state has properties, writing one status per state in order and one rule per transition |
| JsmLaws.ConditionRoundTrip | src/aloof_union/core/parsers/jsm.py:40-47 | a written condition reads back unchanged |
| JsmLaws.ActionRoundTrip | src/aloof_union/core/parsers/jsm.py:50-56 | a written action reads back unchanged |
| JsmLaws.RuleRoundTrip | src/aloof_union/core/parsers/jsm.py:90-108 | a written rule reads back as the same transition |
| JsmLaws.RulesRoundTrip | src/aloof_union/core/parsers/jsm.py:38-65 | the written rule list reads back unchanged |
| JsmLaws.StatusFields | src/aloof_union/core/parsers/jsm.py:80-86 | a written status holds the name, description, initial flag and the three stored properties under their JSM keys |
| JsmLaws.StatusRoundTrip | src/aloof_union/core/parsers/jsm.py:22-35 | a parsed status, written and read again, is the same named state |
| JsmLaws.EachStatusReadsBack | src/aloof_union/core/parsers/jsm.py:77-89 | every state of a parsed workflow can be written and reads back as itself |
| JsmLaws.ParsedStatesHaveProperties | src/aloof_union/core/parsers/jsm.py:23-27 | every state a JSM document yields has properties |
| JsmLaws.ReadWrittenStatuses | src/aloof_union/core/parsers/jsm.py:22-35 | the written statuses read back as the same state map |
| JsmLaws.ReadWrittenRules | src/aloof_union/core/parsers/jsm.py:38-65 | the written rules read back as the same transitions |
| JsmLaws.RoundTrip | src/aloof_union/core/parsers/jsm.py:16-111 | a parsed JSM workflow can be written, and reads back as exactly the same workflow |
| JsmLaws.SerializeIgnoresTerminal | src/aloof_union/core/parsers/jsm.py:77-89 | the written document does not depend on a state's terminal flag; only its stored category says "DONE" |
| Mermaid.Fragments | src/aloof_union/core/parsers/mermaid.py:33-34 | a label is split on "&&" into trimmed pieces, a label without "&&" being one piece |
| Mermaid.ParseTransitionLine | src/aloof_union/core/parsers/mermaid.py:16-39 | a line that does not split into two sides is rejected with the invalid-line message; sides and label pieces come out trimmed |
| Mermaid.Modify | src/aloof_union/core/parsers/mermaid.py:66-68 | updating a state by name leaves a map without it unchanged and changes nothing but that state |
| Mermaid.EnsureState | src/aloof_union/core/parsers/mermaid.py:91-93 | a missing state is appended bare; an existing one is kept |
| Mermaid.StepArrow | src/aloof_union/core/parsers/mermaid.py:75-108 | an arrow line adds at most one transition and fails only with the invalid-line message |
| Mermaid.Step | src/aloof_union/core/parsers/mermaid.py:49-108 | one input line, trimmed first: it adds at most one transition and fails only on an arrow line outside a note that does not split in two |
| Mermaid.RunGood | src/aloof_union/core/parsers/mermaid.py:49-108 | reading lines keeps the states keyed by name and every transition between known states |
| Mermaid.RunFault | src/aloof_union/core/parsers/mermaid.py:49-108 | a failed read names one of the input lines, trimmed |
| Mermaid.Parse | src/aloof_union/core/parsers/mermaid.py:41-113 | a JSON tree is rejected; every failure is a parser error; a read diagram is keyed by name, has no state properties, and links known states only |
| Mermaid.Shown | src/aloof_union/core/parsers/mermaid.py:138-142 | a label shows exactly the conditions whose field is "condition" |
| Mermaid.FlaggedNames | src/aloof_union/core/parsers/mermaid.py:152 | exactly the names of the terminal (or, for the start lines, initial) states |
| Mermaid.InitialLines | src/aloof_union/core/parsers/mermaid.py:120-122 | as many start lines as initial states, each naming an initial state, and every initial state's start line present |
| Mermaid.NoteLines | src/aloof_union/core/parsers/mermaid.py:125-133 | three lines for each state with a non-empty description, so none when no state has one |
| Mermaid.NoteLinesCover | src/aloof_union/core/parsers/mermaid.py:125-133 | every state with a non-empty description has its note block (opening line naming it, its description, closing line) among the written blocks |
| Mermaid.NoteLinesSound | src/aloof_union/core/parsers/mermaid.py:125-133 | every written three-line block is the note of a state with a non-empty description |
| Mermaid.TerminalLines | src/aloof_union/core/parsers/mermaid.py:152-154 | as many end lines as terminal states, each naming a terminal state, and every terminal state's end line present |
| Mermaid.Serialize | src/aloof_union/core/parsers/mermaid.py:117 | the text starts with the diagram header (what the lines after it read back as is stated by MermaidReparse.Reparse) |
| MermaidLaws.BlankLineSkipped | src/aloof_union/core/parsers/mermaid.py:51-52 | a blank line changes nothing |
| MermaidLaws.SkippedCase | src/aloof_union/core/parsers/mermaid.py:51-52 | the header line changes nothing |
| MermaidLaws.DeclarationCase | src/aloof_union/core/parsers/mermaid.py:55-59 | a `state "x"` line puts a bare state x |
| MermaidLaws.DeclarationReplaces | src/aloof_union/core/parsers/mermaid.py:55-59 | declaring a state again replaces it with a bare one, dropping its flags and description |
| MermaidLaws.NoteStartCase | src/aloof_union/core/parsers/mermaid.py:62-65 | a note line opens an empty note; when it contains "of", its target is the trimmed text between the first and the second "of" (the second piece of the line split on "of"), so "note right of Proof of concept" targets "Pro"; otherwise the target is kept |
| MermaidLaws.NoteEndCase | src/aloof_union/core/parsers/mermaid.py:66-70 | "end note" after a non-empty note with a target describes that state with the joined note lines and closes the note |
| MermaidLaws.NoteBodyCase | src/aloof_union/core/parsers/mermaid.py:71-72 | inside a note, any other line is collected |
| MermaidLaws.EmptyNoteSwallowsEnd | src/aloof_union/core/parsers/mermaid.py:66-72 | "end note" right after a note opens does not close it but is collected as note text |
| MermaidLaws.QuietCase | src/aloof_union/core/parsers/mermaid.py:49-75 | any other line outside a note without an arrow changes nothing |
| MermaidLaws.ArrowCase | src/aloof_union/core/parsers/mermaid.py:75-78 | outside a note, a line with an arrow is read as a transition line |
| MermaidLaws.StartLine | src/aloof_union/core/parsers/mermaid.py:81-84 | a start line marks an existing state initial and creates nothing |
| MermaidLaws.EndLine | src/aloof_union/core/parsers/mermaid.py:85-88 | an end line marks an existing state terminal and creates nothing |
| MermaidLaws.ArrowLineRead | src/aloof_union/core/parsers/mermaid.py:90-108 | a written arrow line creates its missing endpoints and appends the transition as its label reads back |
| MermaidLaws.RejectedCase | src/aloof_union/core/parsers/mermaid.py:20-22 | a line with other than one arrow is rejected naming the line |
| MermaidLaws.TwoArrowsRejected | src/aloof_union/core/parsers/mermaid.py:20-22 | a chained `a --> b --> c` line is rejected |
| MermaidReparse.NoteBlockRead | src/aloof_union/core/parsers/mermaid.py:125-133 | a written note block sets the description of its state if that state already exists |
| MermaidReparse.RunMarkers | src/aloof_union/core/parsers/mermaid.py:120-122 | a run of start or end lines marks exactly the named states that exist |
| MermaidReparse.RunNotes | src/aloof_union/core/parsers/mermaid.py:125-133 | note blocks written before any state exists change nothing |
| MermaidReparse.RunArrows | src/aloof_union/core/parsers/mermaid.py:136-149 | the written arrow lines create the endpoint states and append the transitions as their labels read back |
| MermaidReparse.SerializeSplits | src/aloof_union/core/parsers/mermaid.py:156 | splitting the written text on newlines gives back its lines whenever no written name, description or label holds a line break |
| MermaidReparse.RunDiagram | src/aloof_union/core/parsers/mermaid.py:48-108 | the written lines read back as the transition endpoints, terminal flags applied, and the redrawn transitions |
| MermaidReparse.Reparse | src/aloof_union/core/parsers/mermaid.py:41-159 | a written diagram parses back to the read-back states and transitions |
| MermaidRoundTrip.ReadBackStatesGet | src/aloof_union/core/parsers/mermaid.py:81-93 | a name reads back as a state exactly when a transition mentions it, bare and terminal when it was flagged so |
| MermaidRoundTrip.RereadStates | src/aloof_union/core/parsers/mermaid.py:81-93 | the read-back states are keyed by name, are exactly the mentioned names, and each is bare with its terminal flag |
| MermaidRoundTrip.RoundTrip | src/aloof_union/core/parsers/mermaid.py:115-159 | writing and reading back keeps the transitions' count, order and endpoints, drops actions, initial flags and descriptions, and keeps terminal flags |
| MermaidRoundTrip.LabelReadAsValue | src/aloof_union/core/parsers/mermaid.py:138-142 | a written condition reads back as an equality test whose value is its whole "field operator value" text, so it changes |
| MermaidRoundTrip.RoundTripFailsValidation | src/aloof_union/core/parsers/mermaid.py:120-122 | a diagram written and read back never passes validation: no state, or no initial state |
| Parsers.ParseAs | src/aloof_union/core/transpilers/workflow.py:19-23 | the registered parser: its failures are parser errors, its result keyed by name and tagged with the format |
| Parsers.SerializeAs | src/aloof_union/core/transpilers/workflow.py:19-23 | only the JSM serializer fails, exactly on a state without properties; only the diagram serializer writes text |
| Parsers.WrongContentRejected | src/aloof_union/core/transpilers/workflow.py:66 | a parser handed the other kind of content rejects it |
| Parsers.DiagramAsJsm | src/aloof_union/core/parsers/jsm.py:82-86 | a parsed diagram can be written as JSM only when it has no states |
| Parsers.ReparseSameFormat | src/aloof_union/core/transpilers/workflow.py:62-73 | a parsed workflow written in its own format reads back: the JSON formats keep the state keys and the transitions, the diagram keeps the transitions' endpoints |
| Transpile.Validate | src/aloof_union/core/transpilers/workflow.py:25-35 | passes exactly on a workflow that meets all five rules |
| Transpile.Checked | src/aloof_union/core/transpilers/workflow.py:66-70 | parsing succeeds and, when asked, the workflow meets all five rules |
| Transpile.Transpile | src/aloof_union/core/transpilers/workflow.py:37-78 | an unsupported source or target fails first; every failure is a transpiler error; success means parse, optional validation and serialization all succeed, with the serialized parse as the result |
| Transpile.TranspileFailure | src/aloof_union/core/transpilers/workflow.py:77-78 | a parser, validation or serializer failure comes out wrapped as "Error during transpilation: " and its message |
| Transpile.UnvalidatedStillConverts | src/aloof_union/core/transpilers/workflow.py:69-73 | without validation, whatever parses and serializes converts |
| Transpile.BareValueUnsupported | src/aloof_union/core/transpilers/workflow.py:75-76 | passing a tag's string value instead of the tag is unsupported |
| Transpile.WrittenDiagramRejected | src/aloof_union/core/transpilers/workflow.py:37-78 | converting a written diagram with validation on fails with the wrapped no-state or no-initial message |
| LegacyTranspiler.LegacyValidate | src/aloof_union/core/transpiler.py:16-44 | passes exactly when there is a state, at least one initial state and every endpoint is known, with the messages of the shared rules |
| LegacyTranspiler.LegacyAcceptsWellFormed | src/aloof_union/core/transpiler.py:16-44 | every workflow the exported validator accepts, the older one accepts |
| LegacyTranspiler.LegacyTranspile | src/aloof_union/core/transpiler.py:46-89 | unsupported formats fail first; parser and validation errors pass through unchanged; success as for the exported transpiler |
| LegacyTranspiler.LegacyAcceptsMore | src/aloof_union/core/transpiler.py:46-89 | whatever the exported transpiler converts, the older one converts to the same result |
| LegacyTranspiler.LegacyRejectionShared | src/aloof_union/core/transpiler.py:16-44 | whatever the older validator rejects, the exported one rejects, with the same message unless multiple initial states decide |
| LegacyTranspiler.ExportedRejectsMore | src/aloof_union/core/transpiler.py:46-89 | whatever the older transpiler rejects, the exported one rejects |
| LegacyTranspiler.ParserErrorPolicies | src/aloof_union/core/transpiler.py:86-87 | a parser error passes through the older transpiler unchanged and comes out of the exported one wrapped |
| LegacyTranspiler.TwoInitialAccepted | src/aloof_union/core/transpiler.py:30-33 | two initial states pass the older validator and fail the exported one |
| LegacyTranspiler.UnreachableAccepted | src/aloof_union/core/transpiler.py:16-44 | an unreachable state passes the older validator and fails the exported one |
| LegacyTranspiler.TerminalExitAccepted | src/aloof_union/core/transpiler.py:16-44 | a transition out of a terminal state passes the older validator and fails the exported one |

## Left out

- Reading and writing files, the command-line front end and JSON decoding are not modelled: parsers take an already decoded JSON tree or a string.
- The abstract base classes of the parsers and the transpiler are not modelled; the table dispatches on the format tag.
- Validation.ValidateReachability: lists the unreachable states in state-map order; Python joins a set, whose order is not determined by the program, so only the set of names in the message is stated.
- Values are printed the way Python's `str` prints strings, integers, booleans and `None`; nested objects and lists in a Mermaid label use a simplified rendering, and floating-point values are not modelled.
- Every fault other than a missing required key (a list where an object belongs, a number where a string belongs, a description that is not a string) is one fixed parser error per parser instead of Python's own message; in some of those cases Python would carry the wrong value through instead of failing.
- A JSON object is an association list with string keys; non-string keys and objects with repeated keys are not modelled.
- FreshServiceLaws.Reparse: requires an input without repeated keys, as every decoded JSON document is.
- MermaidRoundTrip.RoundTrip: requires that the diagram text must carry the workflow: every initial or terminal state has a plain name (non-empty, no surrounding whitespace, one line, no colon, no "-->", not "[*]", not starting with "state" or "note"); every state with a non-empty description has a name that is non-empty, without surrounding whitespace, on one line and without "of", and a description on one line whose trimmed text is non-empty and does not start with "state" or "note"; every transition has plain endpoints and a shown label without surrounding whitespace, newline, colon or "-->". Other workflows do not survive the text format, and what they read back as is not stated.
- MermaidReparse.Reparse: requires the same condition as MermaidRoundTrip.RoundTrip, for the same reason.
- MermaidRoundTrip.RoundTripFailsValidation: requires the same condition as MermaidRoundTrip.RoundTrip; for other workflows the diagram may read back differently and is not stated.
- Transpile.WrittenDiagramRejected: requires the same condition as MermaidRoundTrip.RoundTrip, since it rests on that read-back.
- Parsers.ReparseSameFormat: requires the same condition as MermaidRoundTrip.RoundTrip for diagrams, and Fresh Service input without repeated keys.
- Fields.Flag / Jsm.StatusJson: an initial or terminal flag that is not a boolean is stored as its Python truth value, so a writer outputs `true` or `false` where Python writes the raw value back. Checks that test a flag (validation, the diagram writer) treat it the same either way. Writing Fresh Service from Fresh Service input restores the raw value through the state's properties; JSM to Fresh Service and any input to JSM do not.
- Transpile.Unsupported: only string keys are modelled. Python prints a non-string key such as `None` by its `repr` (`Unsupported format type: None`). An unhashable key raises `TypeError` instead, which comes out as "Error during transpilation: unhashable type: …". Among string keys, non-printable code points above U+00FF, which `repr` writes as `\u` or `\U` escapes, are printed unescaped here, because their printability comes from the Unicode database.
- Mutation through aliasing (a parsed state sharing its properties dictionary with the input) is not modelled; the model is pure values.
- The older transpiler's catch-all branch, which turns any other exception into "Error during transpilation", cannot be reached in the model: the parsers report parser errors and only JSM serialization fails, with a parser error.
- Some assertions of the repository's tests disagree with the code; the model follows the code. In `tests/test_integration.py`, lines 19-21 (`test_round_trip_fs`) and 56-58 (`test_complex_workflow_conversion`) convert a written diagram onward with validation on by default, which fails as Transpile.WrittenDiagramRejected states. `tests/test_transpiler.py` line 51 expects a validation error where the exported transpiler wraps it in a transpiler error. `tests/test_parsers.py` lines 80 and 89 expect three transitions and seven states from diagrams that read as two transitions and six states, because a start or end line creates neither a state nor a transition.
