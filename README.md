# Architecture sandbox: a verified model of its core

The architecture sandbox is a training tool. A user interviews an AI
"client" about a system, draws an architecture on a React Flow canvas, and
has it evaluated by a language model. This project models the parts of the
program that can be stated exactly, and proves what they promise. The parts
are:

- **The canvas** (`frontend/src/components/ArchitectureCanvas.tsx`):
  - dropping palette items, with a point-in-group hit test and grow-only
    resizing of the enclosing group;
  - re-parenting a node when a drag stops, and detaching it again;
  - editing node data;
  - the counter behind `dndnode_<n>` ids;
  - the decimal project version and the saved, loaded and evaluated
    documents.

  The node-list updates are pure functions (`Containment`,
  `CanvasPayloads`, `Version`). The component's state is a class
  (`CanvasStore.GraphStore`) whose handlers reassign fields through those
  functions. The module-level id counter is a class of its own
  (`CanvasStore.IdCounter`).
- **The project file codec** (`frontend/src/utils/fileHandler.ts`). A save
  is JSON text, then UTF-8 bytes (RFC 3629), then Base64 (section 4 of
  RFC 4648). A load is the forgiving Base64 decode that `atob` performs,
  then strict UTF-8 decoding, then JSON parsing and an all-or-nothing
  structural check. Modules: `Utf8`, `Base64`, `FileHandler`.
- **The backend's prompt shaping**
  (`backend/src/infrastructure/gemini/client.rs`, module `GeminiClient`):
  - the requirement table per difficulty and its injection into custom
    scenarios;
  - the component list spliced into the evaluation prompt;
  - the chat prompt built from a conversation;
  - picking the reply out of a model response.
- **The backend's response shaping** (`backend/src/main.rs`, module
  `Server`): cleaning fenced model output, the fallback objects, and the
  chat and mock-save replies.
- **Two small stateful entities**: the `Project` entity with its in-place
  title change (`backend/src/domain/model/project.rs`, module
  `ProjectModel`), and the drag state of the floating properties panel
  (`frontend/src/components/PropertiesPanel.tsx`, module
  `PropertiesPanel`).

Shared pieces:

- `Wrappers` holds `Option` and `Result`.
- `Json` holds the JSON value both sides of the program pass around.
- `StrUtil` holds Rust's `str::replace` and `trim`, JavaScript's `trim`, and
  decimal rendering.
- `DiagramTypes` holds the canvas records.

Modelling choices:

- Positions and sizes are integers.
- A length or size that is absent, or not a number (`NaN` in the program),
  is `None`.
- JavaScript's `||` on numbers lets 0 fall through, and the model does the
  same.
- The drop hit test uses `??`, which keeps 0. `Number(undefined)` is `NaN`,
  so its final `?? 300` is never reached. A group with no size therefore
  never contains a drop point, as in the program.
- Versions are kept in tenths.
- On load, the code adds 1.0 to the saved version and keeps its fraction
  ("2.7" continues at "3.7"). The model follows the code.

## Model

| member | source | states |
|---|---|---|
| DiagramTypes.OrElse | frontend/src/components/ArchitectureCanvas.tsx:278-279 | JavaScript `n \|\| d` on an optional number: the value when present and non-zero, otherwise the fallback |
| CanvasPayloads.StringOr | frontend/src/components/ArchitectureCanvas.tsx:504 | JavaScript `s \|\| d` on a string: the string when non-empty, otherwise the fallback |
| StrUtil.NatToStringInjective | frontend/src/components/ArchitectureCanvas.tsx:51-52 | different counter values render as different decimal strings |
| Containment.KindForLabel | frontend/src/components/ArchitectureCanvas.tsx:347 | a dropped label makes a "group" exactly when it is one of the five group types, otherwise a "custom" node |
| Containment.ParseNewNodeIdOf | frontend/src/components/ArchitectureCanvas.tsx:51-52 | the id `dndnode_<k>` reads back as the counter value k |
| Containment.NewNodeIdInjective | frontend/src/components/ArchitectureCanvas.tsx:51-52 | distinct counter values give distinct ids |
| Containment.CounterAheadFresh | frontend/src/components/ArchitectureCanvas.tsx:51-52 | while the counter is ahead of every counter-style id in the list, the next id is not in use |
| Containment.Grow | frontend/src/components/ArchitectureCanvas.tsx:404-408 | a dimension changes only when the required size is strictly larger, and then becomes exactly that size; it never decreases |
| Containment.DropTarget | frontend/src/components/ArchitectureCanvas.tsx:358-377 | the drop target is a group containing the point (borders included), never any for a dropped group, and the last such one listed; none when no group qualifies |
| Containment.HitWidth | frontend/src/components/ArchitectureCanvas.tsx:368-369 | the hit test's size is the measured one when present, otherwise the style's; it is absent exactly when both are |
| Containment.HitHeight | frontend/src/components/ArchitectureCanvas.tsx:368-369 | the same for the height |
| Containment.ContainsPoint | frontend/src/components/ArchitectureCanvas.tsx:366-376 | a node without a measured or style size never contains a point |
| Containment.ContainsCorners | frontend/src/components/ArchitectureCanvas.tsx:371-376 | the comparisons include the borders: a sized group contains its top-left and bottom-right corners |
| Containment.CreatedNode | frontend/src/components/ArchitectureCanvas.tsx:419-434 | the new node has the given id, type, position and parent, no measured size, label and original type from the palette and an empty description; it is confined exactly when it has a parent; a group is styled 300 by 200 at zIndex -1, any other node only at zIndex 10 |
| Containment.DropGrowth | frontend/src/components/ArchitectureCanvas.tsx:392-408 | the grown size never shrinks the group and always covers the child (150 by 40) at the drop point plus 20 of padding |
| Containment.ResizeAll | frontend/src/components/ArchitectureCanvas.tsx:439-453 | every node carrying the group's id gets the new size in both its measured size and its style; all others are unchanged |
| Containment.DropNode | frontend/src/components/ArchitectureCanvas.tsx:342-456 | a drop appends one node, built as `CreatedNode` builds it (new id, kind, data, style, zIndex and extent), parented exactly when a target exists. The node lands at the drop point made relative to the target. When the required size is strictly larger in some dimension, every node carrying the target's id, the appended one included, takes the grown size; otherwise no node changes |
| Containment.DropGroupIsTopLevel | frontend/src/components/ArchitectureCanvas.tsx:364 | a dropped group is never parented: it keeps the drop point, starts at 300 by 200 below other nodes (zIndex -1), and nothing else changes |
| Containment.DropTieBreak | frontend/src/components/ArchitectureCanvas.tsx:358-361 | of two groups that both contain the point, the later listed one wins |
| Containment.DropChangesOnlyTarget | frontend/src/components/ArchitectureCanvas.tsx:410-455 | with a fresh id, the appended node is the created one. An existing node changes only if it carries the target's id, and then only to the grown size. Conversely, whenever growth is needed the target takes the grown size, in both its measured size and its style |
| Containment.DropGrowthGrowsOnly | frontend/src/components/ArchitectureCanvas.tsx:392-408 | the group grows to fit the child (150 by 40) plus 20 of padding, never shrinks, and each dimension changes exactly when it was strictly too small |
| Containment.DropExactFitDoesNotResize | frontend/src/components/ArchitectureCanvas.tsx:407-410 | a required size equal to the current one leaves the group alone (the comparison is strict) |
| Containment.DropKeepsCounterAhead | frontend/src/components/ArchitectureCanvas.tsx:420 | a drop with a counter ahead of the list uses a fresh id and leaves the advanced counter ahead of the new list |
| Containment.DragTarget | frontend/src/components/ArchitectureCanvas.tsx:259-263 | the drag target is the last group among the intersecting nodes, none when there is no group |
| Containment.GrowToFit | frontend/src/components/ArchitectureCanvas.tsx:288-310 | a group already large enough is kept as it is; otherwise both sizes are set to the grown dimensions |
| Containment.AfterDragStop | frontend/src/components/ArchitectureCanvas.tsx:286-332 | a node keeps its id; a node that is neither the target nor the dragged one is unchanged; the dragged node ends up parented to the target with its type and data kept |
| Containment.DragStop | frontend/src/components/ArchitectureCanvas.tsx:253-336 | a drag-stop keeps the length of the list and every node's id |
| Containment.DragStopWithoutTargetIsNoOp | frontend/src/components/ArchitectureCanvas.tsx:256-265 | dragging a group, or ending over no group, leaves the list unchanged |
| Containment.DragStopEffect | frontend/src/components/ArchitectureCanvas.tsx:266-333 | the target grows to fit (child size defaulting to 150 by 40, padding 20); the dragged node is re-parented to the target at its relative position with extent "parent", so that parent plus relative equals its old absolute position; a node already in the target is untouched; all other nodes are unchanged |
| Containment.GrowToFitIdempotent | frontend/src/components/ArchitectureCanvas.tsx:288-310 | growing a group to fit twice is growing it once |
| Containment.DragStopIdempotent | frontend/src/components/ArchitectureCanvas.tsx:253-336 | repeating the same drag-stop changes nothing more |
| Containment.FindById | frontend/src/components/ArchitectureCanvas.tsx:215 | `find` by id gives the first node with that id, or none when no node has it |
| Containment.LastWithId | frontend/src/components/ArchitectureCanvas.tsx:477-481 | the node left selected by a data update is the last one with the id |
| Containment.DetachNode | frontend/src/components/ArchitectureCanvas.tsx:211-243 | detaching keeps the length of the list and every node's id |
| Containment.DetachNoOp | frontend/src/components/ArchitectureCanvas.tsx:216 | an unknown id, or a node without a parent, leaves the list unchanged |
| Containment.DetachRestoresAbsolute | frontend/src/components/ArchitectureCanvas.tsx:219-242 | a detached child with an existing parent is placed at the parent's absolute position plus its relative one, loses parent and extent, keeps everything else, and nodes with other ids are untouched |
| Containment.DetachEffect | frontend/src/components/ArchitectureCanvas.tsx:211-243 | every node carrying the id moves to the detached position (the parent's absolute position plus its own, or its own when the parent is missing), loses its parent and extent and keeps all else; other nodes are unchanged |
| Containment.DetachWithoutParentKeepsPosition | frontend/src/components/ArchitectureCanvas.tsx:219-231 | with the parent missing from the list, the child keeps its position but still loses its parent and its extent |
| Containment.DetachIdempotent | frontend/src/components/ArchitectureCanvas.tsx:211-243 | detaching twice is detaching once |
| Containment.UpdateNodeData | frontend/src/components/ArchitectureCanvas.tsx:474-486 | every node with the id gets the new data and nothing else; all others are unchanged |
| Containment.UpdateUnknownIdIsNoOp | frontend/src/components/ArchitectureCanvas.tsx:476-484 | an update for an unknown id changes nothing |
| Version.RenderTenths | frontend/src/components/ArchitectureCanvas.tsx:118 | `toFixed(1)` always writes one digit after a point |
| Version.ParseTenths | frontend/src/components/ArchitectureCanvas.tsx:117 | only a numeral that starts and ends with a digit is accepted, and every string of digits is |
| Version.NextVersion | frontend/src/components/ArchitectureCanvas.tsx:117-119 | the next version is always written with one digit after a point |
| Version.ParseRender | frontend/src/components/ArchitectureCanvas.tsx:117-118 | a rendered version parses back to the same value |
| Version.BaseTenths | frontend/src/components/ArchitectureCanvas.tsx:117 | `parseFloat(v) \|\| 1.0`: the parsed value, or 1.0 when it is unparsable or zero |
| Version.NextVersionValue | frontend/src/components/ArchitectureCanvas.tsx:117-119 | the next version reads back as exactly one more than the current one (or than 1.0) |
| Version.NextVersionDiffers | frontend/src/components/ArchitectureCanvas.tsx:566-569 | a save never writes the same version twice in a row |
| Version.VersionAfterBase | frontend/src/components/ArchitectureCanvas.tsx:566-569 | each save adds exactly 1.0 to the version value |
| Version.VersionAfterValue | frontend/src/components/ArchitectureCanvas.tsx:566-569 | after n saves the version is the starting value plus n |
| Version.FreshSessionVersions | frontend/src/components/ArchitectureCanvas.tsx:123 | a new session writes "1.0", then "2.0", "3.0", and then stands at "4.0" |
| Version.LoadedFractionKept | frontend/src/components/ArchitectureCanvas.tsx:117-118 | a loaded "2.7" continues at "3.7" |
| Version.UnparsableRestartsAtTwo | frontend/src/components/ArchitectureCanvas.tsx:117-118 | an unparsable or zero version continues at "2.0" |
| CanvasPayloads.FlattenNode | frontend/src/components/ArchitectureCanvas.tsx:502-512 | a node sent for evaluation carries its id, label, description, position and parent; an empty original type is sent as "Unknown" |
| CanvasPayloads.EvaluationPayload | frontend/src/components/ArchitectureCanvas.tsx:490-515 | evaluation is refused exactly for an empty diagram; otherwise every node and edge is sent, in order, with the scenario |
| CanvasPayloads.SaveNode | frontend/src/components/ArchitectureCanvas.tsx:542-550 | a saved node drops React Flow's measurements and keeps every other field |
| CanvasPayloads.SavePayload | frontend/src/components/ArchitectureCanvas.tsx:537-559 | the saved document carries the current version, timestamp, project id, scenario, memo, edges, chat and evaluation unchanged, and every node in saved form |
| CanvasPayloads.SaveNodeIdempotent | frontend/src/components/ArchitectureCanvas.tsx:542-550 | saving a saved node changes nothing |
| CanvasPayloads.LoadEdge | frontend/src/components/ArchitectureCanvas.tsx:105-109 | a loaded edge keeps its ends and its id, and a missing or empty id becomes `e_<source>-<target>` |
| CanvasPayloads.LoadEdges | frontend/src/components/ArchitectureCanvas.tsx:104-110 | every edge is loaded, in order |
| CanvasPayloads.LoadEdgesIdempotent | frontend/src/components/ArchitectureCanvas.tsx:104-110 | after a load every edge has a non-empty id, so loading again changes nothing |
| CanvasPayloads.LoadSavedEdges | frontend/src/components/ArchitectureCanvas.tsx:104-110 | edges that all have ids load back unchanged |
| CanvasPayloads.SaveFileName | frontend/src/components/ArchitectureCanvas.tsx:562-563 | the file name is the JavaScript-trimmed title, or "untitled" when that is empty, then `_v<version>.json` |
| CanvasPayloads.SaveFileNameStem | frontend/src/components/ArchitectureCanvas.tsx:562 | the file name's stem is never empty and never starts or ends with whitespace |
| CanvasStore.IdCounter.GetId | frontend/src/components/ArchitectureCanvas.tsx:51-52 | hands out `dndnode_<counter>` and advances the counter by one |
| CanvasStore.InitialMessages | frontend/src/components/ArchitectureCanvas.tsx:125-189 | a custom scenario opens with the hidden brief as a system message and the custom greeting; any other opens with the fixed greeting alone |
| CanvasStore.GraphStore.constructor | frontend/src/components/ArchitectureCanvas.tsx:74-90 | a new canvas is empty, at version "1.0", on the chat tab, with nothing selected |
| CanvasStore.GraphStore.Initialise | frontend/src/components/ArchitectureCanvas.tsx:101-190 | a loaded project replaces nodes, chat and memo, rebuilds edge ids, opens its evaluation if it has one, and continues at the next version; otherwise an empty chat starts at "1.0" with the opening messages |
| CanvasStore.GraphStore.OnDrop | frontend/src/components/ArchitectureCanvas.tsx:342-457 | an unmounted canvas ignores the drop; otherwise the nodes become the drop's result with the next counter id, the new node is selected, the counter advances, and id freshness is preserved |
| CanvasStore.GraphStore.OnNodeDragStop | frontend/src/components/ArchitectureCanvas.tsx:253-336 | the nodes become the drag-stop result and nothing else changes |
| CanvasStore.GraphStore.HandleDetachNode | frontend/src/components/ArchitectureCanvas.tsx:211-247 | the nodes become the detach result and the selection is cleared |
| CanvasStore.GraphStore.HandleNodeUpdate | frontend/src/components/ArchitectureCanvas.tsx:474-488 | the nodes become the data update, the last updated node is selected, and an unknown id keeps the selection |
| CanvasStore.GraphStore.OnConnect | frontend/src/components/ArchitectureCanvas.tsx:203-206 | appends the new edge and nothing else changes |
| CanvasStore.GraphStore.OnNodeClick | frontend/src/components/ArchitectureCanvas.tsx:462-468 | only custom and group nodes become selected; a click on any other clears the selection |
| CanvasStore.GraphStore.OnPaneClick | frontend/src/components/ArchitectureCanvas.tsx:470-472 | clears the selection |
| CanvasStore.GraphStore.OnSaveProject | frontend/src/components/ArchitectureCanvas.tsx:532-575 | the file is written at the current version and named after it; its content decodes back to the serialized document; only a successful save advances the version |
| CanvasStore.GraphStore.OnEvaluate | frontend/src/components/ArchitectureCanvas.tsx:490-530 | sends the flattened design; an empty diagram sends nothing and changes nothing; a received result is stored and opens the evaluation tab |
| CanvasStore.LoadedIdsCanCollide | frontend/src/components/ArchitectureCanvas.tsx:51-52 | the counter ignores loaded ids: after a reload, dropping into a diagram that holds `dndnode_0` creates a second node with that id |
| Utf8.DecodeEncode | frontend/src/utils/fileHandler.ts:13 | strict UTF-8 decoding inverts UTF-8 encoding for every string |
| Utf8.Encode | frontend/src/utils/fileHandler.ts:13 | a string of n characters encodes to between n and 4n bytes |
| Utf8.Decode | frontend/src/utils/fileHandler.ts:48-50 | decoded text has at most as many characters as there were bytes, and at least a quarter as many |
| Utf8.EncodeScalar | frontend/src/utils/fileHandler.ts:13 | a character encodes to one to four bytes, one byte exactly for ASCII, the rest continuation bytes |
| Base64.Encode | frontend/src/utils/fileHandler.ts:13 | the encoding of n bytes has 4 × ⌈n/3⌉ characters, a multiple of four |
| Base64.DecodeSymbols | frontend/src/utils/fileHandler.ts:49 | a symbol string decodes only when its length is not 1 modulo 4, and then to three bytes per four symbols, rounded down |
| Base64.Atob | frontend/src/utils/fileHandler.ts:49 | `atob` fails on a length of 1 modulo 4 once whitespace and padding are removed; otherwise it gives three bytes per four remaining symbols, rounded down |
| Base64.AtobEncode | frontend/src/utils/fileHandler.ts:48-50 | `atob` gives back exactly the bytes `btoa` encoded |
| Base64.EncodeHasNoWhitespace | frontend/src/utils/fileHandler.ts:48-50 | `btoa` output holds no ASCII whitespace, so the whitespace removal of `atob` leaves it unchanged |
| FileHandler.DecodeEncodeText | frontend/src/utils/fileHandler.ts:11-13 | loading what was saved gives back the saved JSON text |
| FileHandler.EncodeText | frontend/src/utils/fileHandler.ts:11-13 | the file content is a whole number of Base64 groups, and empty exactly for the empty text |
| FileHandler.DecodeText | frontend/src/utils/fileHandler.ts:48-50 | a Base64 failure is reported as such exactly when `atob` fails; the only other failure is bad UTF-8; a success is the UTF-8 decoding of the Base64 bytes |
| FileHandler.IsProjectDocument | frontend/src/utils/fileHandler.ts:54-66 | a document that passes the structural check is an object with version, projectId, scenario, diagram and chatHistory entries |
| FileHandler.SaveProjectToLocalFile | frontend/src/utils/fileHandler.ts:6-32 | a save succeeds exactly when serialization does, and its content decodes back to the text; every failure is the single generic error |
| FileHandler.Validate | frontend/src/utils/fileHandler.ts:54-67 | a parsed value is accepted exactly when it has the project structure, and is then returned unchanged; `null` is refused |
| FileHandler.LoadProjectFromLocalFile | frontend/src/utils/fileHandler.ts:37-75 | a load resolves exactly when reading, Base64, UTF-8 and JSON decoding succeed and the structure is right, and then with the parsed document; a read error rejects |
| FileHandler.LoadAfterSave | frontend/src/utils/fileHandler.ts:11-67 | saving a text whose parse is a project document and loading the file gives exactly that document |
| FileHandler.LoadAfterSaveRefusesMalformed | frontend/src/utils/fileHandler.ts:54-71 | a saved text whose parse is not a project document is refused on load |
| GeminiClient.SpecFor | backend/src/infrastructure/gemini/client.rs:89-116 | "small", "medium" and "large" get their own records, every other string the default one |
| GeminiClient.SpecJson | backend/src/infrastructure/gemini/client.rs:91-114 | each record becomes an object with exactly the four requirement keys |
| GeminiClient.SpecsDistinct | backend/src/infrastructure/gemini/client.rs:89-116 | the four records are pairwise different |
| GeminiClient.SpecJsonInjective | backend/src/infrastructure/gemini/client.rs:91-114 | different records give different JSON objects |
| GeminiClient.DifficultySpecs | backend/src/infrastructure/gemini/client.rs:89-116 | the requirement object always has the four keys, and is the small, medium or large record exactly for that difficulty |
| GeminiClient.InjectCustomRequirements | backend/src/infrastructure/gemini/client.rs:126-156 | only the scenario entry can change; the payload keeps its shape and every other top-level entry |
| GeminiClient.NonCustomUnchanged | backend/src/infrastructure/gemini/client.rs:128-135 | a payload without a custom scenario is sent unchanged |
| GeminiClient.MissingRequirementsNotAdded | backend/src/infrastructure/gemini/client.rs:152-154 | a custom scenario without requirements is not given any |
| GeminiClient.CustomRequirementsReplaced | backend/src/infrastructure/gemini/client.rs:135-155 | in a custom scenario exactly the requirements change, to the record for its difficulty ("medium" when missing or not a string) |
| GeminiClient.InjectIdempotent | backend/src/infrastructure/gemini/client.rs:126-156 | injecting twice is injecting once |
| GeminiClient.ItemLinesAppend | backend/src/infrastructure/gemini/client.rs:78-83 | the list of two item sequences is the concatenation of their lists |
| GeminiClient.BuildComponentList | backend/src/infrastructure/gemini/client.rs:77-83 | the nested loops produce one `    - "<type>"` line per item, category by category, item by item |
| GeminiClient.OneLinePerItem | backend/src/infrastructure/gemini/client.rs:81 | the list holds exactly as many lines as items |
| GeminiClient.SystemPrompt | backend/src/infrastructure/gemini/client.rs:64-87 | a template without the placeholder is used unchanged |
| GeminiClient.EvaluationPrompt | backend/src/infrastructure/gemini/client.rs:158-162 | the evaluation prompt begins with the system prompt and ends with the injected design data |
| GeminiClient.SystemPromptFillsPlaceholder | backend/src/infrastructure/gemini/client.rs:86 | a template with one placeholder becomes the text around it with the component list in its place |
| GeminiClient.Instruction | backend/src/infrastructure/gemini/client.rs:208-258 | a custom chat's instruction is its leading non-empty system message or the fixed fallback; a fixed scenario uses the server's brief for its id |
| GeminiClient.HiddenContext | backend/src/infrastructure/gemini/client.rs:226-248 | the internal-tool and SNS briefs are used exactly for those two scenario ids, and the generic brief exactly for every other |
| GeminiClient.ChooseInstruction | backend/src/infrastructure/gemini/client.rs:208-258 | the instruction and the history start index as the specification functions give them |
| GeminiClient.Speaker | backend/src/infrastructure/gemini/client.rs:275-279 | "user" speaks as "Architect", every other role as "Client" |
| GeminiClient.Transcript | backend/src/infrastructure/gemini/client.rs:265-281 | the transcript is empty exactly when every message is a system message |
| GeminiClient.TranscriptAppend | backend/src/infrastructure/gemini/client.rs:265-281 | the transcript of two histories is the concatenation of their transcripts |
| GeminiClient.TranscriptDropsSystem | backend/src/infrastructure/gemini/client.rs:271-273 | a system message anywhere in the history contributes nothing |
| GeminiClient.TranscriptLines | backend/src/infrastructure/gemini/client.rs:265-281 | the transcript is that of the non-system messages, in order |
| GeminiClient.HistoryLineCount | backend/src/infrastructure/gemini/client.rs:275-280 | a message whose content holds no newline is shown as exactly one line |
| GeminiClient.TranscriptLineCount | backend/src/infrastructure/gemini/client.rs:265-281 | when no content holds a newline, the transcript has exactly one line per non-system message |
| GeminiClient.StartIndexRedundant | backend/src/infrastructure/gemini/client.rs:213-219 | skipping the leading system message gives the same history as dropping all system messages |
| GeminiClient.BuildChatPrompt | backend/src/infrastructure/gemini/client.rs:200-282 | the prompt is the instruction, the history heading, the transcript without system messages, and "Client: " at the end; a leading custom system message is not repeated |
| GeminiClient.AppendHistory | backend/src/infrastructure/gemini/client.rs:260-281 | the loop from the start index, skipping system messages, appends exactly the transcript of the whole history |
| GeminiClient.FirstPartText | backend/src/infrastructure/gemini/client.rs:185-197 | the reply is the first part of the first candidate, present exactly when that path exists |
| GeminiClient.ModelReply | backend/src/infrastructure/gemini/client.rs:174-197 | a status outside 200..299 or an undecodable body gives no reply; otherwise the reply is the first part's text |
| Server.CleanModelText | backend/src/main.rs:53-57 | the cleaned text has no whitespace at either end |
| Server.RemovalKeepsFirst | backend/src/main.rs:55 | removing fences from a text that does not start with one keeps its first character |
| Server.RemovalLeadingTicks | backend/src/main.rs:55 | such a removal cannot make the text start with two backticks |
| Server.NoFenceAfterRemoval | backend/src/main.rs:55 | no triple backtick survives the removal |
| Server.CleanHasNoFence | backend/src/main.rs:53-57 | the cleaned text holds no triple backtick |
| Server.CleanFencedJson | backend/src/main.rs:53-57 | a reply wrapped in a json fence, with no backtick inside, cleans to its inner text trimmed |
| Server.EvaluateResponse | backend/src/main.rs:51-69 | a failed call gives the error object; cleaned text that parses is returned as parsed; other text gives the partial-success object carrying it |
| Server.EvaluateFallbackShape | backend/src/main.rs:58-68 | every response not taken from the model's JSON scores 0, reports "error" exactly for a failed call and "partial_success" exactly otherwise, and has fence-free text as feedback |
| Server.EvaluateArchitecture | backend/src/main.rs:49-70 | an unsuccessful HTTP status yields the error object |
| Server.ChatResponse | backend/src/main.rs:72-81 | a reply gives `{reply, status: "success"}`, a failure `{reply: "Error", status: "error"}`, with no other keys |
| Server.MockSaveResponse | backend/src/main.rs:83-91 | reports success, echoes the payload's id (null when it has none), and carries the fixed message |
| StrUtil.TrimWith | backend/src/main.rs:56 | trimming gives the slice between the leading and trailing whitespace runs, with no whitespace at either end |
| StrUtil.TrimIdempotent | backend/src/main.rs:56 | trimming twice is trimming once |
| ProjectModel.Project.constructor | backend/src/domain/model/project.rs:73-89 | the given id, title, scenario id, diagram and chat are stored unchanged, the project is stamped with the current time, and it has no evaluation |
| ProjectModel.Project.ChangeTitle | backend/src/domain/model/project.rs:94-99 | an empty title changes nothing; any other becomes the title and refreshes the time; diagram, chat and evaluation never change (id and scenario id are constant) |
| PropertiesPanel.WithLabel | frontend/src/components/PropertiesPanel.tsx:33-35 | a label edit replaces the label and keeps the other data |
| PropertiesPanel.WithDescription | frontend/src/components/PropertiesPanel.tsx:37-41 | a description edit replaces the description and keeps the other data |
| PropertiesPanel.EditsAreIndependent | frontend/src/components/PropertiesPanel.tsx:33-41 | the two edits commute, and re-entering the current text changes nothing |
| PropertiesPanel.NoJumpAtDragStart | frontend/src/components/PropertiesPanel.tsx:79-84 | a move to the mouse-down point puts the panel where mouse-down placed it |
| PropertiesPanel.DragFollowsMouse | frontend/src/components/PropertiesPanel.tsx:79-84 | a mouse move by a delta moves the panel by the same delta |
| PropertiesPanel.PanelDrag.constructor | frontend/src/components/PropertiesPanel.tsx:18-25 | the panel starts at its default place, not dragging, with zero offsets |
| PropertiesPanel.PanelDrag.MouseDown | frontend/src/components/PropertiesPanel.tsx:44-71 | without a panel element nothing changes; otherwise the panel is placed at its rectangle minus its container's, the grab offset is recorded, dragging starts, and the grab point is under the mouse |
| PropertiesPanel.PanelDrag.MouseMove | frontend/src/components/PropertiesPanel.tsx:76-85 | moves are ignored while not dragging; while dragging the panel follows the mouse and keeps the grab point under it |
| PropertiesPanel.PanelDrag.MouseUp | frontend/src/components/PropertiesPanel.tsx:87-89 | dragging stops and the panel stays where it is |

## Left out

- Rendering, React hooks and effects, `alert` and `console`: the handlers
  are methods called with the event's inputs.
- React Flow's hit test `getIntersectingNodes` and its pan/zoom transform
  `screenToFlowPosition`: their results are inputs. The drop's `getNodes()`
  and the updater's `nds` are taken to be the same list.
- `addEdge`: `CanvasStore.GraphStore.OnConnect` appends the edge, without
  React Flow's duplicate check or id generation.
- UTF-16: strings are sequences of Unicode scalar values, while JavaScript
  strings are UTF-16. A lone surrogate, on which `encodeURIComponent`
  throws during a save, cannot be expressed. `JSON.stringify` escapes lone
  surrogates, so the text a save encodes never holds one.
- Floating point. Positions and sizes are integers, so the model does not
  capture rounding, and `NaN` only as an absent value.
- Version parsing: `Version.ParseTenths` reads only the shapes the program
  writes (`D+` and `D+.D`). Anything else counts as unparsable. This
  includes strings `parseFloat` would read a number prefix from (`" 2"`,
  `"2.75"`, `"3abc"`), and their rounding by `toFixed`.
- `JSON.stringify`, `JSON.parse`, serde's parser and serde's `Display` of a
  value: they are parameters of the functions that use them.
- Browser file APIs: the DOM download (`Blob`, object URLs, the anchor
  element) and `FileReader` are outside the model. The text the reader
  produced is an input.
- Network and environment: `fetch` in `onEvaluate` is outside the model,
  and its outcome is an input. So are the Gemini HTTP calls (`reqwest`,
  `env::var`), whose status and decoded body are inputs. The axum router,
  CORS setup and server bootstrap of `main` are left out entirely.
- The prompt template `system_prompt.txt` and the component definitions
  `architecture_defs.json` are embedded at compile time and are not part of
  this model. They are parameters, and the `expect` on parsing the
  definitions is not modelled.
- The text of the hidden brief the frontend writes for a custom scenario
  (its own difficulty table included) is an opaque parameter of
  `CanvasStore.GraphStore.Initialise`.
- UUID generation (`uuidv4`, `ProjectId::new`) and the clocks
  (`new Date().toISOString()`, `Utc::now()`): they are parameters.
- In-place mutation of the cloned payload in `evaluate_with_gemini` is
  modelled as a value update. The clone is not shared, so nothing aliased
  is lost.
- `CanvasStore.GraphStore.OnDrop`: states id freshness only under the
  invariant that the counter is ahead of the list. The program does not
  re-establish that invariant on load (`CanvasStore.LoadedIdsCanCollide`).
- `ProjectModel.Project.ChangeTitle`: `id` and `scenarioId` are constant
  fields. The source's fields are public and mutable, but no operation of
  the entity writes them.
- The evaluation result's field names differ across the frontend (`score`
  in the types, `totalScore` elsewhere). The model keeps the record of the
  types file.
- `backend/src/gemini.rs` (a second HTTP client), the database repository
  and handlers, and the purely presentational components are left out.
