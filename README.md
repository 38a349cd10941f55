# Sankey flow diagram: aggregation, validation and diagram state

This project models the non-rendering core of a Sankey diagram viewer. The modelled behaviour:

- **Input.** The viewer is given weighted paths through named nodes, plus colour rules for node pairs.
- **Aggregation.** It sums the paths into one link per ordered pair of consecutive nodes. Each link is coloured by its rule or gray.
- **Node list.** The nodes are derived from the links. Each node's display label is its id with any bracketed annotation removed.
- **Validation and graph.** The serialised graph is validated, then turned into a graph whose links point at their nodes.
- **Layout results.** The layout's vertical positions can be overridden by saved fractions of the height, and recorded back as fractions.
- **Highlighting.** Selected nodes highlight the flow of the paths that pass through all of them. That flow is drawn as overlay copies of the highlighted links, scaled by their highlighted share.
- **Selection and drag.** A click on a node toggles it in the selection. A drag moves the node instead. The component tells the two apart using the `mightBeClick` flag.

Modules, one per part of the program:

- `Common` (`common.dfy`): `Option` (JavaScript's `undefined`) and `Result` (a value or the error thrown).
- `Seqs` (`seqs.dfy`): general sequence facts.
  - Distinctness, and the first occurrence of an element.
  - `FirstSeen`: the iteration order of a JavaScript `Set` or `Map` that grows element by element.
  - The first repeat, and the first element outside a set.
- `Types` (`types.dfy`): `makeFullData` from `src/types.ts`.
- `Labels` (`labels.dfy`): the label regex `/\s*\[.*\]/g` of `src/data.ts`.
  - It models leftmost, greedy, global matching.
  - `.` stops at line terminators.
- `Data` (`data.dfy`): `generateLinks`, `getNodesFromLinks`, `generateData` and `linkToHighlightedValue` from `src/data.ts`.
- `Diagram` (`diagram.dfy`): the d3-independent parts of `src/SankeyDiagram.tsx`.
  - `createGraph`.
  - The saved-position override loop and `recordPositions`.
  - `generateFakeLinks` and `updateFakeLinks`.
- `DiagramComponent` (`component.dfy`): the component's state machine.
  - The selection, the laid-out graph, the drawing height and the overlay links.
  - `regenerate`, `toggleSelection`, and the drag start, move and end handlers.

Modelling choices:

- **Loops become methods.** Each `forEach` loop of the source, and each `map` that checks or throws, is a `method` with a `while` loop. The label `map` in `getNodesFromLinks` is a sequence comprehension, and the `every`/`indexOf` test of the highlight predicate is the quantifier `HasAll`. Its `ensures` ties the result to a specification function, and lemmas prove the source's properties about those functions.
- **Fields the source mutates in place stay in place.** The component is a `class`. The laid-out nodes and the overlay links are arrays: the override loop and the drag write the nodes in place, and `updateFakeLinks` writes the overlay in place.
- **Numbers are `real`.** This covers instances, values, heights, fractions and widths.
- **Link keys are the string `sourceId + "|" + targetId`, as in the source.**
  - Ids containing `|` can make two different pairs share a key (`KeysCollide`).
  - So the pair-level lemmas assume `BarFree`: no path node id contains `|`.
- **`Map`s and `Set`s keep their insertion order.** They are modelled as a Dafny map or set next to a `seq` of keys in insertion order.
- **Nodes are referred to by index.** A link's `source` and `target` are positions in the node list rather than object references.
- **The d3-sankey layout is a parameter.** `Regenerate` takes the laid-out graph (`laidOut`) and the links after `sankey.update` (`relaid`). `DragMove` takes the links after its `sankey.update`.
  - The layout may only assign positions and bands: `SameShape`, `SameExceptBands`.

Two behaviours of the code worth noting:

- **Overlay copies.** `generateFakeLinks` (`src/SankeyDiagram.tsx:201-210`) pushes each link once, then the same scaled copy three times.
- **Toggle after a drag.** A click toggle after a drag keeps the dragged position. `toggleSelection` calls `regenerate`, which records the current positions, including the dragged one, and applies them again (`src/SankeyDiagram.tsx:152-153`). `ToggleSelection`'s contract says so.

## Model

| member | source | states |
|---|---|---|
| Seqs.FirstSeen | src/data.ts:78-83 | The ids kept by an insertion-ordered set hold exactly the elements of the input, with no duplicates |
| Seqs.FirstSeenOrder | src/data.ts:78-83 | The set's elements come in the order of their first occurrence in the input |
| Seqs.FirstRepeat | src/types.ts:27-33 | Returns no position exactly when the ids are distinct; otherwise the position of the first id that repeats an earlier one, with no repeat before it |
| Seqs.FirstOutside | src/types.ts:37-42 | Returns no position exactly when every endpoint is known; otherwise the position of the first unknown one, with every endpoint before it known |
| Types.LinkEndpoints | src/types.ts:38 | The checked endpoints are, link by link, the source and then the target |
| Types.LinkColor | src/types.ts:43 | A link keeps its own colour when it is present and non-empty, otherwise gets "gray"; the result is never empty |
| Types.FullDataDuplicate | src/types.ts:27-33 | Validation fails with a duplicate-id error exactly when two nodes normalise to the same id, and the error names an id two nodes share |
| Types.FullDataMissing | src/types.ts:37-42 | With distinct ids, validation fails with a missing-id error exactly when some link endpoint is not a node id, and the error names such an endpoint |
| Types.FullDataSuccess | src/types.ts:26-50 | On success the ids are distinct and every endpoint is a node id; nodes and links keep their number and order, ids defaulted to labels and colours defaulted to gray |
| Types.CompleteNodeList | src/types.ts:27-35 | The node loop throws on the first id already seen, else returns the completed nodes and the set of their ids |
| Types.CompleteLinkList | src/types.ts:37-44 | The link loop checks each link's source, then its target, throwing on the first unknown id, else returns the completed links |
| Types.MakeFullData | src/types.ts:26-50 | `makeFullData` returns the validation result: the node check first, then the links against the node ids |
| Labels.LineEnd | src/data.ts:83 | The line a position is on ends at the first line terminator from there, or at the end of the id; nothing before that end is a line terminator |
| Labels.LastClose | src/data.ts:83 | A found close is a ']' on the start position's line with no ']' after it on that line; none is found exactly when that line has no ']' from the start position on |
| Labels.FirstOpen | src/data.ts:83 | A found open is a '[' at or after the start position, with a later ']' on its line, and no such '[' comes between the start position and it; none is found exactly when no such '[' exists from the start position on |
| Labels.SpaceStart | src/data.ts:83 | The start of the white-space run before a position: everything from it to the position is white space, and the character before it is not |
| Labels.Label | src/data.ts:83 | Removing the matches never lengthens the id |
| Labels.FirstOpenSkips | src/data.ts:83 | With no '[' in a stretch, the search for an opening bracket passes over it |
| Labels.LastCloseAtEnd | src/data.ts:83 | A line ending in ']' is closed by that final ']' |
| Labels.LabelWithoutBracket | src/data.ts:83 | An id without '[' is its own label |
| Labels.LabelOfSingleMatch | src/data.ts:83 | With a single " [" preceded by a non-space and a one-line tail ending in ']', the label is the part before the space |
| Labels.LabelStripsAnnotation | src/data.ts:83 | A trailing " [note]" on one line is stripped from an id with no '[' that does not end in white space |
| Labels.CheckoutLabel | src/data.ts:83 | The label of "Checkout [drop]" is "Checkout" |
| Data.LastRule | src/data.ts:39-42 | Finds the last colour rule with a given key, if any: no later rule has that key, and none at all when there is no result |
| Data.ColorTable | src/data.ts:39-42 | The colour map holds exactly the keys some rule has, each mapped to the colour of the last rule with that key |
| Data.ColorFor | src/data.ts:53 | A new link's colour is never empty |
| Data.Acc | src/data.ts:44-71 | The scanned table is well formed: its order lists each key once, and every entry is stored under its own pair's key |
| Data.AccKeys | src/data.ts:44-71 | A pair has an entry exactly when some accepted step has its key |
| Data.AccValue | src/data.ts:44-71 | Each entry's value is the total of the instances of the steps with its key |
| Data.AccColor | src/data.ts:53 | Each entry's colour is the one its key's rule gives, fixed when the entry is created |
| Data.AccOrder | src/data.ts:55 | Entry order is the sequence of step keys, each kept at its first occurrence |
| Data.AccEnds | src/data.ts:49-51 | Each entry carries the source and target ids of a step with its key |
| Data.LinkKeyInjective | src/data.ts:31-33 | When the sources contain no bar character, equal keys mean equal pairs |
| Data.KeysCollide | src/data.ts:31-33 | With the bar character inside ids, two different pairs (one ending its source with a bar, the other starting its target with one) share a key |
| Data.StepsTotalIsFlow | src/data.ts:60-71 | For bar-free ids, the steps of a pair's key total the pair's flow: each accepted path's instances once per position where a is followed by b |
| Data.AggregateValueIsFlow | src/data.ts:60-71 | The value of the link of (a, b) is the sum over accepted paths of instances times the number of positions where a is immediately followed by b; a pair without a link has zero such flow |
| Data.AggregateOnePerPair | src/data.ts:44-58 | No two output links share an ordered pair |
| Data.AggregateFirstSeenOrder | src/data.ts:44-73 | The links come in the order their pairs are first met, scanning accepted paths in input order and each path left to right |
| Data.AggregateColor | src/data.ts:39-53 | A link's colour is the one its pair's colour rule gives when the link is created |
| Data.LinkColorIsLastRule | src/data.ts:39-53 | A link's colour is that of the last colour rule for its pair when non-empty, and "gray" when there is no rule or its colour is empty |
| Data.RejectedPathAddsNothing | src/data.ts:60-71 | Removing a path that the predicate rejects, or that has fewer than two nodes, leaves the output unchanged |
| Data.SkipPath | src/data.ts:60-71 | Leaving out a path that the predicate rejects or that has fewer than two nodes leaves the steps of every prefix reaching past it unchanged |
| Data.BuildColorMap | src/data.ts:38-42 | The colour-rule loop builds the colour map, later rules overwriting earlier ones |
| Data.AddToLink | src/data.ts:45-67 | Get-or-create then `d.value += instances` is one step of the scan: a new key is appended with value 0 and its rule's colour, then the instances are added |
| Data.ScanPath | src/data.ts:62-69 | The inner loop adds the steps of one path to the table scanned so far |
| Data.ScanPaths | src/data.ts:60-71 | The loop over the paths leaves the table the scan of every accepted path's steps, in input order |
| Data.GenerateLinks | src/data.ts:37-75 | `generateLinks` returns the aggregation of the accepted paths |
| Data.Endpoints | src/data.ts:79-82 | The ids added to the set are, link by link, the source and then the target |
| Data.NodeListFacts | src/data.ts:77-83 | The node list names every endpoint and nothing else, each once, in first-appearance order (a link's source before its target), labelled by its annotation-free id |
| Data.AddId | src/data.ts:80-81 | `Set.add` appends an id to the insertion order unless it is already there |
| Data.GetNodesFromLinks | src/data.ts:77-84 | `getNodesFromLinks` returns the node list of the links |
| Data.KeyToValue | src/data.ts:103-107 | The lookup map holds exactly the keys of the links |
| Data.KeyToValueAt | src/data.ts:103-110 | With distinct keys, each link's key looks up that link's value |
| Data.LinkToHighlightedValue | src/data.ts:96-111 | Returns constant zero for an empty selection, else the values of a re-aggregation restricted to the paths that hold every selected id |
| Data.HighlightEmptyIsZero | src/data.ts:97-99 | With an empty selection every pair's highlighted value is 0 |
| Data.HighlightIsKeyTotal | src/data.ts:100-110 | With a non-empty selection, a key's highlighted value is the total of the accepted steps with that key, 0 for a key no accepted step has |
| Data.HighlightIsFlow | src/data.ts:100-110 | With a non-empty selection, the highlighted value of (a, b) is the flow of (a, b) through exactly the paths that contain every selected id somewhere |
| Data.HighlightOutsideLinksIsZero | src/data.ts:100-110 | A pair with no link in the full diagram has highlighted value 0 under every selection |
| Data.FlowSumMonotone | src/data.ts:101-102 | With non-negative instances, a predicate that accepts fewer paths gives no more flow, and flow is non-negative |
| Data.StepsKeyTotalMonotone | src/data.ts:100-102 | With non-negative instances, a predicate that accepts fewer paths gives every key a total no larger, and no total is negative |
| Data.HighlightWithinLink | src/data.ts:100-110 | With non-negative instances, every link's highlighted value is between 0 and its full value, for any ids |
| Data.GenerateData | src/data.ts:86-95 | `generateData` aggregates every path, derives the nodes from the links and passes the saved positions through |
| Data.GeneratedDataIsValid | src/data.ts:90-94 | What `generateData` produces always passes `makeFullData`, with every link kept and its colour unchanged |
| Data.GeneratedDataPasses | src/data.ts:90-94 | What `generateData` produces has distinct node ids that cover every link endpoint, so it passes `makeFullData` |
| Diagram.IdMapFacts | src/SankeyDiagram.tsx:54-58 | The id-to-node map's keys map to nodes with those ids, and every node's id is a key |
| Diagram.ResolveLinksFacts | src/SankeyDiagram.tsx:59-63 | When every endpoint is in the map, every link resolves to the nodes stored under its ids, in order |
| Diagram.ResolveLinksMiss | src/SankeyDiagram.tsx:45-63 | At the first link with an endpoint missing from the map, resolution throws for that id, its source before its target |
| Diagram.GraphOfFacts | src/SankeyDiagram.tsx:40-65 | `createGraph` throws exactly when validation does, with its error; otherwise the graph keeps the nodes and links in order, and each link's source and target nodes have its sourceId and targetId |
| Diagram.GraphOfValid | src/SankeyDiagram.tsx:40-65 | On validated data no lookup misses and the graph is built from that data |
| Diagram.IndexNodes | src/SankeyDiagram.tsx:54-58 | The node loop returns the graph nodes and the id-to-node map |
| Diagram.ResolveLinkList | src/SankeyDiagram.tsx:59-63 | The link loop resolves each link, throwing on the first miss |
| Diagram.CreateGraph | src/SankeyDiagram.tsx:40-65 | `createGraph` returns the graph of the data or the error it throws |
| Diagram.Overridden | src/SankeyDiagram.tsx:177-185 | A node with a saved fraction f gets y0 = f·height, and keeps its thickness y1 - y0 when both ends were defined; without a saved fraction it is unchanged; the id and label stay |
| Diagram.OverriddenKeepsIds | src/SankeyDiagram.tsx:176-186 | The override keeps every node's id |
| Diagram.ApplySavedPositions | src/SankeyDiagram.tsx:176-186 | The override loop rewrites the node array in place with every node overridden |
| Diagram.PositionsAt | src/SankeyDiagram.tsx:133-137 | With distinct ids, the recorded positions hold exactly the ids of nodes with a defined top, each mapped to y0 / height |
| Diagram.RecordAfterOverride | src/SankeyDiagram.tsx:176-186 | Recording right after the override reproduces every saved fraction, for the same height |
| Diagram.PushEmitted | src/SankeyDiagram.tsx:200-211 | The callback for one link appends the link, then three scaled copies when its highlighted value is positive |
| Diagram.GenerateFakeLinks | src/SankeyDiagram.tsx:198-213 | `generateFakeLinks` returns the links, each followed by its highlight copies |
| Diagram.FakeLinksLength | src/SankeyDiagram.tsx:198-213 | The output has one entry per link plus three per link with a positive highlighted value |
| Diagram.FakeLinksAt | src/SankeyDiagram.tsx:198-213 | The entry of link k starts after those of the links before it and is that link's emitted entry; the next link's entry follows |
| Diagram.EmittedShape | src/SankeyDiagram.tsx:201-210 | A link's entry starts with the link; it has 4 entries exactly when the highlighted value is positive, the copies being the link with width·(hv / value), and 1 otherwise |
| Diagram.UpdateFakeLinks | src/SankeyDiagram.tsx:217-224 | `updateFakeLinks` overwrites only the bands of the overlay array, index by index, from a fresh generation |
| Diagram.SameExceptBandsHighlight | src/SankeyDiagram.tsx:266-267 | A layout update that only moves bands changes no link's endpoints or highlighted value |
| Diagram.UpdateMatchesFreshGeneration | src/SankeyDiagram.tsx:217-224 | When the links moved only their bands, the updated overlay equals a fresh generation: the copies follow their link's band and keep their width |
| DiagramComponent.Toggled | src/SankeyDiagram.tsx:319-324 | Toggling flips the membership of exactly that id and leaves every other id as it was |
| DiagramComponent.ToggleTwice | src/SankeyDiagram.tsx:319-324 | Toggling the same id twice restores the selection |
| DiagramComponent.GestureIsClick | src/SankeyDiagram.tsx:257-293 | The flag is set at drag start and ends true exactly when none of the moves had a non-zero dx or dy |
| DiagramComponent.CreatedGraph | src/SankeyDiagram.tsx:173 | The graph built from the aggregated data has links pointing into its node list and distinct node ids |
| DiagramComponent.CreatedGraphIs | src/SankeyDiagram.tsx:173 | `createGraph` never throws on what `generateData` produces |
| DiagramComponent.CreatedGraphScaleDefined | src/SankeyDiagram.tsx:202-206 | With non-negative instances, every link of the created graph with a positive highlighted value has a non-zero value, so the width of its copies is defined |
| DiagramComponent.LaidOutScaleDefined | src/SankeyDiagram.tsx:173-206 | With non-negative instances, the layout and its update keep every link's endpoints in the node list and every highlighted link's copy width defined |
| DiagramComponent.SameShapeFacts | src/SankeyDiagram.tsx:173 | A layout of the created graph keeps its endpoints and its node ids |
| DiagramComponent.PlacedNodes | src/SankeyDiagram.tsx:173-186 | The laid-out nodes, in a new array, moved to their saved positions |
| DiagramComponent.Overlay | src/SankeyDiagram.tsx:215 | The overlay links, generated once, in a new array |
| DiagramComponent.DragIsDrawn | src/SankeyDiagram.tsx:263-267 | Moving one node's top and updating the overlay from links that only changed their bands keeps the overlay equal to a fresh generation |
| DiagramComponent.MoveTop | src/SankeyDiagram.tsx:263 | `d.y0 += dy` writes only that node's top |
| DiagramComponent.Component.constructor | src/SankeyDiagram.tsx:142 | The component starts with no graph and an empty selection |
| DiagramComponent.Component.RecordPositions | src/SankeyDiagram.tsx:128-140 | Each node with a defined top maps to y0 / height of the current drawing; the result is empty when no graph exists |
| DiagramComponent.Component.RegeneratedRecordsSaved | src/SankeyDiagram.tsx:151-186 | After a regeneration, recording again gives back the saved fraction of every node that had one |
| DiagramComponent.Component.Regenerate | src/SankeyDiagram.tsx:144-313 | Takes as saved positions the recorded ones, or the data's when no graph exists; places the laid-out nodes there; installs the highlight of the selection and the overlay generated from the updated links; the selection stays |
| DiagramComponent.Component.Redraw | src/SankeyDiagram.tsx:176-215 | Moves the laid-out nodes to their saved positions; installs the links, the highlight and the overlay generated from them; resets the click flag |
| DiagramComponent.Component.ToggleSelection | src/SankeyDiagram.tsx:319-326 | Flips the id in the selection, then regenerates from the positions recorded before |
| DiagramComponent.Component.DragStart | src/SankeyDiagram.tsx:281-282 | A drag start sets the click flag and changes nothing else |
| DiagramComponent.Component.DragMove | src/SankeyDiagram.tsx:259-269 | A move with non-zero dx or dy clears the click flag; the node's top moves by dy; the overlay stays equal to a fresh generation from the updated links; nothing else changes |
| DiagramComponent.Component.DragEnd | src/SankeyDiagram.tsx:289-293 | A gesture that is still a click toggles the node and regenerates; otherwise nothing changes |

## Left out

- The d3-sankey layout (`sankey(...)`, `sankey.update`, its extent, node width and padding) is a foreign library whose code is not part of this model. Its results enter as parameters: `laidOut` and `relaid` in `Regenerate`, `ToggleSelection` and `DragEnd`, and `relaid` in `DragMove`. The model assumes only that the layout keeps the nodes and links and changes positions and bands.
- DiagramComponent.Component.Regenerate, DiagramComponent.Component.ToggleSelection, DiagramComponent.Component.DragEnd: assume that the d3-sankey layout succeeds. The code does not check the graph for cycles. A path that revisits a node (`["A", "B", "A"]`, or the self-pair `["A", "A"]`) gives a cyclic graph, for which d3-sankey produces no layout. `regenerate` then stops partway: `this.svg` has already been replaced by the new, empty svg (`src/SankeyDiagram.tsx:161`), but `this.graph` still holds the previous graph (or nothing, on the first call), because the assignment at `src/SankeyDiagram.tsx:173` is never reached. The contracts of these three members cover only inputs that can be laid out.
- SVG and DOM construction, `d3.format`, `sankeyLinkHorizontal`, text and rect attributes, node colours and the `alert` on click only render, so they are not modelled. The height the React ref reports enters as the `height` parameter. The width it reports only sizes the layout's extent (part of the d3-sankey layout above) and places the labels.
- React lifecycle, the resize listener (`resize` only calls `regenerate`), `componentDidUpdate` and ref plumbing are not modelled.
- `src/App.tsx` (message-event input, `JSON.parse`) and `src/ModalDialog.tsx` are not part of this model. Neither is `JSON.stringify` in `clickedSavePositions`, which only displays what `RecordPositions` returns.
- IEEE floating point is not modelled: numbers are exact reals.
  - Division by zero, and the NaN it produces, are excluded by a requirement instead.
  - For `recordPositions`, the drawing height is non-zero (`Recordable`).
  - For the overlay widths, every link with a positive highlighted value has a non-zero value (`ScaleDefined`). `CreatedGraphScaleDefined` and `LaidOutScaleDefined` prove this whenever no path has negative instances.
- DiagramComponent.Component.DragMove: requires the dragged node's top to be defined. In the source `undefined + dy` is NaN, which is not modelled.
- DiagramComponent.Component.RecordPositions: divides by `svgHeight`, the height the last regeneration drew at. The source divides by `svg.clientHeight`, the rendered height of the svg element that `regenerate` created with `height` as its height attribute (`src/SankeyDiagram.tsx:131-132`, `158-161`). The model assumes the browser renders that svg at exactly that height. The round trip in `RegeneratedRecordsSaved` depends on this assumption.
- Keys of a JavaScript object that collide with prototype members (an id such as `constructor` in the saved positions) are not modelled; saved positions are a plain map.
- Data.AggregateValueIsFlow, Data.StepsTotalIsFlow, Data.HighlightIsFlow: require that no node id contains '|'. The source's string keys merge pairs whose joined text coincides, so the pair-level sums only hold under that assumption. `KeysCollide` states the collision itself. The per-link bound `HighlightWithinLink` is stated on keys and needs no such assumption.
- Aliasing between the overlay entries is not modelled: the three copies of one highlighted link are one object in the source, and the base entries are the graph's own link objects. The overlay is a separate array of values. Since `updateFakeLinks` writes the same band into every entry of one link, this has no effect on the resulting bands (`UpdateMatchesFreshGeneration`).
- `mightBeClick` is a local variable of each `regenerate` call, captured by the drag handlers. It is modelled as a field of the component that `Regenerate` resets to false.
- DiagramComponent.Component.Regenerate: instead of restating the recorded fractions in its own contract, it states the new state as `Regenerated`. The lemma `RegeneratedRecordsSaved` gives the round trip from saved positions to recorded ones.
