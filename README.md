# cpacs2to3 core, modelled in Dafny

cpacs2to3 converts CPACS aircraft-description files from schema version 2
to version 3. This project models the parts of the converter that are
string and tree logic, and proves properties about them:

- **The version-upgrade graph** (`Graph`). It is a directed graph whose
  edges are stored per source node in insertion order. `FindPath` is a
  depth-first search that never re-enters a node already on the path. The
  2.x and 3.x version nodes decide which version strings they stand for.
- **The uID generator** (`UidGenerator`). It keeps the set of uIDs in use.
  A new uID is the uID of the nearest ancestor that carries one, then `_`,
  the element name and the least counter value that gives a free uID.
- **The path-string helpers** (`Paths`, `TixiHelper`). They split an
  element path such as `/cpacs/header/updates/update[2]` into parent and
  last step, strip a `[n]` predicate (the abbreviated step of XPath 1.0,
  section 2.5), find an element's index among its siblings, and walk up to
  the nearest ancestor with a uID.
- **The structural CPACS 2→3 rewrites** (`ConverterUids`,
  `ConverterIsoLines`, `ConverterRelHeight`, `ConverterHeader`). These are
  the uID back-fill, the promotion of scalar eta/xsi values to iso lines,
  the `elementUID` to eta/referenceUID conversion, the spar-position and
  stringer conversions to relative-height points, the version bump and the
  changelog entry.

The TiXI document handle is a class, `Tixi.Handle`, that holds the
document as an ordered tree (`Xml.Element`: name, attributes, text,
children). Each TiXI call the converter uses is a method that edits the
tree in place, or a function that reads it. A path is absolute. A step
`name[k]` picks the k-th child of that name. A plain step `name` must pick
the only child of that name. Every converter step that changes the
document is a method proved against a function that gives the document
after that step. The lemmas beside each function state what the step does
to the document.

Each XPath query (`get_all_paths_matching`) is given to the model. The
`AddMissingUids` and `FillAll` methods take the matched paths as a
sequence. The iso-line and relative-height conversions take a function
`query(document, expression)`, because their queries are evaluated on the
document as the previous step left it. Numbers are carried as the text of
the element they are read from. The constants 1.0 and 0.0 are written `1`
and `0`, as `%g` writes them.

Where the Python code raises, the model returns an error value. The
`Wrappers.Error` constructors are named after the failing call. When a
method returns an error, the model says nothing about the document
afterwards, because the exception ends the conversion and nothing is saved.

The model follows the code in two places where its documentation
promises more:
- Promoting eta/xsi values to iso lines is not repeatable. A second pass
  over a converted element fails, because `getDoubleElement` finds no
  number there (`ConverterIsoLines.IsoLineNotRepeatable`).
- The unescaped `.` in the 2.x version pattern matches any character
  except a newline, not only a dot (`Graph.Cpacs2MatchesIff`).

## Model

| member | source | states |
|---|---|---|
| Graph.Graph.AddEdge | cpacs2to3/graph.py:7-13 | afterwards get_edge(a, b) is the new edge and every other pair's edge is unchanged; a becomes a source node; a replaced pair keeps its place in the successor order |
| Graph.StoreTargets | cpacs2to3/graph.py:10-13 | storing an edge for b appends b to the successor order when b is new and keeps the order otherwise |
| Graph.StoreLookup | cpacs2to3/graph.py:13-21 | after storing e for b, looking up b gives e and looking up any other node gives what it gave before |
| Graph.Graph.GetEdge | cpacs2to3/graph.py:15-21 | an edge is returned exactly when a is a source and b one of its successors, and it is the edge stored for b |
| Graph.Graph.GetNode | cpacs2to3/graph.py:27-28 | succeeds exactly for source nodes (KeyError otherwise); the successors it lists are exactly the edge targets |
| Graph.Graph.SearchBaseCases | cpacs2to3/graph.py:30-35 | the path from a node to itself is that node alone; a node that is the source of no edge leads to no other node |
| Graph.Graph.FindPath | cpacs2to3/graph.py:30-41 | terminates on any graph, cycles included; gives the first path of the depth-first search in insertion order; a result is the path so far followed by a path that starts at start, ends at end, follows edges and repeats no node; no result exactly when no such path avoids the nodes already visited |
| Graph.MatchesAtStartIff | cpacs2to3/graph.py:55 | re.match of a fixed sequence of character classes succeeds exactly when the string is long enough and each leading character is in its class |
| Graph.OptionalGroupIrrelevant | cpacs2to3/graph.py:55 | the trailing optional group "(.[0-9])?" never decides whether the match succeeds |
| Graph.Cpacs2MatchesIff | cpacs2to3/graph.py:54-56 | the 2.x node accepts a version string exactly when it has at least three characters, starts with '2', has any character except a newline second and a digit third |
| Graph.Cpacs3MatchesIff | cpacs2to3/graph.py:63-64 | the 3.x node with major version m accepts exactly the strings that start with m |
| Graph.VersionNodesDisjoint | cpacs2to3/graph.py:50-64 | no string is accepted both by the 2.x node and by a 3.x node whose major version does not start with '2' |
| UidGenerator.UIDGenerator.constructor | cpacs2to3/uid_generator.py:2-4 | a new generator has no uIDs and a zero counter |
| UidGenerator.UIDGenerator.Register | cpacs2to3/uid_generator.py:30-41 | a fresh uID is added and nothing else; a registered one raises the duplicate error and leaves the set unchanged; the counter is never touched |
| UidGenerator.UIDGenerator.MakeUniqueUid | cpacs2to3/uid_generator.py:22-28 | returns proposed + k for the least k >= 1 whose result is not registered, and changes nothing |
| UidGenerator.CandidateInjective | cpacs2to3/uid_generator.py:24-27 | different counter values give different candidate uIDs |
| UidGenerator.CandidatesCount | cpacs2to3/uid_generator.py:24-27 | the first n candidates are n distinct strings |
| UidGenerator.CandidatesBound | cpacs2to3/uid_generator.py:25-27 | if the first k candidates are all taken, at least k uIDs are registered, so the counter loop ends |
| UidGenerator.FirstFreeExists | cpacs2to3/uid_generator.py:22-28 | whatever is registered, a first free candidate exists |
| UidGenerator.FirstFreeUnique | cpacs2to3/uid_generator.py:22-28 | the first free candidate is unique, so make_unique_uid is determined by the registered set and the proposal |
| UidGenerator.UIDGenerator.Create | cpacs2to3/uid_generator.py:6-20 | succeeds exactly when the ancestor walk succeeds; returns the first free uID built from the nearest ancestor's uID, '_' and the element name without its index; the uID was not registered before and is the only one added, so its register call never raises |
| Text.DigitsValueOfNatToString | cpacs2to3/uid_generator.py:24 | "%d" of a natural number is a digit string that reads back as that number |
| Text.NatToStringInjective | cpacs2to3/uid_generator.py:24 | different numbers have different "%d" strings |
| Paths.ParentElementRoundTrip | cpacs2to3/tixi_helper.py:23-51 | for a path with a '/', parent_path + "/" + element_name gives the path back, the name has no '/', and the parent is shorter |
| Paths.ParentElementNoSlash | cpacs2to3/tixi_helper.py:23-51 | for a path without '/', element_name is the whole path and parent_path drops only its last character |
| Paths.TrimSlashes | cpacs2to3/tixi_helper.py:32-33 | the trimmed path is a prefix of the input that does not end in '/', and only slashes were removed |
| Paths.StripIndex | cpacs2to3/tixi_helper.py:39-41 | the name is a prefix of the step; it is shorter only when a '[' at a position other than 0 was cut, and no '[' follows the cut; a non-empty step keeps a non-empty name |
| Paths.ParentChildSpec | cpacs2to3/tixi_helper.py:31-43 | the split succeeds exactly when a '/' is left after trimming slashes; then parent + "/" + raw step rebuilds the trimmed path, the child is the raw step without its "[n]", and the parent is strictly shorter than the input |
| Paths.SplitParentChildPath | cpacs2to3/tixi_helper.py:31-43 | the slash-stripping loop and the split give that split, with the error of an empty path and of a path without '/'; it is also get_parent_child_path of cpacs2to3/uid_generator.py:46-59 and of cpacs2to3/cpacs_converter.py:380-392 |
| Paths.ResolveXPaths | cpacs2to3/tixi_helper.py:10-11 | the empty expression yields no paths without consulting the XPath engine |
| TixiHelper.FirstNamed | cpacs2to3/tixi_helper.py:63-65 | finds the first child with the name, and no earlier child has it |
| TixiHelper.IndexByName | cpacs2to3/tixi_helper.py:54-66 | is the 1-based position of the first child with the name, or the child count when there is none |
| TixiHelper.ElementIndexUnique | cpacs2to3/tixi_helper.py:54-66 | only one index answers that description, so element_index depends on the children's names alone |
| TixiHelper.IndexedStepIndex | cpacs2to3/tixi_helper.py:54-66 | a last step that carries "[n]" names no child, so element_index gives the child count |
| TixiHelper.ChildIndex | cpacs2to3/tixi_helper.py:62-66 | the loop over the children succeeds exactly when the parent exists and returns that index |
| TixiHelper.ElementIndex | cpacs2to3/tixi_helper.py:54-66 | element_index, and elementIndexInParent of cpacs2to3/cpacs_converter.py:203-215: succeeds exactly when the parent path leads to an element, and returns the index of the first child named like the last step |
| TixiHelper.ChainShortens | cpacs2to3/tixi_helper.py:69-74 | every path of the upward walk is a prefix of the start, each strictly shorter than the one before, so the walk ends |
| TixiHelper.AncestorUidNearest | cpacs2to3/tixi_helper.py:69-81 | the walk yields the uID of the first path on the way that carries one, or '' when the walk reaches the root without finding one |
| TixiHelper.AncestorUidFails | cpacs2to3/tixi_helper.py:69-74 | the walk fails only when no path on the way has a uID and the last one cannot be split, and then it fails with that split error |
| TixiHelper.NextParentUid | cpacs2to3/tixi_helper.py:69-81 | returns the nearest ancestor uID (or '') and the element name without its index, and does not modify the document |
| ConverterUids.LegacyUIDGenerator.constructor | cpacs2to3/cpacs_converter.py:28-30 | a new generator has no uIDs and a zero counter |
| ConverterUids.LegacyUIDGenerator.Register | cpacs2to3/cpacs_converter.py:53-60 | never fails; adds the uID, and registering a registered uID changes nothing |
| ConverterUids.LegacyUIDGenerator.Create | cpacs2to3/cpacs_converter.py:32-51 | like the newer create: the first free nearest-ancestor-uID + '_' + name + k, not registered before, and the only uID added |
| ConverterUids.WithUidSpec | cpacs2to3/cpacs_converter.py:119-123 | after add_uid the element has a uID exactly when it exists; the uID is the old one if it had one, else the given one; every path leads where it led |
| ConverterUids.WithUidIdempotent | cpacs2to3/cpacs_converter.py:119-123 | add_uid twice on a path, whatever the second uID, is add_uid once |
| ConverterUids.AddUid | cpacs2to3/cpacs_converter.py:119-123 | the document afterwards is the one described above |
| ConverterUids.BackfillStep | cpacs2to3/cpacs_converter.py:123 | adding a fresh uID to a matched element that lacks one keeps the document back-filled: paths, names and texts are unchanged, only matched elements gained uIDs, and no two gained the same |
| ConverterUids.FillOne | cpacs2to3/cpacs_converter.py:130 | one create-then-add_uid call keeps the back-fill invariant and gives the path a uID if its element exists; it fails only where create fails, and then changes nothing |
| ConverterUids.FillAll | cpacs2to3/cpacs_converter.py:169-171 | the loop over matched paths keeps the back-fill invariant, and on success every matched element has a uID |
| ConverterUids.AddMissingUids | cpacs2to3/cpacs_converter.py:126-173 | over the transformations (with rotation, scaling and translation) and then the other matched elements: no uID is overwritten and nothing else changes; the added uIDs are distinct, newly registered, and only on matched elements; on success every matched element has a uID |
| ConverterIsoLines.LastMatchInnermost | cpacs2to3/cpacs_converter.py:181 | the last match re.finditer yields is the last match anywhere in the path: none starts after its end |
| ConverterIsoLines.CsOrTedPathSpec | cpacs2to3/cpacs_converter.py:181-182 | the path found ends with the last componentSegment or trailingEdgeDevice step (with an optional [n]) that is followed by '/'; none is found exactly when there is no such step |
| ConverterIsoLines.CsOrTedPathEnd | cpacs2to3/cpacs_converter.py:181-182 | the path found stops one character before the end of the last match |
| ConverterIsoLines.FindNearestCsOrTedUid | cpacs2to3/cpacs_converter.py:175-184 | succeeds exactly when such an enclosing step exists and its element carries a uID |
| ConverterIsoLines.RecreateInPlace | cpacs2to3/cpacs_converter.py:306-309 | for a plain last step, the index found is the element's own position, and removing it and creating an empty element of that name at that index puts it back in the same place |
| ConverterIsoLines.IsoLineCases | cpacs2to3/cpacs_converter.py:300-313 | converting one path succeeds exactly when the nearest component segment or TED uID and the numeric value can be read and the names are valid; the element at that position is then replaced by an element of the same name holding the value and the referenceUID |
| ConverterIsoLines.IsoLineReadBack | cpacs2to3/cpacs_converter.py:304-313 | afterwards the path leads to the same position, the element has no text and two children, the value's text is carried over and still reads as a number, and referenceUID is the nearest component segment or TED uID |
| ConverterIsoLines.IsoLineNotRepeatable | cpacs2to3/cpacs_converter.py:304 | converting the same path a second time fails |
| ConverterIsoLines.IsoLineElsewhere | cpacs2to3/cpacs_converter.py:306-313 | elements neither on the line from the root to the converted element nor below it are unchanged; its ancestors keep their names, attributes and text |
| ConverterIsoLines.ConvertIsoLine | cpacs2to3/cpacs_converter.py:300-313 | one loop step of convertIsoLineCoords changes the document exactly as described above |
| ConverterIsoLines.RecreateAsIsoLine | cpacs2to3/cpacs_converter.py:306-313 | the remove, create and add calls put the iso line where the element was, and fail only on an invalid name |
| ConverterIsoLines.FindSegmentReference | cpacs2to3/cpacs_converter.py:233-245 | the first segment whose toElementUID matches gives eta 1 and its uID; otherwise the first whose fromElementUID matches gives eta 0 and its uID; otherwise eta 0 and 'TODO' |
| ConverterIsoLines.ElementUidConvertedAt | cpacs2to3/cpacs_converter.py:228-252 | the new element is created under the elementUID's parent at the index the elementUID had, with the segment reference found after the elementUID was removed |
| ConverterIsoLines.ElementUidInPlace | cpacs2to3/cpacs_converter.py:228-252 | when no other sibling has the new name, the elementUID is replaced in place by an element with exactly the children eta and referenceUID |
| ConverterIsoLines.ElementUidClash | cpacs2to3/cpacs_converter.py:249-251 | when another sibling already has the new name, the new element's path is ambiguous and the conversion fails |
| ConverterIsoLines.ConvertElementUid | cpacs2to3/cpacs_converter.py:218-252 | convertElementUidToEtaAndUid changes the document exactly as described above, or fails where the Python code raises |
| ConverterIsoLines.WriteEtaIsoLine | cpacs2to3/cpacs_converter.py:248-252 | the create and add calls write the described iso line |
| ConverterIsoLines.FoldAppend | cpacs2to3/cpacs_converter.py:300 | handling the paths of a then those of b is handling a, then b on the result; a failure in a stops the run |
| ConverterIsoLines.FoldFails | cpacs2to3/cpacs_converter.py:300 | an exception on one path ends the whole run |
| ConverterIsoLines.ConvertPaths | cpacs2to3/cpacs_converter.py:300-313 | the loop over matched paths applies the step to each in order and stops at the first failure |
| ConverterIsoLines.ConvertEtaXsiIsoLines | cpacs2to3/cpacs_converter.py:287-322 | converts the eta values, then the xsi values, then elementStartUID and elementEndUID, each query run on the document the previous stage left |
| ConverterRelHeight.RelHeightPointAppended | cpacs2to3/cpacs_converter.py:343-348 | when no child has the point's name, creating it and adding eta, xsi and referenceUID appends exactly that point as the last child |
| ConverterRelHeight.WriteRelHeightPoint | cpacs2to3/cpacs_converter.py:373-378 | the create and three add calls write the described point |
| ConverterRelHeight.RemovedSoleChild | cpacs2to3/cpacs_converter.py:334 | removing the only child of a name removes that child and nothing else, and the parent path still leads to the parent |
| ConverterRelHeight.FindNearestAfter | cpacs2to3/cpacs_converter.py:341 | replacing the spar position does not change the nearest component segment or TED uID read afterwards |
| ConverterRelHeight.SparPositionExplicit | cpacs2to3/cpacs_converter.py:331-348 | a spar position with one eta and one xsi loses both and gains, as its last child, a sparPoint with those values and the nearest component segment or TED uID |
| ConverterRelHeight.ConvertSparPosition | cpacs2to3/cpacs_converter.py:331-352 | one loop step of the spar-position conversion: the eta branch or the elementUID branch, as the source chooses between them |
| ConverterRelHeight.WriteSparPointFromEta | cpacs2to3/cpacs_converter.py:336-348 | the eta branch: eta removed after being read, then the sparPoint written |
| ConverterRelHeight.WriteSparPointFromUid | cpacs2to3/cpacs_converter.py:349-352 | the elementUID branch: the elementUID converted to sparPoint, then the xsi added to it |
| ConverterRelHeight.TakeOptionalNumber | cpacs2to3/cpacs_converter.py:359-369 | a missing value gives "0" and leaves the document unchanged; a present one is read and then removed |
| ConverterRelHeight.StringerWithoutPitch | cpacs2to3/cpacs_converter.py:356-357 | a stringer without pitch is left unchanged |
| ConverterRelHeight.StringerDefaults | cpacs2to3/cpacs_converter.py:359-378 | a stringer with pitch but no eta or xsi gains a refPoint with eta 0, xsi 0 and the nearest uID |
| ConverterRelHeight.StringerExplicitValues | cpacs2to3/cpacs_converter.py:359-378 | a stringer with pitch, one eta and one xsi loses both and gains a refPoint holding them and the nearest uID |
| ConverterRelHeight.ConvertStringer | cpacs2to3/cpacs_converter.py:355-378 | one loop step of the stringer conversion changes the document as described |
| ConverterRelHeight.ConvertSparPositions | cpacs2to3/cpacs_converter.py:331-352 | applies the spar-position step to each matched path in order and stops at the first failure |
| ConverterRelHeight.ConvertStringers | cpacs2to3/cpacs_converter.py:355-378 | applies the stringer step to each matched path in order and stops at the first failure |
| ConverterRelHeight.ConvertEtaXsiRelHeightPoints | cpacs2to3/cpacs_converter.py:324-378 | the spar positions first, then the stringers matched on the document that leaves |
| ConverterHeader.WithVersion3Reads | cpacs2to3/cpacs_converter.py:81-87 | afterwards /cpacs/header/cpacsVersion leads to the same element and reads "3.0" |
| ConverterHeader.WithVersion3Idempotent | cpacs2to3/cpacs_converter.py:81-87 | bumping the version twice is bumping it once |
| ConverterHeader.ChangeCpacsVersion | cpacs2to3/cpacs_converter.py:81-87 | change_cpacs_version changes the document as described and fails only where updateTextElement fails |
| ConverterHeader.ChangelogCreatesUpdates | cpacs2to3/cpacs_converter.py:95-96 | a header without updates gains an updates element holding exactly the new entry |
| ConverterHeader.ChangelogAppendsOne | cpacs2to3/cpacs_converter.py:98-100 | exactly one update is appended as the last child of updates, and update[n], n being the number of updates, leads to it |
| ConverterHeader.WriteEntry | cpacs2to3/cpacs_converter.py:101-105 | the new update holds modification, creator, timestamp, version "ver1" and cpacsVersion "3.0", in that order |
| ConverterHeader.AddChangelogUnder | cpacs2to3/cpacs_converter.py:95-105 | the changelog calls under a given header change the document as described |
| ConverterHeader.AddChangelog | cpacs2to3/cpacs_converter.py:90-105 | add_changelog under /cpacs/header |

## Left out

- cpacs2to3/convert_coordinates.py and cpacs2to3/material.py: TiGL/OpenCASCADE geometry calls and numpy floating-point algebra.
- `get_new_cs_coordinates`, `convertCSEtaCoord`, `convertCSXsiCoord` and `convertEtaXsiValues` (cpacs_converter.py:395-472): geometry-kernel evaluation on floats.
- `main` (cpacs_converter.py:474-520): command line and file I/O.
- `get_all_paths_matching` (cpacs_converter.py:108-116) and `resolve_xpaths` beyond the empty expression (tixi_helper.py:13-20): XPath evaluation. Their results are inputs: a sequence of paths, or the `query` function. Two of the converter's expressions end in a stray `|` (cpacs_converter.py:319, 321), which makes them invalid XPath. `get_all_paths_matching` then most likely catches the engine's error and returns no paths, so the program as written probably never runs the elementStartUID and elementEndUID conversions. The model converts whatever paths `query` gives for those expressions.
- `register_uids` (cpacs_converter.py:69-78): one `register` call per matched path, on the never-failing legacy generator. It adds nothing beyond `ConverterUids.LegacyUIDGenerator.Register`.
- The TiXI library is not part of this model. `Tixi.Handle` assumes these semantics: a plain step must name a unique child; checkAttribute on a missing element is false; names may not contain '/', '[' or ']'; createElementAtIndex accepts indexes 1 to n+1.
- A plain step that names several children: TiXI reports the path as not unique, and checkElement and checkAttribute raise. In the model such a path leads nowhere, so `CheckElement` and `CheckAttribute` answer false and the conversion goes on. `ConverterRelHeight.TakeOptionalNumber` takes the default "0" for two `eta` or two `xsi` children. `ConverterRelHeight.StringerWithoutPitch` leaves a stringer with two `pitch` children alone. `ConverterUids.AddUid` skips an element whose path is ambiguous, such as a transformation with two `rotation` children. `ConverterRelHeight.ConvertSparPosition` takes the elementUID branch for two `eta` children. `ConverterHeader.AddChangelogUnder` creates a third `updates` beside two existing ones before it fails. In each of these cases the program raises instead.
- `%g` formatting of doubles (cpacs_converter.py:251, 312, 346-347, 352, 376-377): the program rounds every value it writes to six significant digits; the model copies the text it read. So `ConverterIsoLines.IsoLineReadBack`, `ConverterRelHeight.SparPositionExplicit` and `ConverterRelHeight.StringerExplicitValues` state that the text is carried over, where the program writes "0.123457" for "0.123456789" and "0.5" for "0.50". Text counts as a number when it starts as one: an optional sign, then a digit, or a '.' and a digit. The rest of the text is not checked.
- `\d` in the pattern of cpacs_converter.py:181 matches any Unicode decimal digit; `ConverterIsoLines.MatchAt` accepts ASCII digits only.
- `datetime.now()`: the changelog timestamp is a parameter.
- The warning printed when no wing segment references an element (cpacs_converter.py:243) and the progress prints: console output only.
- The state of the document after an exception: methods promise nothing about it. The `except Tixi3Exception` of cpacs_converter.py:172-173 is not modelled: the errors the model's `create` can raise are Python IndexError/ValueError, which it does not catch.
- Edge keyword arguments (graph.py:44-47): an edge is a value of a type parameter `E`.
- cpacs_converter.py at the repository root, cpacs2to3/tools/fix_errors.py, the tests and setup.py: a script duplicate, a CLI wrapper and fixtures. The orchestrator, `uid_manager`, `fix_empty_elements` and `convert_cpacs_xml` are not part of this model.
