# Skyfield SPICE kernel segment graph

This project models the part of Skyfield's `SpiceKernel` that turns a list of
decoded SPK segments into a hierarchy of bodies and answers `eph[...]`.

A segment gives the position of a `target` body relative to a `center` body
over a time interval. It is read from a kernel file such as `de421.bsp`.
Body codes are NAIF integers. Code 0 is the solar-system barycenter, the root
of the hierarchy.

The kernel owns its `segments` list. Its user may replace the list or extend
it. Everything else is recomputed from the list on each access:

- `codes`: every center and target of the list;
- `code in eph`: membership in `codes`;
- `names()`: a dictionary from each code to its names in the body-name table;
- `repr(eph)`: the class name and the distinct source files, in first-use order;
- `str(eph)`: one block per source file, with one `center -> target` line per segment;
- `eph[code_or_name]`: the chain of edges from the barycenter out to the body.

An edge is one bare segment, or a Stack. A Stack groups two or more segments
for the same (center, target) pair over disjoint times. It answers each query
time from the member that covers that time, and it keeps a reference to the
kernel it came from.

A lookup has two kinds of success:

- a body one edge from the barycenter is returned as that edge;
- a body further out is returned as a VectorSum, whose components run from
  the barycenter outward and whose positions add up.

A lookup fails with a KeyError in two cases:

- the code is not in `codes`;
- no chain of segments connects the barycenter to the body.

Name keys are upper-cased before they are looked up.

Modules:

- `Wrappers`: Option and Result.
- `Segments`: codes, times, vectors, segments, keys and errors.
- `Names`: the name table.
- `Stacks`: edges, Stack building and time routing.
- `VectorSums`: lookup results and their evaluation.
- `Views`: codes, `names()`, the file list, repr and the str summary.
- `Resolution`: the edge for one body.
- `Lookups`: the walk to the barycenter and `eph[...]`.
- `Kernel`: the `SpiceKernel` class.
- `Scenarios`: the four sessions of `skyfield/tests/test_jpllib.py`, replayed on stand-in kernels.

## Model

| member | source | states |
|---|---|---|
| Kernel.SpiceKernel.constructor | skyfield/tests/test_jpllib.py:36 | a kernel starts out holding the segments read from its file |
| Kernel.SpiceKernel.Replace | skyfield/tests/test_jpllib.py:37-42 | assigning `segments` replaces the list; afterwards `code in eph` holds exactly for the centers and targets of the new list, so nothing stale survives |
| Kernel.SpiceKernel.Extend | skyfield/tests/test_jpllib.py:63-80 | extending appends the new segments; `codes` grows by exactly their codes, the files already shown keep their place at the front of the repr file list, and the old repr text without its closing bracket starts the new repr text |
| Kernel.SpiceKernel.Codes | skyfield/tests/test_jpllib.py:42 | `eph.codes` holds a code exactly when some current segment has it as center or target |
| Kernel.SpiceKernel.Contains | skyfield/tests/test_jpllib.py:40-41 | `code in eph` holds exactly when some current segment starts or ends at the code |
| Kernel.SpiceKernel.NameMap | skyfield/tests/test_jpllib.py:43-48 | `names()` has a key exactly for each code that is in the kernel and in the name table, and its value holds exactly that code's names |
| Kernel.SpiceKernel.Repr | skyfield/tests/test_jpllib.py:50 | `repr(eph)` opens with `<SpiceKernel`, ends with `>`, and is `<SpiceKernel>` exactly when the kernel has no segments |
| Kernel.SpiceKernel.Get | skyfield/tests/test_jpllib.py:57-59 | `eph[key]` fails with the missing-key error exactly when the key's code is not in the kernel; every Stack in a result refers back to this kernel |
| Views.Codes | skyfield/tests/test_jpllib.py:42 | a code is in `codes` exactly when some current segment has it as center or target |
| Views.CodesOfAppend | skyfield/tests/test_jpllib.py:66-72 | the codes of an extended list are the old codes together with the codes of the added segments |
| Views.NamesView | skyfield/tests/test_jpllib.py:43-48 | `names()` has a key for each current code the name table knows, and each value holds exactly that code's names from the table |
| Views.Files | skyfield/tests/test_jpllib.py:50 | the repr file list holds each source file of the current segments exactly once |
| Views.FilesInOrderOfFirstUse | skyfield/tests/test_jpllib.py:80 | the files appear in the order in which the segment list first uses them |
| Views.FilesOfAppend | skyfield/tests/test_jpllib.py:65-66 | extending the list keeps the files already shown, in order, as a prefix of the new file list |
| Views.FirstUse | skyfield/tests/test_jpllib.py:80 | the index returned is the first segment read from that file |
| Views.LinesFrom | skyfield/tests/test_jpllib.py:81-88 | a file's block lists a line for each segment read from that file, and for no other |
| Views.LinesFromAppend | skyfield/tests/test_jpllib.py:81-88 | a file's lines for a joined list are its lines for the first part followed by its lines for the second, so lines keep list order |
| Views.LinesFromSnoc | skyfield/tests/test_jpllib.py:81-88 | one more segment adds its line at the end of its own file's block and changes no other block |
| Views.LinesFromSingle | skyfield/tests/test_jpllib.py:81-88 | a one-segment list gives its file exactly that segment's line, and other files none |
| Views.SummaryShowsEverySegment | skyfield/tests/test_jpllib.py:81-88 | the blocks together hold exactly one line per segment |
| Views.ReprText | skyfield/tests/test_jpllib.py:50 | the repr text opens with `<SpiceKernel`, ends with `>`, and is `<SpiceKernel>` exactly when there are no files |
| Views.QuotedListAppend | skyfield/tests/test_jpllib.py:80 | the quoted file list of a joined list is the quoted first part followed by the quoted second part |
| Views.ReprTextAppend | skyfield/tests/test_jpllib.py:80 | more files extend the repr: the old text up to its closing bracket, then the new files quoted, then the bracket |
| Names.UpperIdempotent | skyfield/tests/test_jpllib.py:17 | upper-casing a name that is already upper-cased changes nothing |
| Names.CodeOfUpperCase | skyfield/tests/test_jpllib.py:17 | a name already in upper case finds exactly what an exact lookup finds, and upper-casing a query first finds the same code |
| Names.NamesOf | skyfield/tests/test_jpllib.py:43-48 | a code's name list holds exactly the names the table pairs with it, and is empty only for a code the table does not know |
| Names.CodeOfExact | skyfield/tests/test_jpllib.py:104 | an exact name finds the code of its last pair in the table, and nothing when no pair has that name |
| Names.CodeOf | skyfield/tests/test_jpllib.py:17 | a name is upper-cased before it is looked up |
| Names.CodeOfIgnoresCase | skyfield/tests/test_jpllib.py:17 | spellings that differ only in letter case find the same code |
| Names.DisplayName | skyfield/tests/test_jpllib.py:54-55 | the name shown for a code in str exists exactly when the table knows the code, and it is the name of the code's last pair in the table |
| Names.LastNameIsLastPair | skyfield/tests/test_jpllib.py:54-55 | the last name listed for a code comes from a pair for that code with no later pair for it |
| Names.LastPair | skyfield/tests/test_jpllib.py:54-55 | returns the index of the code's last pair, which holds its last listed name |
| Stacks.Insert | skyfield/tests/test_jpllib.py:12-19 | inserting a segment into a start-sorted list keeps it sorted and adds exactly that segment |
| Stacks.HeadStartsFirst | skyfield/tests/test_jpllib.py:12-19 | a segment that starts no later than the rest can go in front of them without breaking the order |
| Stacks.SortByStart | skyfield/tests/test_jpllib.py:12-19 | the Stack members are a permutation of the group, sorted by start time |
| Stacks.Route | skyfield/tests/test_jpllib.py:14-21 | routing returns the first member covering the time, or nothing when no member covers it |
| Stacks.RouteFindsTheCoveringMember | skyfield/tests/test_jpllib.py:21-25 | in a disjoint Stack, each time goes to the one member that covers it |
| Stacks.MakeStack | skyfield/tests/test_jpllib.py:17-19 | one segment stays bare; several become a Stack holding exactly them, sorted, with its kernel reference; overlapping members are refused |
| Stacks.SortedSamePair | skyfield/tests/test_jpllib.py:17-19 | sorting keeps every member on the same (center, target) pair |
| Stacks.EdgeAt | skyfield/tests/test_jpllib.py:21-25 | a bare segment is evaluated directly; a Stack answers from a covering member, and fails with an out-of-range error exactly when no member covers the time |
| VectorSums.PositionsAt | skyfield/tests/test_jpllib.py:90-95 | one position per component, each the component's own value |
| VectorSums.ComponentsAt | skyfield/tests/test_jpllib.py:90-95 | a VectorSum succeeds exactly when every component does, and its value is the sum of the component positions; otherwise the first failing component decides the error |
| VectorSums.ValuesAt | skyfield/tests/test_jpllib.py:14-25 | evaluating at several times succeeds exactly when each time does, giving one result per time in input order; a bare edge fails with the error of the first failing time, a VectorSum with the error of its first component that fails at some time |
| VectorSums.ValueAt | skyfield/tests/test_jpllib.py:21-25 | a bare edge gives its own value; a VectorSum succeeds exactly when every component does, with the sum of their positions |
| VectorSums.EdgeValuesAt | skyfield/tests/test_jpllib.py:14-25 | one edge at several times succeeds exactly when each time does, gives one value per time in order, and otherwise fails with the first failing time's error |
| VectorSums.SumValuesAt | skyfield/tests/test_jpllib.py:90-95 | a VectorSum at several times, component by component, succeeds exactly when every component does, and each result is the sum of the positions at that time |
| VectorSums.SumValuesFailure | skyfield/tests/test_jpllib.py:90-95 | a failing VectorSum reports the error of its first failing component |
| VectorSums.FirstFailingComponent | skyfield/tests/test_jpllib.py:90-95 | the first failing component of the components after the first is the first failing component overall when the first succeeds |
| VectorSums.SumValuesPointwise | skyfield/tests/test_jpllib.py:90-95 | adding the first component's values to the rest's sums gives the whole sum at each time |
| VectorSums.SumValuesOk | skyfield/tests/test_jpllib.py:90-95 | component by component and time by time evaluation agree on success |
| VectorSums.StackRoutesEachTime | skyfield/tests/test_jpllib.py:14-25 | a Stack evaluated at several times succeeds exactly when each time is covered, and each result comes from the member covering that time |
| Resolution.Group | skyfield/tests/test_jpllib.py:17-19 | the segments for one target: exactly those whose target it is |
| Resolution.GroupAppend | skyfield/tests/test_jpllib.py:17-19 | the group of a joined list is the group of the first part followed by that of the second, so grouping keeps list order and every repeat |
| Resolution.GroupSingle | skyfield/tests/test_jpllib.py:17-19 | one segment forms the group exactly when it targets the body |
| Resolution.GroupEmpty | skyfield/tests/test_jpllib.py:100-104 | a body has no segments exactly when no segment targets it |
| Resolution.GroupCenters | skyfield/tests/test_jpllib.py:17-19 | a body's segments agree on one center exactly when no two segments for it have different centers |
| Resolution.EdgeFor | skyfield/tests/test_jpllib.py:100-104 | a body has no edge exactly when no segment targets it, and an edge found ends at the body |
| Resolution.EdgeForMeaning | skyfield/tests/test_jpllib.py:17-19 | the edge for a body holds exactly its segments: bare when there is one, a Stack referring to the kernel when there are several; two different centers are reported as ambiguous |
| Lookups.Walk | skyfield/tests/test_jpllib.py:100-104 | the walk to the barycenter fails only with a missing link or an ambiguous or overlapping edge |
| Lookups.WalkIsRootPath | skyfield/tests/test_jpllib.py:90-95 | whatever the walk returns is a chain from the barycenter to the body, made of the body-by-body edges, with no body twice |
| Lookups.RootPathExtend | skyfield/tests/test_jpllib.py:90-95 | a chain to a body's center followed by the body's own edge is a chain to the body |
| Lookups.TargetsSnoc | skyfield/tests/test_jpllib.py:90-95 | adding an edge to a new body keeps the chain's bodies distinct |
| Lookups.ChainedSnoc | skyfield/tests/test_jpllib.py:90-95 | each component starts where the previous one ends |
| Lookups.RootPathPrefix | skyfield/tests/test_jpllib.py:90-95 | dropping a chain's last edge leaves a chain to that edge's center |
| Lookups.WalkFindsRootPath | skyfield/tests/test_jpllib.py:100-104 | the walk finds every chain that exists |
| Lookups.WalkStep | skyfield/tests/test_jpllib.py:90-95 | one step of the walk adds the body's edge after the chain to its center |
| Lookups.RootPathUnique | skyfield/tests/test_jpllib.py:90-95 | a body has at most one chain to the barycenter |
| Lookups.KeyCode | skyfield/tests/test_jpllib.py:17 | a code key is its own code; a name key is upper-cased and finds a code exactly when some pair has that name, and the code found is paired with it |
| Lookups.Assemble | skyfield/tests/test_jpllib.py:90-91 | one edge is returned bare and any other chain as a VectorSum from the barycenter to the body; either way its hops are exactly the chain |
| Lookups.Lookup | skyfield/tests/test_jpllib.py:57-59 | `eph[key]` fails with a missing-key error exactly when the code is not in `codes`; on success it returns the chain from the barycenter to the body |
| Lookups.LookupFindsRootPath | skyfield/tests/test_jpllib.py:90-91 | when the body is connected to the barycenter, the lookup returns exactly that chain, bare when it is one edge long |
| Lookups.LookupBrokenMeansNoPath | skyfield/tests/test_jpllib.py:100-104 | a missing barycenter link is reported only when no chain exists, never in place of a partial chain |
| Lookups.LookupShape | skyfield/tests/test_jpllib.py:90-95 | a bare result runs from the barycenter to the body; a VectorSum has chained components from the barycenter to the body, never exactly one, and keeps each bare segment with its own file; every Stack in it refers to the kernel |
| Names.Entries | skyfield/tests/test_jpllib.py:43-48 | a run of pairs for one body pairs the code with each of its names, in order |
| Names.NamesOfConcat | skyfield/tests/test_jpllib.py:43-48 | names of a joined table are the names of the first part followed by those of the second |
| Names.NamesOfEntries | skyfield/tests/test_jpllib.py:43-48 | a body's run lists its own names and no others |
| Scenarios.NamesOfTableStep | skyfield/tests/test_jpllib.py:43-48 | a table's names for a code are the first run's names for it followed by the rest's |
| Scenarios.NamesOfTable | skyfield/tests/test_jpllib.py:43-48 | in a table listing each body once, a body's names are exactly its run |
| Scenarios.NamesOfTableAbsent | skyfield/tests/test_jpllib.py:43-48 | a body not listed has no names |
| Names.CodeOfExactConcat | skyfield/tests/test_jpllib.py:104 | looking up a name in a joined table: the later part wins |
| Names.CodeOfExactEntries | skyfield/tests/test_jpllib.py:104 | a body's run finds its code for exactly its names |
| Scenarios.CodeOfTable | skyfield/tests/test_jpllib.py:104 | a name listed only in one body's run finds that body |
| Scenarios.CodeOfTableAbsent | skyfield/tests/test_jpllib.py:104 | a name listed nowhere finds nothing |
| Scenarios.SampleGroupsDistinct | skyfield/tests/test_jpllib.py:43-48 | the sample name table lists each body once |
| Scenarios.SampleNamesOf | skyfield/tests/test_jpllib.py:43-48 | the sample name table gives the names the sessions expect for codes 0, 3, 4, 301 and 399 |
| Scenarios.SampleNamesOfSsb | skyfield/tests/test_jpllib.py:44 | the sample table's names for code 0 |
| Scenarios.SampleNamesOfEmb | skyfield/tests/test_jpllib.py:45-46 | the sample table's names for code 3 |
| Scenarios.SampleNamesOfMars | skyfield/tests/test_jpllib.py:47 | the sample table's names for code 4 |
| Scenarios.SampleNamesOfMoon | skyfield/tests/test_jpllib.py:77 | the sample table's name for code 301 |
| Scenarios.SampleNamesOfEarth | skyfield/tests/test_jpllib.py:77 | the sample table's name for code 399 |
| Views.FilesSnoc | skyfield/tests/test_jpllib.py:80 | one more segment adds its file at the end when the file is new, and nothing otherwise |
| Views.FilesOfKnownFile | skyfield/tests/test_jpllib.py:80 | segments from a file already listed add nothing to the file list |
| Views.FilesOfSingle | skyfield/tests/test_jpllib.py:50 | one segment lists its own file |
| Views.FilesOfOneFile | skyfield/tests/test_jpllib.py:50 | segments all from one file list that file alone |
| Views.FilesOfNewFile | skyfield/tests/test_jpllib.py:80 | a segment from a second file adds that file after the first |
| Views.FilesOfTwoFiles | skyfield/tests/test_jpllib.py:80 | two runs from two files list both files, in order |
| Views.FilesOfRestOfRun | skyfield/tests/test_jpllib.py:80 | after a run's first segment, the rest of the run adds no file |
| Scenarios.KeepTargets | skyfield/tests/test_jpllib.py:37 | the sessions' filter keeps only segments whose target is in the given set, and never more segments than it was given |
| Scenarios.KeepTargetsMembers | skyfield/tests/test_jpllib.py:37 | a segment is kept exactly when it is in the list and its target is in the set |
| Scenarios.KeepTargetsAppend | skyfield/tests/test_jpllib.py:66 | filtering a joined list gives the filtered first part followed by the filtered second part, so the filter keeps list order |
| Scenarios.KeepTargetsSingle | skyfield/tests/test_jpllib.py:37 | one segment is kept exactly when its target is in the set |
| Scenarios.KeepTargetsDe421 | skyfield/tests/test_jpllib.py:37 | filtering de421.bsp to targets {3, 4}, {301, 399} or {399} keeps exactly the expected segments |
| Scenarios.KeepTargetsTail | skyfield/tests/test_jpllib.py:66 | the same filters applied after de421.bsp's first segment |
| Scenarios.KeepTargetsDe405 | skyfield/tests/test_jpllib.py:63 | filtering de405.bsp to target 3 keeps its Earth barycenter segment |
| Scenarios.NamesViewAllNamed | skyfield/tests/test_jpllib.py:43-48 | when every current code has names, `names()` has exactly the current codes as keys |
| Scenarios.ReprOfOne | skyfield/tests/test_jpllib.py:50 | the repr text for one file |
| Scenarios.ReprOfTwo | skyfield/tests/test_jpllib.py:80 | the repr text for two files |
| Scenarios.RemovingSegments | skyfield/tests/test_jpllib.py:35-59 | after keeping targets 3 and 4 of de421.bsp: two segments; 2 absent and 3 present; codes {0, 3, 4}; `names()` for exactly those codes; the one-file repr; code 4 as a bare segment; code 5 missing |
| Scenarios.RemovedCodes | skyfield/tests/test_jpllib.py:42 | the kept segments have codes {0, 3, 4} |
| Scenarios.RemovedFiles | skyfield/tests/test_jpllib.py:50 | the kept segments come from de421.bsp alone |
| Scenarios.RemovedViews | skyfield/tests/test_jpllib.py:42-50 | codes, `names()` and repr of the kept segments |
| Scenarios.RemovedLookups | skyfield/tests/test_jpllib.py:57-59 | code 4 resolves to its bare segment and code 5 is missing |
| Scenarios.MarsPath | skyfield/tests/test_jpllib.py:57 | Mars's barycenter is one edge from the barycenter |
| Scenarios.MarsEdge | skyfield/tests/test_jpllib.py:57 | Mars's barycenter has one bare segment |
| Scenarios.AddingSegments | skyfield/tests/test_jpllib.py:61-98 | de405.bsp's Earth barycenter followed by de421.bsp's Moon and Earth: three segments; 2 absent and 3 and 301 present; codes {0, 3, 301, 399}; `names()` for exactly those codes; the two-file repr; the Earth as a VectorSum of the de405.bsp segment then the de421.bsp segment; code 4 missing |
| Scenarios.AddedViews | skyfield/tests/test_jpllib.py:72-80 | codes, `names()` and repr of the combined list |
| Scenarios.AddedFiles | skyfield/tests/test_jpllib.py:80 | the combined list lists de405.bsp then de421.bsp |
| Scenarios.AddedCodes | skyfield/tests/test_jpllib.py:72 | the combined list has codes {0, 3, 301, 399} |
| Scenarios.AddedGroups | skyfield/tests/test_jpllib.py:90-95 | the Earth barycenter and the Earth each have one segment in the combined list |
| Scenarios.AddedLookups | skyfield/tests/test_jpllib.py:90-98 | code 399 resolves to the two-component VectorSum; code 4 is missing |
| Scenarios.EarthPath | skyfield/tests/test_jpllib.py:90-95 | the Earth is reached through the Earth barycenter of de405.bsp and then the Earth of de421.bsp |
| Scenarios.LackingLink | skyfield/tests/test_jpllib.py:100-104 | with only the Earth's segment kept, looking up 'Earth' reports the missing link from the barycenter to the Earth |
| Scenarios.EarthUnreachable | skyfield/tests/test_jpllib.py:103-104 | the lookup of 'Earth' fails with the missing link |
| Scenarios.EarthWalk | skyfield/tests/test_jpllib.py:103-104 | the walk from the Earth stops at the Earth barycenter, which has no edge |
| Scenarios.EarthCode | skyfield/tests/test_jpllib.py:104 | 'Earth' names code 399 whatever its case |
| Scenarios.EarthEdges | skyfield/tests/test_jpllib.py:102-104 | the Earth has an edge and the Earth barycenter has none |
| Scenarios.MultipleSegmentsPerTarget | skyfield/tests/test_jpllib.py:12-25 | 'pluto barycenter' resolves to a Stack of the file's two segments that refers to the kernel; four days give four positions in order, the first two from the first segment and the last two from the second |
| Scenarios.PlutoGroup | skyfield/tests/test_jpllib.py:17-19 | Pluto's barycenter has two segments, already in start order |
| Scenarios.PlutoCode | skyfield/tests/test_jpllib.py:17 | 'pluto barycenter' names code 9 |
| Scenarios.PlutoEdge | skyfield/tests/test_jpllib.py:17-19 | Pluto's edge is a Stack of both segments |
| Scenarios.PlutoIsAStack | skyfield/tests/test_jpllib.py:17-19 | the lookup returns that Stack bare |
| Scenarios.PlutoPath | skyfield/tests/test_jpllib.py:17 | the Stack alone connects the barycenter to Pluto's barycenter |
| Scenarios.PlutoPositions | skyfield/tests/test_jpllib.py:21-25 | evaluation at the four days gives the four positions in order, each from the segment covering that day |
| Scenarios.PlutoCovered | skyfield/tests/test_jpllib.py:21-25 | each day is covered and answered by its covering segment |
| Scenarios.PlutoStackValid | skyfield/tests/test_jpllib.py:17-19 | Pluto's Stack is well formed |
| Scenarios.PlutoDays | skyfield/tests/test_jpllib.py:14 | each of the four days is covered by one of the two segments |
| Scenarios.PlutoValues | skyfield/tests/test_jpllib.py:21-25 | the four values are those of the covering segments |

## Left out

- Loading kernels (`load`, `load_file`), downloading and caching are I/O. Each stand-in kernel is built from a literal list of segments.
- DAF/SPK binary decoding is not modelled. Segments are taken as already-decoded records.
- Chebyshev evaluation and floating-point positions are not modelled. The evaluator is a parameter, so the model proves which segment answers each time and in what order, not the numbers.
- Times are whole numbers rather than floats. The timescale, the UTC conversion and the JD/calendar dates in `str(eph)` are not modelled. `Views.Summary` holds the blocks and lines without their date lines.
- `.observe().apparent()` astrometry is library numerics outside this model. Only the Stack's reference back to its kernel is modelled.
- The body-name table is a library constant. Every operation takes it as a parameter. The sessions use a sample table holding the names the sessions show.
- Only lookups outward from the barycenter are modelled. Paths between two arbitrary bodies and their common ancestor are not.
- The text of `str()` for a VectorSum is not modelled. Its components and their segments, which carry their files, are.
- Stacks.EdgeAt: a bare segment is evaluated at any time, even outside its start and end. The out-of-range error that its own Chebyshev evaluation raises there is left to the evaluator parameter and is not modelled. A Stack member covers the half-open range from its start up to, but not including, its end (`Segment.Covers`), whereas a segment's own range includes its end time; so a Stack fails at the last member's end time, which that member alone would answer.
- Names.Upper: upper-cases ASCII letters only; other letters are left as they are.
- Views.NamesView: a current code that the name table does not know gets no key. The sessions' codes are all named, so there `names()` has exactly `codes` as keys.
- Views.Codes: follows the sessions, in which `codes` holds every center and target, including the barycenter, 0. A description that takes only the targets plus 0 gives the same set in every session except one whose chain is broken.
- Lookups.Lookup: code 0 resolves to an empty VectorSum from the barycenter to itself. The sessions do not pin this down.
- Lookups.Lookup: only the edges on the chain walked from the body to the barycenter are built and checked. Two centers for one target, or overlapping segments for one pair, elsewhere in the list do not fail the lookup, whereas an index built from the whole list would fail it.
- Lookups.Lookup: a cycle among segments is reported as a missing barycenter link.
- Lookups.Lookup: an unknown name is a separate error, not the missing-key error.
- The scenario methods do not state the `str(eph)` text of the sessions. For every list, `Views.Summary` gives one block per file in file-list order, `Views.LinesFrom` and `Views.LinesFromAppend` give each block its own segments' lines in list order, and `Views.SummaryShowsEverySegment` counts one line per segment.
- The scenario methods state `names()` key by key rather than as a single dictionary literal.
- Python list aliasing and object identity are not modelled. `segments` is a value that the kernel's methods reassign.
