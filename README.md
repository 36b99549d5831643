# MorphIO core, modelled in Dafny

This project models the bookkeeping core of MorphIO, a library that reads and
writes neuron morphologies and vasculature graphs:

- the three writers of a mutable morphology (`writer::swc`, `writer::h5` and
  `writer::asc` with `_write_asc_section` and `_write_asc_points`), as the rows,
  tables and lines they produce;
- the section iterators: `Iterator<T>` with a stack (depth-first), a queue
  (breadth-first) or the current section (upstream), and `graph_iterator`, a
  stack with a `visited` set;
- the vasculature: `buildConnectivity`, `section`, `sections`, `end`, equality
  by identity of the shared property store, and the file-name check of the
  constructor;
- the mutable soma, whose `points()` hands out the stored vector by reference
  and whose `diameters()` hands out a copy;
- the diagnostics tables: `DebugInfo`, the default `Sample` and `errorLink`.

Modules:

| Module | What it holds |
|---|---|
| `Iterators` | section connectivity (`Forest`), the depth-first, breadth-first and upstream orders, `SectionIterator`, `GraphIterator` |
| `IteratorExamples` | the orders asserted on `iterators.asc` and on the simple cells |
| `MutMorphology` | the morphology the writers read, and the write-order predicate |
| `WriterResults` | a writer's output or the `WriterError` it throws |
| `SwcWriter`, `H5Writer` | the writers' loops, each proved against a function that states the rows |
| `AscText`, `AscWriter`, `AscShape` | the ASC texts, the writer's output stream, and its bracket balance, point order and layout |
| `Vasculature` | the property store, `buildConnectivity` and the vasculature |
| `MutSoma` | the soma and the reference-or-copy behaviour of its accessors |
| `Strings` | `find_last_of`, `std::to_string` and a decimal reader |
| `Diagnostics` | `DebugInfo`, `Sample`, `errorLink` and a parser that inverts it |

The writers walk the sections in the order that the depth-first iterator over the
morphology yields them. Each writer is a method whose postcondition equals its
output to a function of the morphology: `SwcRows`, `H5TablesOf` or `AscLines`.
Lemmas then say what those functions mean: how rows are numbered, where each row
hangs, where each point lands and how the brackets match. The lemmas take any
order that lists each parent before its children (`WriteOrder`).
`DepthOrderIsWriteOrder` shows that the depth-first order is such an order.

## Model

| member | source | states |
|---|---|---|
| Iterators.DepthFrom | include/morphio/iterators.h:14-32 | the sections a depth-first iterator yields from its stack: the top, then its children pushed so that the first child is on top; every yielded id is a section |
| Iterators.BreadthFrom | include/morphio/iterators.h:14-32 | the sections a breadth-first iterator yields from its queue: the head, then its children enqueued in declared order; every yielded id is a section |
| Iterators.Upstream | tests/test_4_immut.py:51-56 | upstream iteration yields the section, then each entry's parent, and stops at a root (parent -1) |
| Iterators.DepthFromAppend | include/morphio/iterators.h:20 | the traversal of a stack is the traversal of its upper part followed by the traversal of the rest: each stacked subtree finishes before the next one starts |
| Iterators.DepthFromSection | tests/test_4_immut.py:37-38 | from one section, depth-first yields that section and then the subtrees of its children in declared order |
| Iterators.DepthFromSiblings | tests/test_4_immut.py:37-38 | the traversal of a list of siblings is the concatenation of their separate traversals |
| Iterators.DepthFromYieldsStack | include/morphio/iterators.h:20 | every section on the initial stack is yielded |
| Iterators.DepthFromYieldsChildren | include/morphio/iterators.h:20 | when a section is yielded, all of its children are yielded too |
| Iterators.DepthFromInSubtrees | include/morphio/iterators.h:20 | everything yielded from a stack lies below some stacked section |
| Iterators.AntichainStep | include/morphio/iterators.h:20 | replacing the top of a stack whose entries lie in disjoint subtrees by its children keeps them disjoint |
| Iterators.TopNotYieldedAgain | include/morphio/iterators.h:20 | once the top section is replaced by its children, it is never yielded again |
| Iterators.DepthFromDistinct | include/morphio/iterators.h:20 | depth-first iteration from sections in disjoint subtrees yields no section twice |
| Iterators.DepthOrderIsPreorder | tests/test_4_immut.py:46-50 | iterating a whole morphology depth-first yields every section exactly once, and each section's parent before the section |
| Iterators.DepthOrderCovers | tests/test_4_immut.py:46-50 | every section occurs in the morphology's depth-first order |
| Iterators.DepthOrderAncestorsFirst | tests/test_4_immut.py:37-38 | in the depth-first order every ancestor of a section comes before it |
| Iterators.BreadthFromByLevel | tests/test_4_immut.py:39-40 | from a queue whose levels do not decrease and span one level, breadth-first iteration yields sections level by level |
| Iterators.BreadthStepLevels | include/morphio/iterators.h:20 | one breadth-first step keeps the queue level-ordered, with nothing left above the level just yielded |
| Iterators.BreadthOrderByLevel | tests/test_4_immut.py:39-43 | breadth-first iteration from one section and from all roots of a morphology goes level by level |
| Iterators.SectionIterator.End | include/morphio/iterators.h:22 | the default-constructed iterator has an empty container and yields nothing |
| Iterators.SectionIterator.FromSection | include/morphio/iterators.h:25 | the iterator built from a section holds that section alone |
| Iterators.SectionIterator.FromMorphology | include/morphio/iterators.h:26 | the iterator built from a morphology holds the root sections, the first one in front |
| Iterators.SectionIterator.Current | include/morphio/iterators.h:29 | operator* gives the first section still to be yielded |
| Iterators.SectionIterator.Equals | include/morphio/iterators.h:27-28 | operator== holds against the end iterator exactly when the iterator is exhausted, and two equal iterators over the same sections yield the same rest |
| Iterators.SectionIterator.Next | include/morphio/iterators.h:30 | operator++ consumes exactly the current section from what remains to be yielded |
| Iterators.Collect | src/mut/writers.cpp:50 | the loop `for (it = begin; it != end; ++it)` yields exactly the iterator's pending sequence and stops equal to the end iterator |
| Iterators.Pushes | include/morphio/iterators.h:38-40 | the sections pushed for a neighbour list are the neighbours not yet visited, each once |
| Iterators.GraphIterator.End | include/morphio/iterators.h:42 | the default graph iterator has an empty stack and an empty visited set |
| Iterators.GraphIterator.FromSections | include/morphio/iterators.h:45-46 | the starting sections are pushed once each, the first on top, and all are marked visited |
| Iterators.GraphIterator.AtEnd | include/morphio/iterators.h:47-48 | the iterator is at its end exactly when every section it visited has been yielded |
| Iterators.GraphIterator.Current | include/morphio/iterators.h:49 | operator* is a section already marked visited and not yet yielded |
| Iterators.GraphIterator.Next | include/morphio/iterators.h:50 | operator++ pops the current section and pushes its unvisited neighbours, marking them visited; no section is ever yielded twice |
| Iterators.PushUnvisited | include/morphio/iterators.h:38-40 | the neighbour loop pushes exactly the unvisited neighbours and marks every neighbour visited |
| Iterators.GraphCollect | include/morphio/iterators.h:34-50 | running a graph iterator to its end terminates and yields each section at most once, even when it has several predecessors; what it yields holds the starting sections and every neighbour of a yielded section, and each yielded section is a start or a neighbour of one yielded before it |
| Iterators.WalksStayInside | include/morphio/iterators.h:34-50 | a set of yielded sections that holds the starts and the neighbours of its members holds every section reachable from the starts |
| Iterators.WalkTo | include/morphio/iterators.h:34-50 | every section yielded after a start or a neighbour of an earlier one is reachable from the starts |
| Iterators.GraphCollectReachable | include/morphio/iterators.h:34-50 | a graph iterator run to its end yields exactly the sections reachable from its starts through the neighbour lists |
| IteratorExamples.IteratorsAscValid | tests/test_4_immut.py:35-36 | the connectivity of iterators.asc is a valid section forest |
| IteratorExamples.SimpleCellValid | tests/test_4_immut.py:15-19 | the connectivity of the simple cells is a valid section forest |
| IteratorExamples.IteratorsAscDepthFirst | tests/test_4_immut.py:37-38 | depth-first from the first root of iterators.asc yields [0, 1, 2, 3, 4, 5, 6] |
| IteratorExamples.IteratorsAscBreadthFirst | tests/test_4_immut.py:39-40 | breadth-first from the first root of iterators.asc yields [0, 1, 4, 2, 3, 5, 6] |
| IteratorExamples.IteratorsAscMorphologyBreadthFirst | tests/test_4_immut.py:42-43 | breadth-first over iterators.asc, seeded with both roots, yields [0, 7, 1, 4, 8, 9, 2, 3, 5, 6] |
| IteratorExamples.SimpleCellDefaultIteration | tests/test_4_immut.py:46-50 | the default order is depth-first, and over the simple cells it yields [0 .. 5] |
| IteratorExamples.SimpleCellUpstream | tests/test_4_immut.py:51-56 | upstream from the first child of the first root yields that child, then the root |
| MutMorphology.SectionType.Code | src/mut/writers.cpp:44 | type codes lie in 0..4, and only SECTION_SOMA has code 1 |
| MutMorphology.DepthOrderIsWriteOrder | src/mut/writers.cpp:50 | the depth-first order the writers walk lists every section exactly once, parents first |
| MutMorphology.ParentIndex | src/mut/writers.cpp:64-69 | in a write order the parent of a non-root section is listed before it; the SWC and H5 writers' parent columns rely on this |
| SwcWriter.SwcRowsNumbered | src/mut/writers.cpp:36-74 | rows are numbered 1, 2, 3, ...: soma rows first, then section rows; the first row's parent is -1, and every section row hangs on an earlier row, at least row 1 |
| SwcWriter.SwcSomaRow | src/mut/writers.cpp:43-48 | soma row k carries soma point k, type SECTION_SOMA and half the diameter as radius |
| SwcWriter.SwcSectionRow | src/mut/writers.cpp:50-74 | the rows of each section follow on from those before it; a root section writes every point, any other skips its first point; the first row hangs on Attach, which is row 1 for a root section, and each later row hangs on the row before it |
| SwcWriter.AttachOfRoot | src/mut/writers.cpp:67 | the first row of a root section hangs on row 1 |
| SwcWriter.AttachOfChild | src/mut/writers.cpp:64-73 | the first row of a non-root section hangs on the id newIds recorded for its parent: the last row written up to and including the parent |
| SwcWriter.AttachBounds | src/mut/writers.cpp:64-69 | the first row of every section hangs on an existing earlier row |
| SwcWriter.NewIdsLookup | src/mut/writers.cpp:73 | newIds maps each section already written to the id of its last row |
| SwcWriter.SwcLastRowOf | src/mut/writers.cpp:61-73 | the row newIds records for a section carries that section's last point |
| SwcWriter.SwcAttachesToParentEnd | src/mut/writers.cpp:57-73 | when the parent wrote at least one row, a non-root section's first row hangs on the row carrying its parent's last point, the point its own skipped first point repeats (a non-root parent with a single point writes no row; see Findings) |
| SwcWriter.AttachPastSilentParent | src/mut/writers.cpp:64-73 | when the parent wrote no row, a non-root section's first row hangs on the last row written before the parent, whichever section wrote it |
| SwcWriter.SwcOnePointParentMisattached | src/mut/writers.cpp:50-73 | on the cell R = [a, b] with children P1 = [b, c] and P2 = [b], and C = [b, d] under P2, walked R, P1, P2, C: C's row 5 hangs on row 4, P1's point c, while the corrected attachment is row 3, which carries b |
| SwcWriter.EndRowCarriesLastPoint | src/mut/writers.cpp:57-73 | in a cell without empty sections (src/mut/writers.cpp:56 asserts none is) whose non-root sections start with their parent's last point, the row EndRow names is written no later than the section's own rows and carries the section's last point |
| SwcWriter.IntendedAttachCarriesParentEnd | src/mut/writers.cpp:57-73 | under the same conditions, the corrected attachment of every non-root section is an earlier row carrying both its parent's last point and its own skipped first point, whether or not the parent wrote a row |
| SwcWriter.AttachAsIntended | src/mut/writers.cpp:64-73 | for a root section, or one whose parent wrote a row, the writer's attachment is the corrected one |
| SwcWriter.SectionsRowsShape | src/mut/writers.cpp:50-74 | the section rows are numbered on from the soma rows, each hanging on an earlier row |
| SwcWriter.WriteSection | src/mut/writers.cpp:55-73 | the inner loop writes the section's rows as SectionRows states and returns the next free id |
| SwcWriter.WriteSoma | src/mut/writers.cpp:43-48 | the soma loop writes the soma rows |
| SwcWriter.WriteSections | src/mut/writers.cpp:50-74 | the section loop writes every section's rows in the given order, keeping newIds as NewIds states |
| SwcWriter.Swc | src/mut/writers.cpp:21-78 | throws WriterError (no soma) exactly when the soma has no points, before any row; otherwise the rows are SwcRows of the morphology |
| H5Writer.H5StructureRow | src/mut/writers.cpp:153-172 | /structure is the soma row {0, -1, 1} and then one row per section in walking order, so it has 1 + the number of sections rows; each row holds its section's first point row and type code, and as parent 0 for a root section or the on-disk row of its parent, an earlier row |
| H5Writer.ParentOnDiskMeaning | src/mut/writers.cpp:161-171 | sections get on-disk ids 1, 2, 3, ... in walking order; the parent column is 0 for a root section and otherwise the parent's on-disk id |
| H5Writer.DiskIdsLookup | src/mut/writers.cpp:171 | newIds maps each section already written to its position in the order plus one |
| H5Writer.H5Offset | src/mut/writers.cpp:154-172 | a section's offset is the soma point count plus the points of all sections written before it |
| H5Writer.H5PointRow | src/mut/writers.cpp:167-169 | point i of a section is the /points row at the section's offset plus i, copied as x, y, z, diameter with no point skipped |
| H5Writer.H5SomaPointRow | src/mut/writers.cpp:151-152 | the soma's points are the first rows of /points |
| H5Writer.H5SectionEnd | src/mut/writers.cpp:167-172 | a section's points end where the next section's offset starts, or at the end of /points for the last section |
| H5Writer.H5SectionSpan | src/mut/writers.cpp:167-172 | /points cut at consecutive offsets gives back each section's points |
| H5Writer.H5PointCount | src/mut/writers.cpp:151-172 | /points has the soma's points plus every section's points |
| H5Writer.WriteSomaPoints | src/mut/writers.cpp:151-152 | the soma loop writes the soma's point rows |
| H5Writer.AppendSectionPoints | src/mut/writers.cpp:168-169 | the inner loop appends every point of the section |
| H5Writer.WriteH5Sections | src/mut/writers.cpp:153-173 | the section loop fills both tables as StructureRows and SectionsPointRows state, keeping offset and newIds in step |
| H5Writer.H5 | src/mut/writers.cpp:129-173 | throws WriterError (no soma) exactly when the soma has no points; otherwise the tables are H5TablesOf the morphology |
| AscWriter.Console.Write | src/mut/writers.cpp:84-86 | a write to standard output appends exactly one item |
| AscWriter.WriteAscPoints | src/mut/writers.cpp:80-89 | writes one point line per point, in order, at the given indentation |
| AscWriter.WriteAscSection | src/mut/writers.cpp:91-108 | writes the section's points, then, when it has children, each child two columns deeper after "(" or "\|", and a closing ")" |
| AscWriter.WriteAscRoots | src/mut/writers.cpp:121-126 | writes, for each root section, the header of its type, the section and the end of the block |
| AscWriter.Asc | src/mut/writers.cpp:110-127 | writes the CellBody block with the soma's points, then one block per root section |
| AscWriter.PointLinesDrawn | src/mut/writers.cpp:80-89 | the point lines draw exactly the given points with their diameters, in order |
| AscWriter.SectionBalanced | src/mut/writers.cpp:91-108 | every "(" that _write_asc_section writes is closed by a ")" that it writes |
| AscWriter.ChildrenBalance | src/mut/writers.cpp:100-105 | the children written so far leave exactly the opening "(" unclosed |
| AscWriter.SectionDrawn | src/mut/writers.cpp:91-108 | a section's output draws the points of its subtree: its own, then each child's subtree in declared order |
| AscWriter.SubtreeInDepthOrder | src/mut/writers.cpp:91-108 | the subtree points are those of the sections in the order the depth-first iterator visits them |
| AscWriter.SectionDrawsSubtree | src/mut/writers.cpp:91-108 | _write_asc_section draws a subtree's points in depth-first section order |
| AscWriter.HeadersOpenOnce | src/mut/writers.cpp:112-119 | the CellBody, axon and dendrite headers (and the added apical header) each hold three "(" and two ")", so each opens one parenthesis more than it closes, and ")\n\n" closes one |
| AscWriter.RootsBalance | src/mut/writers.cpp:121-126 | each root block is balanced except when its type has no header, which leaves one unmatched ")" |
| AscWriter.AscBalance | src/mut/writers.cpp:110-127 | the output's "(" minus ")" count is minus the number of root sections whose type has no header |
| AscWriter.AscBalanced | src/mut/writers.cpp:110-127 | the output of writer::asc is balanced if and only if every root section is an axon or a dendrite |
| AscWriter.AscApicalRootUnbalanced | src/mut/writers.cpp:112-125 | as written, an apical-dendrite root section gets a block closed by a ")" that nothing opened |
| AscWriter.AscNeuritesBalanced | src/mut/writers.cpp:112-125 | with a header for apical dendrites as well, the output is balanced whenever every root is an axon, a dendrite or an apical dendrite |
| AscShape.SectionShape | src/mut/writers.cpp:91-108 | a section's output stays at or right of its indentation, and its marks there are "(", then one "\|" per further child, then ")"; a leaf writes none |
| AscShape.BranchShape | src/mut/writers.cpp:98-107 | the branch part of a section writes exactly those marks at the section's indentation |
| AscShape.ChildrenShape | src/mut/writers.cpp:101-105 | the first n children leave "(" and n - 1 separators at the parent's indentation, and every other line they write is at least two columns deeper |
| Vasculature.Appended | src/vasc/vasculature.cpp:116-117 | `m[key].push_back(value)` creates the key if it is missing, puts value at the end of its vector and leaves every other key alone |
| Vasculature.GroupedLookup | src/vasc/vasculature.cpp:113-118 | each key's vector is what it held before, followed by the values paired with it, in edge-list order |
| Vasculature.GroupedKeys | src/vasc/vasculature.cpp:116-117 | keys are created lazily: the keys afterwards are the keys before plus the first ends of the pairs |
| Vasculature.GroupedTotal | src/vasc/vasculature.cpp:113-118 | each pair adds exactly one element to the map's vectors |
| Vasculature.ConnectivityInverse | src/vasc/vasculature.cpp:113-118 | built from empty maps, b is listed under a in successors, and a under b in predecessors, exactly as often as the edge (a, b) occurs |
| Vasculature.ConnectivityTotals | src/vasc/vasculature.cpp:113-118 | built from empty maps, each map holds as many elements in total as there are edges |
| Vasculature.ConnectivityKeys | src/vasc/vasculature.cpp:116-117 | built from empty maps, the keys are exactly the sections that start an edge (successors) or end one (predecessors) |
| Vasculature.FlippedSources | src/vasc/vasculature.cpp:117 | the first ends of the reversed edges are the second ends of the edges |
| Vasculature.Properties.constructor | src/vasc/vasculature.cpp:42 | the store as the loader leaves it: sections and edges, no connectivity maps yet |
| Vasculature.BuildConnectivity | src/vasc/vasculature.cpp:107-120 | for each edge (a, b) in list order, b is appended to successors[a] and a to predecessors[b]; the sections and edges are unchanged |
| Vasculature.Vasculature.Wrap | src/vasc/vasculature.cpp:42 | the vasculature holds the given store |
| Vasculature.EqualityIsIdentity | src/vasc/vasculature.cpp:52-60 | two vasculatures over distinct stores with equal contents are not equal under ==, and != holds between them |
| Vasculature.Vasculature.Sections | src/vasc/vasculature.cpp:62-74 | sections() returns one handle per VascSection entry, entry i being section(i): id i on the shared store |
| Vasculature.Vasculature.End | src/vasc/vasculature.cpp:102-105 | end() is a fresh graph iterator with nothing left to yield |
| Vasculature.LowerExtension | src/vasc/vasculature.cpp:30-33 | the extension loop builds the lower-cased suffix from the last '.' on |
| Vasculature.H5Suffix | src/vasc/vasculature.cpp:30-36 | the lower-cased suffix from the last '.' is ".h5" exactly when the name ends in ".h5" or ".H5" |
| Vasculature.SourceError | src/vasc/vasculature.cpp:23-39 | a name without '.' is refused with "File has no extension" whether or not the file exists; a name with a '.' that names no file is refused as missing whatever its extension; an existing file is accepted if and only if its name ends in ".h5" or ".H5", and is otherwise an "Unhandled file type" |
| Vasculature.Open | src/vasc/vasculature.cpp:21-45 | the constructor refuses the file for the reason SourceError gives, in its order of checks, and changes nothing; otherwise it wraps the loaded store and builds its connectivity |
| Strings.LastIndexOf | src/vasc/vasculature.cpp:23-24 | find_last_of gives -1 (npos) exactly when the character is absent, and otherwise the position of its last occurrence |
| Strings.SplitLast | src/vasc/vasculature.cpp:23 | the text before and after the last occurrence of a character, which the text after does not contain |
| Strings.SplitLastOf | include/morphio/errorMessages.h:119 | splitting front + c + back, where back has no c, gives front and back back |
| Strings.Decimal | include/morphio/errorMessages.h:119 | std::to_string of an unsigned number: non-empty decimal digits without a leading zero |
| Strings.ReadDecimalOfDecimal | include/morphio/errorMessages.h:119 | reading back the decimal digits of n gives n |
| MutSoma.Soma.constructor | include/morphio/mut/soma.h:12 | a new soma has no points and no diameters |
| MutSoma.Soma.FromPointLevel | include/morphio/mut/soma.h:13 | a soma built from a point level holds fresh copies of its points and diameters |
| MutSoma.Soma.Diameters | include/morphio/mut/soma.h:18-19 | diameters() is a fresh vector holding the stored diameters |
| MutSoma.EditPoint | include/morphio/mut/soma.h:15-16 | points() hands out the stored vector by reference: an edit through it changes that point of the soma and nothing else |
| MutSoma.EditDiameterCopy | include/morphio/mut/soma.h:18-19 | an edit of what diameters() returned changes the copy only; the soma's diameters and points stay as they were |
| MutSoma.Vector.Set | include/morphio/mut/soma.h:15 | `v[i] = x` changes element i and no other |
| MutSoma.Vector.PushBack | include/morphio/mut/soma.h:15 | `v.push_back(x)` appends x |
| Diagnostics.AsInt32 | include/morphio/errorMessages.h:40 | static_cast<int> of an unsigned int is the 32-bit two's-complement reading: in int range and congruent modulo 2^32 |
| Diagnostics.GetAfterSet | include/morphio/errorMessages.h:38-46 | getLineNumber gives the cast of the line last set for the id, the line itself when it is below 2^31 |
| Diagnostics.SetKeepsOthers | include/morphio/errorMessages.h:38-54 | setting one id leaves every other id's line as it was |
| Diagnostics.UnsetIsMinusOne | include/morphio/errorMessages.h:43-49 | an id never set reads as -1 |
| Diagnostics.LargestLineReadsAsUnset | include/morphio/errorMessages.h:40-48 | the line 2^32 - 1 reads back as -1, the same as an id never set |
| Diagnostics.DebugInfo.constructor | include/morphio/errorMessages.h:33-36 | a new table holds the file name and reads -1 for every id |
| Diagnostics.DebugInfo.SetLineNumber | include/morphio/errorMessages.h:38-41 | stores the cast line under the id, so getLineNumber then gives it for that id and what it gave before for every other id; the file name is unchanged |
| Diagnostics.DebugInfo.GetLineNumber | include/morphio/errorMessages.h:43-49 | the line stored for the id, and -1 for an id never set, where at() throws and the exception is caught |
| Diagnostics.Sample.constructor | include/morphio/errorMessages.h:59-67 | a default sample is not valid, of undefined type, has parent -1 and line 0; nothing is promised about its diameter, point and id |
| Diagnostics.Severity | include/morphio/errorMessages.h:106-110 | the severity names contain no ':' |
| Diagnostics.Color | include/morphio/errorMessages.h:112-115 | each colour prefix is seven characters long, without ':' |
| Diagnostics.LevelNamed | include/morphio/errorMessages.h:106-110 | a name that maps to a level is that level's severity name |
| Diagnostics.ParseLinkOfParts | include/morphio/errorMessages.h:104-120 | colour + uri + ":" + line + ":" + severity + end-of-colour reads back as the uri, line and level it was made from, whatever ':' the uri holds |
| Diagnostics.ErrorMessages.ErrorLink | include/morphio/errorMessages.h:104-120 | errorLink's text reads back, through ParseLink, as the uri, line number and level it was made from |
| Diagnostics.ErrorLinkInjective | include/morphio/errorMessages.h:104-120 | different uri, line or level give different links |

## Left out

- File and stream plumbing: `std::ofstream`, the SWC header line, `setw` columns, the stream's float formatting, and the HDF5 file, dataset and comment-attribute writes. The model produces rows, tables and output items, not bytes.
- `writer::asc` ignores its file name and prints to standard output. `Console` stands for `std::cout`.
- Float arithmetic. Coordinates and diameters are `real` values that are only copied. The SWC radius is modelled as `diameter / 2.0`; single-precision rounding is not modelled.
- SwcWriter.SomaRows: the parent of a soma row after the first comes from an output chain that reads and increments the row counter together (src/mut/writers.cpp:44-47). That value depends on how the compiler sequences the chain, so it is the parameter `SomaChain`. `SwcRowsNumbered` proves the "earlier row" property for soma rows only under `PreviousRow`.
- The empty-section `assert` in `writer::swc` (src/mut/writers.cpp:56) is a debug-build check and is not modelled. A section without points simply writes no row.
- Section ids are 0..n-1, and each section's parent id is smaller than its own. Deleting sections, which leaves gaps in the ids, is not modelled.
- Section type codes are 0..4, in the order of `morphio::SectionType`. That enumeration is not part of this model.
- `Iterator<T>` and `graph_iterator` are declared with no bodies (include/morphio/iterators.h:12-50). The orders of `Iterator<T>` are the ones tests/test_4_immut.py asserts; the tests say nothing about `graph_iterator`.
- Iterators.Pushes, Iterators.PushUnvisited, Iterators.GraphIterator.FromSections, Vasculature.Vasculature.End: the graph iterator's rules are assumed, since include/morphio/iterators.h declares its members without bodies. It walks a neighbour list from last to first, so the first unvisited neighbour ends on top. Starting sections are pushed once each and marked visited when the iterator is built. A vasculature's iterator follows the successor lists only. Its neighbours are given as a map.
- `begin()` of a vasculature is not modelled: the `graph_iterator(const VasculatureMorphology&)` constructor it calls has no body to follow.
- The `Vasculature` constructor's `access()` call becomes the `fileExists` parameter. The HDF5 loader becomes the `loaded` store parameter.
- The move constructor, move assignment, destructor, `points()`, `diameters()` and `sectionTypes()` of `Vasculature` are plain forwarding to the store and are not modelled.
- `my_tolower` is taken to lower-case ASCII letters only.
- Integer widths: section ids, edge ends and row counters are unbounded; `uint32_t` wrap-around in them is not modelled. `DebugInfo` models its `unsigned int` keys and the cast to `int` exactly.
- The `Soma(const morphio::Soma&)` constructor (include/morphio/mut/soma.h:14) and `operator<<` copy from types that are not part of this model.
- The `Sample(const char*, unsigned)` constructor parses with `sscanf` into float fields (include/morphio/errorMessages.h:69-79). It is not modelled. The default constructor leaves `diameter`, `point` and `id` uninitialised; the model leaves them unconstrained.
- `DebugInfo`'s default file name is the empty string. The constructor takes the name explicitly.
- The `ERROR_*`/`WARNING_*` message builders, `errorMsg`, `isIgnored`, the warning setters and `_ignoredWarnings` are only declared (include/morphio/errorMessages.h:15-20, 57, 102, 122-157). They are not modelled.
- src/morpho/morpho_circuit.cpp is not part of this model. It is concurrent file I/O with float transforms.

## Findings

| source | as written | input that shows it | evidently intended | confidence | as-written member | corrected member |
|---|---|---|---|---|---|---|
| src/mut/writers.cpp:112-125 | the header map has entries for axon and dendrite only; `header[type]` for an apical dendrite (or undefined) root inserts and writes "", and the block is still closed with ")\n\n" | a morphology with an apical dendrite root section: the output has one more ")" than "(" | every neurite block opened by a header, so that the ASC output is balanced | medium, not executed | AscWriter.AscApicalRootUnbalanced | AscWriter.AscNeuritesBalanced |
| src/mut/writers.cpp:64-73 | the first row of a non-root section hangs on `newIds[parent]`, the last row written when the parent was done; a non-root parent with a single point writes no row, so that is the last row of whatever section came before it | a root R = [a, b] with children P1 = [b, c] and P2 = [b], and C = [b, d] under P2: the walk is R, P1, P2, C and C's row hangs on row 4 (P1's point c) instead of row 3 (point b) | every section hangs on the row carrying its parent's last point, the last row of the nearest ancestor that wrote one | medium, not executed | SwcWriter.SwcOnePointParentMisattached | SwcWriter.IntendedAttachCarriesParentEnd |
