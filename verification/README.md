# IFC to graph: a Dafny model of the discrete core

The `10_IFC_TO_GRAPH` scripts read a building model (an IFC file), work out
which rooms, walls, doors, windows and wall layers touch or contain one
another, write those relations as `;`-separated CSV files, and load the CSV
files into a Neo4j graph or a networkx/pyvis graph. The geometry is done by
the topologicpy kernel (merging cells, finding shared faces) over
floating-point coordinates. The IFC entities are read through ifcopenshell.

This project models everything around that kernel, and proves what it does:

- **Touch tests** (`touch.dfy`, module `TouchTest`). The variants of
  `find_touching_walls` and `find_touching_rooms` run over an abstract
  merge result. The result is a cell count and a shared-face flag, or the
  exception the kernel raised. The variants differ in the exceptions they
  catch, in whether they check the cell count, and in where they stop.
- **Wall and room adjacency** (`walls.dfy`, module `WallAdjacency`;
  `rooms.dfy`, module `RoomAdjacency`). These cover:
  - the storey filters;
  - the gate that keeps only walls with non-empty cells;
  - the `i < j` wall scan and the symmetric `touching_walls_dict`;
  - the ordered-pair room scan, the `touching_cells` table and the CSV rows
    that drop an entry listing its own key.
- **Relation tables** (`relations.dfy`, module `Relations`):
  - the door→rooms and window→rooms groupings;
  - the room→bounding-walls list;
  - the element→host-wall resolution through the first fills relation and
    the first voids relation.
- **Space selection** (`filters.dfy`, module `SpaceFilters`):
  - the storey, name and Category filters;
  - `find_ifc_storey`;
  - the `dic_spaces` map and the rooms relevant to a wall.
- **Wall-layer chain** (`layers.dfy`, module `LayerChain`). This is the
  per-wall layer loop of the enrichment scripts. It covers:
  - the `<wall>_<index>_<material>` ids;
  - the skipping of layers without a material;
  - the `InternallyConnected` chain;
  - the `IsFacing` test on the first and last layer.
- **Neo4j loader** (`graph.dfy`, module `Neo4jGraph`). It records the calls
  the loader makes, in order:
  - `add_edge` with its id sorting and its label and AccessType choice;
  - the `process_*` readers of the CSV files.
- **Interactive graph** (`interactive.dfy`, module `InteractiveGraph`). The
  networkx graph is built by the two `*_InteractiveGraph.py` scripts. It
  holds nodes with attributes and undirected edges, and each edge has a
  colour.
- **Properties and enrichment** (`properties.dfy`, module `IfcProperties`;
  `enrich.dfy`, module `Enrich`):
  - `extract_quantities` and `extract_property_value`;
  - the room nodes;
  - the attribute copying and the prefix-based enrich functions.
- **Wall analyzer** (`analyzer.dfy`, module `WallAnalysis`). These are the
  two `IfcWallAnalyzer` classes:
  - the representation-type fold;
  - the profile and placement guards;
  - the rotation-angle table;
  - the placement-chain walk over an abstract matrix monoid.
- **Small helpers**:
  - `clean_indices_list` (`faces.dfy`, module `FaceIndices`);
  - `decode_ifc_text` (`decode.dfy`, module `IfcText`);
  - `str.split`, `str.join`, `str.strip` and the rows of
    `csv.writer(..., delimiter=';')` (`text.dfy`, module `Text`);
  - Python dicts as insertion-ordered association lists, and exceptions as
    an `Outcome` (`common.dfy`, modules `Common` and `PyDict`).

The IFC entities are plain records (`ifc.dfy`, module `Ifc`). A Python
exception is a value: `Outcome<T>` is `Returned(value)` or `Raised(exc)`. A
loop with an early exit is a method whose result equals a recursive
specification function, and the properties are lemmas about that function.
Objects that the source updates in place are Dafny classes with `modifies`
frames:
- the analyzer;
- the networkx graph;
- the attributed graph of the enrich scripts.

## Model

| member | source | states |
|---|---|---|
| Text.SplitParts | 10_IFC_TO_GRAPH/neo4j_functions.py:213-216 | no part of `s.split(sep)` holds the separator, and there is one part more than the string has separators |
| Text.SplitJoin | 10_IFC_TO_GRAPH/neo4j_functions.py:183 | splitting `sep.join(parts)` gives the parts back when the list is not empty and no part holds the separator |
| Text.JoinSplit | 10_IFC_TO_GRAPH/neo4j_functions.py:216 | joining the parts of `s.split(sep)` with `sep` gives `s` back |
| Text.Strip | 10_IFC_TO_GRAPH/neo4j_functions.py:213 | `s.strip()` is no longer than `s`, has no whitespace at either end, and is `s` itself when `s` holds no whitespace |
| Text.LStrip | 10_IFC_TO_GRAPH/neo4j_functions.py:213 | the left half of `strip()`: a suffix of `s` that starts with no whitespace, all dropped characters being whitespace |
| Text.RStrip | 10_IFC_TO_GRAPH/neo4j_functions.py:213 | the right half of `strip()`: a prefix of `s` that ends with no whitespace, all dropped characters being whitespace |
| Text.StripTrailing | 10_IFC_TO_GRAPH/neo4j_functions.py:213 | stripping a line whose trailing part is whitespace (the newline) gives its body |
| Neo4jGraph.LineFields | 10_IFC_TO_GRAPH/neo4j_functions.py:213 | `line.strip().split(';')` has at least one field, so `parts[0]` never raises |
| PyDict.Put | 10_IFC_TO_GRAPH/doorinfo_to_csv.py:24-26 | `d[k] = v` keeps the position of a present key and appends a new key at the end |
| PyDict.Get | 10_IFC_TO_GRAPH/doorinfo_to_csv.py:23-26 | a lookup finds a value iff the key is present, and it is the key's entry |
| PyDict.PutKeys | 10_IFC_TO_GRAPH/doorinfo_to_csv.py:23-26 | the keys after `d[k] = v` are the old keys, with `k` appended when it was new |
| PyDict.PutValid | 10_IFC_TO_GRAPH/doorinfo_to_csv.py:23-26 | `d[k] = v` keeps keys unique; `k` then reads back `v` and every other key reads as before |
| PyDict.PutGet | 10_IFC_TO_GRAPH/doorinfo_to_csv.py:23-26 | reading after `d[k] = v` gives `v` for `k` and the old value for any other key |
| Text.FormatField | 10_IFC_TO_GRAPH/003_MakeCSV_AdjacentWalls.py:472-476 | `csv.writer` writes a field unchanged unless it holds `;`, `"` or a line break, and then between quotes |
| Text.FormatFields | 10_IFC_TO_GRAPH/003_MakeCSV_AdjacentWalls.py:475-476 | a row is written field by field, one written field per field |
| Text.DoubleQuotes | 10_IFC_TO_GRAPH/003_MakeCSV_AdjacentWalls.py:476 | a quoted field doubles each `"`: it grows by one character per quote |
| Text.WrittenRowReadBack | 10_IFC_TO_GRAPH/003_MakeCSV_AdjacentWalls.py:471-476 | for fields without `;`, quote or whitespace, `line.strip().split(';')` of the written line gives the fields back |
| Text.JoinedRowSplitsBack | 10_IFC_TO_GRAPH/003_MakeCSV_AdjacentWalls.py:474-475 | the key is field 0, and field 1 split on `,` is the neighbour list when it is not empty and `[""]` when it is |
| Text.DecimalString | 10_IFC_TO_GRAPH/005A_EnrichtGraph_Alternative.py:831 | `str(index)` is a non-empty string of decimal digits |
| Text.DecimalRoundTrip | 10_IFC_TO_GRAPH/005A_EnrichtGraph_Alternative.py:831 | reading the digits of `str(n)` back gives `n` |
| Text.DecimalStringInjective | 10_IFC_TO_GRAPH/005A_EnrichtGraph_Alternative.py:831 | two different indices never print the same way |
| IfcText.FindAll | 10_IFC_TO_GRAPH/neo4j_functions.py:268 | every match of `re.findall(r'\\X\\([0-9A-Fa-f]{4})', s)` is four hexadecimal digits |
| IfcText.Hex4Value | 10_IFC_TO_GRAPH/neo4j_functions.py:270 | `int(match, 16)` of four hexadecimal digits is below 0x10000 |
| IfcText.Chr | 10_IFC_TO_GRAPH/neo4j_functions.py:270 | `chr(v)` is the character with code `v` for every code outside the surrogate range |
| IfcText.DecodeIfcText | 10_IFC_TO_GRAPH/neo4j_functions.py:267-271 | the loop over the matches, each `str.replace` applied to the text the previous ones left, computes the as-written decoder |
| IfcText.PlainTextUnchanged | 10_IFC_TO_GRAPH/Deprecated/03_EnrichData.py:28-32 | a text without a backslash is returned unchanged |
| IfcText.ReplaceOtherEscape | 10_IFC_TO_GRAPH/neo4j_functions.py:270 | replacing one escape leaves an escape of other digits in place |
| IfcText.ReplaceBackslashes | 10_IFC_TO_GRAPH/neo4j_functions.py:269-270 | replacing the escape of `\` turns escaped backslashes into a new escape that a later match decodes |
| IfcText.SequentialDecodesTwice | 10_IFC_TO_GRAPH/neo4j_functions.py:267-271 | the encoded text `\X\00E4ä` comes back from the as-written decoder as "ää" and not as itself |
| IfcText.FindAllEncode | 10_IFC_TO_GRAPH/neo4j_functions.py:268 | `re.findall` on an encoded text finds the digits of every escape the encoder wrote, in order |
| IfcText.SequentialDecodeEncode | 10_IFC_TO_GRAPH/neo4j_functions.py:267-271 | the as-written decoder gives back every encoded text that holds no backslash: only a decoded backslash can open a new escape |
| IfcText.DecodeEncode | 10_IFC_TO_GRAPH/neo4j_functions.py:267-271 | the intended one-pass decoder (the corrected half of the decode_ifc_text finding, not the code as written) gives back every encoded text |
| IfcText.OnePassPlainUnchanged | 10_IFC_TO_GRAPH/neo4j_functions.py:267-271 | the intended one-pass decoder, like the as-written one, leaves a text without a backslash unchanged |
| FaceIndices.Flatten | 10_IFC_TO_GRAPH/003_MakeCSV_AdjacentWalls.py:148 | an index is in the flattened void list iff it is in some void tuple |
| FaceIndices.AnyVoidIndex | 10_IFC_TO_GRAPH/003_MakeCSV_AdjacentWalls.py:148 | the `any(...)` loop answers True iff some index of the face is in the void list |
| FaceIndices.CleanIndicesList | 10_IFC_TO_GRAPH/003_MakeCSV_AdjacentWalls.py:144-151 | the loop appends exactly the faces that use no void index, in input order |
| FaceIndices.CleanIndicesMembers | 10_IFC_TO_GRAPH/005A_EnrichtGraph_Alternative.py:126-135 | a face is kept iff it is in the input and none of its indices is in any void tuple |
| FaceIndices.CleanIndicesOrder | 10_IFC_TO_GRAPH/Deprecated/005_EnrichGraph2.py:125-134 | the result is a subsequence of the input; a kept face occurs as often as in the input, a face using a void not at all |
| FaceIndices.CleanIndicesIdentityAndIdempotent | 10_IFC_TO_GRAPH/003_MakeCSV_AdjacentWalls.py:144-151 | without voids every face is kept, and cleaning a cleaned list changes nothing |
| TouchTest.CheckedSharedFaces | 10_IFC_TO_GRAPH/003_MakeCSV_AdjacentWalls.py:23-36 | the try body raises iff the kernel raised, and answers True iff the merge has two cells sharing a face; fewer than two cells answer False |
| TouchTest.UncheckedSharedFaces | 10_IFC_TO_GRAPH/wall_to_wall_connectivity.py:13-18 | reading `Cells(merged)[0]` and `[1]` of a merge with fewer than two cells raises IndexError; a kernel exception propagates |
| TouchTest.CatchRuntimeError | 10_IFC_TO_GRAPH/003_MakeCSV_AdjacentWalls.py:38-42 | `except RuntimeError: continue` skips a RuntimeError and lets every other exception through |
| TouchTest.CatchNothing | 10_IFC_TO_GRAPH/wall_to_wall_connectivity.py:10-19 | without a handler every exception leaves the scan |
| TouchTest.CatchAll | 10_IFC_TO_GRAPH/005A_EnrichtGraph_Alternative.py:804-805 | `except Exception` never lets an exception through |
| TouchTest.ScanCellPairs | 10_IFC_TO_GRAPH/003_MakeCSV_AdjacentWalls.py:19-44 | the nested loops stop at the first pair that is not skipped, with True or its exception, and give False when every pair is skipped |
| TouchTest.FindTouchingWallsCaught | 10_IFC_TO_GRAPH/003_MakeCSV_AdjacentWalls.py:15-44 | no RuntimeError escapes, and True is returned only for a pair whose merge has two cells sharing a face |
| TouchTest.FindTouchingWallsUncaught | 10_IFC_TO_GRAPH/wall_to_wall_connectivity.py:6-21 | the unguarded test is the same scan with every exception propagated |
| TouchTest.FindTouchingWallsTyped | 10_IFC_TO_GRAPH/ifc_data_to_csv.py:282-313 | non-topology cells are skipped, no RuntimeError escapes, and the scan stops at the first touch |
| TouchTest.PairScanFirst | 10_IFC_TO_GRAPH/003_MakeCSV_AdjacentWalls.py:19-36 | when all pairs before (i, j) are skipped and (i, j) is not, the result is decided by (i, j) alone |
| TouchTest.PairScanAll | 10_IFC_TO_GRAPH/003_MakeCSV_AdjacentWalls.py:44 | when every pair is skipped the result is False |
| TouchTest.PairScanNoThrow | 10_IFC_TO_GRAPH/find_adjacent_walls.py:13-42 | when no pair throws, the answer is True iff some pair hits |
| TouchTest.CaughtTouchIff | 10_IFC_TO_GRAPH/find_adjacent_walls.py:13-42 | when the kernel raises only RuntimeError, the guarded test returns True iff some pair of cells merges into two cells sharing a face, and False otherwise |
| TouchTest.ShortMergeHandling | 10_IFC_TO_GRAPH/003_MakeCSV_AdjacentWalls.py:29-31 | a merge with fewer than two cells is skipped by the checked test, raises IndexError in the unguarded one, and does so in the typed one only for two topologies |
| TouchTest.UncaughtShortMergeRaises | 10_IFC_TO_GRAPH/wall_to_wall_connectivity.py:16 | the unguarded test raises at the first merge with fewer than two cells when no earlier pair touched |
| TouchTest.FindTouchingRooms | 10_IFC_TO_GRAPH/005A_EnrichtGraph_Alternative.py:790-807 | the loop over the room dict returns the touching rooms in dict order, or the first exception its step lets through |
| TouchTest.RoomScanNoThrow | 10_IFC_TO_GRAPH/Deprecated/005_EnrichGraph2.py:477-494 | when no room's step throws, the result is the rooms that hit, in dict order |
| TouchTest.FindTouchingRoomsCaughtResult | 10_IFC_TO_GRAPH/005A_EnrichtGraph_Alternative.py:790-807 | the guarded test never raises and returns, in dict order, exactly the rooms whose merge has two cells sharing a face |
| TouchTest.FindTouchingRoomsUncaughtRaises | 10_IFC_TO_GRAPH/09A_AddLayerInfostoNeo4j.py:386-400 | the unguarded test raises as soon as one room's merge fails or has fewer than two cells, whatever the other rooms give |
| TouchTest.RoomScanRaisedAt | 10_IFC_TO_GRAPH/09A_AddLayerInfostoNeo4j.py:393-398 | a room whose step throws makes the whole scan raise |
| WallAdjacency.Matches | 10_IFC_TO_GRAPH/003_MakeCSV_AdjacentWalls.py:174-177 | a wall is appended at most once per containing structure, and not at all iff no structure is accepted |
| WallAdjacency.CollectStoreyWallGuids | 10_IFC_TO_GRAPH/003_MakeCSV_AdjacentWalls.py:169-177 | the loops append each wall's GlobalId once per accepted containing structure, in `by_type` order |
| WallAdjacency.StoreyWallGuidsMembers | 10_IFC_TO_GRAPH/find_adjacent_walls.py:102-107 | a GlobalId is listed iff a wall carrying it has an accepted containing structure |
| WallAdjacency.StoreyWallGuidsCount | 10_IFC_TO_GRAPH/09A_AddLayerInfostoNeo4j.py:35-40 | with distinct GlobalIds a wall is listed exactly as often as it has accepted containing structures, so duplicates occur |
| WallAdjacency.NoStoreyNoWalls | 10_IFC_TO_GRAPH/003_MakeCSV_AdjacentWalls.py:167-177 | when no storey of that name was found, no wall is selected |
| WallAdjacency.HardCodedIgnoresConfig | 10_IFC_TO_GRAPH/03A_AddLayerInfostoNeo4j.py:23-36 | the filter compares with "Plan 10" and not with the configured storey name |
| WallAdjacency.FirstContaining | 10_IFC_TO_GRAPH/wall_to_wall_connectivity.py:35-36 | the first containment relation listing the element, or none iff no relation lists it |
| WallAdjacency.FindFirstContaining | 10_IFC_TO_GRAPH/wall_to_wall_connectivity.py:35-40 | the inner loop breaks at the first relation listing the wall |
| WallAdjacency.WallGuidsInStorey | 10_IFC_TO_GRAPH/wall_to_wall_connectivity.py:31-40 | a wall is appended iff its first containing relation has a storey of the configured name, in `by_type` order |
| WallAdjacency.ElementGuids | 10_IFC_TO_GRAPH/wall_to_wall_connectivity.py:39 | one GlobalId per wall, in order |
| WallAdjacency.LaterRelationIgnored | 10_IFC_TO_GRAPH/ifc_data_to_csv.py:322-328 | a wall listed first under another storey and only then under the target storey is not selected |
| WallAdjacency.SelectStoreyTopologies | 10_IFC_TO_GRAPH/wall_to_wall_connectivity.py:42-48 | the loop keeps the topologies whose `IFC_guid` is listed, in order |
| WallAdjacency.SelectedTopologies | 10_IFC_TO_GRAPH/ifc_data_to_csv.py:330-336 | a topology is kept iff its guid is listed, and the kept ones are a subsequence of all |
| WallAdjacency.GateWallCells | 10_IFC_TO_GRAPH/003_MakeCSV_AdjacentWalls.py:439-451 | `dic_walls` maps a GlobalId to the cells of its last wall with cells, and the scanned topologies are the walls with cells, in order |
| WallAdjacency.ScannedWallsHaveCells | 10_IFC_TO_GRAPH/find_adjacent_walls.py:346-358 | every scanned wall comes from the input and has at least one cell |
| WallAdjacency.FindTouchingPairs | 10_IFC_TO_GRAPH/003_MakeCSV_AdjacentWalls.py:453-459 | the nested `i < j` loops give the touching pairs of the scan, or the exception that ended it |
| WallAdjacency.ScanRow | 10_IFC_TO_GRAPH/003_MakeCSV_AdjacentWalls.py:457-459 | the inner loop for one `i` gives the pairs (i, j), j > i, whose test returned True, in order |
| WallAdjacency.ScanPairsShape | 10_IFC_TO_GRAPH/003_MakeCSV_AdjacentWalls.py:455-459 | the pairs are in increasing scan order with no repeats, and (i, j) is listed iff i < j and the test of walls i and j returned True |
| WallAdjacency.ScanPairsReturns | 10_IFC_TO_GRAPH/find_adjacent_walls.py:364-368 | when no pair's test raises, the scan finishes |
| WallAdjacency.EmptyNeighbourLists | 10_IFC_TO_GRAPH/003_MakeCSV_AdjacentWalls.py:463 | the dict has one key per scanned guid, in first-occurrence order, each with an empty list |
| WallAdjacency.BuildTouchingDict | 10_IFC_TO_GRAPH/003_MakeCSV_AdjacentWalls.py:463-467 | the keys are the scanned guids in first-occurrence order, even without neighbours, and each maps to the neighbours both appends give it |
| WallAdjacency.AddPairGet | 10_IFC_TO_GRAPH/003_MakeCSV_AdjacentWalls.py:466-467 | after the two appends of a pair (a, b), the list of a ends with b, the list of b ends with a, and the other lists are unchanged |
| WallAdjacency.AddPairValid | 10_IFC_TO_GRAPH/find_adjacent_walls.py:375-376 | the two appends keep the keys and keep them distinct |
| WallAdjacency.NeighboursSymmetric | 10_IFC_TO_GRAPH/003_MakeCSV_AdjacentWalls.py:465-467 | h occurs in the list of g exactly as often as g occurs in the list of h |
| WallAdjacency.PairListedBothWays | 10_IFC_TO_GRAPH/find_adjacent_walls.py:374-376 | each touching pair is recorded in the lists of both walls |
| WallAdjacency.NoSelfNeighbour | 10_IFC_TO_GRAPH/wall_to_wall_connectivity.py:67-72 | with distinct guids and no pair (i, i), no wall lists itself |
| WallAdjacency.ScannedDictProperties | 10_IFC_TO_GRAPH/wall_to_wall_connectivity.py:52-72 | after a scan that finished, the dict has a key for every scanned wall, is symmetric, and has no self-edge |
| RoomAdjacency.CellOid | 10_IFC_TO_GRAPH/topology_spaces_to_csv.py:5-10 | the "Name" value when the dictionary has a non-empty one, otherwise `str(cell)` |
| RoomAdjacency.ScanRoom | 10_IFC_TO_GRAPH/topology_spaces_to_csv.py:29-32 | the inner loop for room i gives the names of the rooms j != i whose test returned True, in cell order |
| RoomAdjacency.ScanRoomPairs | 10_IFC_TO_GRAPH/001_MakeCSV_AdjacentRooms.py:358-370 | the nested loops over all ordered pairs i != j build the `touching_cells` table |
| RoomAdjacency.TouchingOfStep | 10_IFC_TO_GRAPH/001_MakeCSV_AdjacentRooms.py:363-368 | name j is appended to room i's list iff j != i and the test of i with j returned True |
| RoomAdjacency.TouchingOfOrdered | 10_IFC_TO_GRAPH/topology_spaces_to_csv.py:30-32 | room i's list keeps the cell order of the names |
| RoomAdjacency.TouchingOfMembers | 10_IFC_TO_GRAPH/ifc_data_to_csv.py:133-135 | room i's list holds exactly the names of the other rooms whose test with i returned True |
| RoomAdjacency.TouchingOfReturns | 10_IFC_TO_GRAPH/001_MakeCSV_AdjacentRooms.py:363-368 | when no test of room i raises, its scan finishes |
| RoomAdjacency.TableFoldValid | 10_IFC_TO_GRAPH/001_MakeCSV_AdjacentRooms.py:369-370 | the table stays a dict with distinct keys |
| RoomAdjacency.TableFoldKeys | 10_IFC_TO_GRAPH/topology_spaces_to_csv.py:33-34 | a name is a key iff some room of that name has a non-empty list |
| RoomAdjacency.TableFoldEntry | 10_IFC_TO_GRAPH/ifc_data_to_csv.py:136-137 | with distinct names, room i's entry is its own list, and it is absent when the list is empty |
| RoomAdjacency.TouchingTableKeys | 10_IFC_TO_GRAPH/001_MakeCSV_AdjacentRooms.py:369-370 | a room gets an entry iff it, or a room of the same name, has at least one neighbour |
| RoomAdjacency.TouchingTableEntry | 10_IFC_TO_GRAPH/topology_spaces_to_csv.py:28-34 | with distinct names the table is a valid dict and room i's entry is its own list, absent when empty |
| RoomAdjacency.NoSelfListing | 10_IFC_TO_GRAPH/001_MakeCSV_AdjacentRooms.py:364 | with distinct names no room lists itself |
| RoomAdjacency.TouchingSymmetric | 10_IFC_TO_GRAPH/topology_spaces_to_csv.py:23-32 | with distinct names and a symmetric face test, j is listed for i iff i is listed for j |
| RoomAdjacency.RowsOf | 10_IFC_TO_GRAPH/001_MakeCSV_AdjacentRooms.py:376-378 | one row per kept entry |
| RoomAdjacency.CsvData | 10_IFC_TO_GRAPH/001_MakeCSV_AdjacentRooms.py:373-378 | the loop writes one row per entry that does not list its own key, in dict order, joined or spread |
| RoomAdjacency.DistinctNamesKeepAllRows | 10_IFC_TO_GRAPH/ifc_data_to_csv.py:139-144 | with distinct names the self-containment filter keeps every entry |
| RoomAdjacency.SharedNameDropsRow | 10_IFC_TO_GRAPH/topology_spaces_to_csv.py:38-41 | two touching cells with the same name make an entry that lists its own key, and no row is written for it |
| IfcProperties.ReadQuantity | 10_IFC_TO_GRAPH/neo4j_functions.py:284-290 | reading one quantity raises AttributeError exactly when its name asks for a value attribute its kind does not have |
| IfcProperties.ExtractQuantities | 10_IFC_TO_GRAPH/neo4j_functions.py:274-292 | the nested loops over IsDefinedBy and the quantity sets compute the same outcome as the reference fold |
| IfcProperties.LastValueMeaning | 10_IFC_TO_GRAPH/neo4j_functions.py:284-290 | a value is None iff no quantity has that name; otherwise it is the value of a quantity of that name after which none has it (the last one wins) |
| IfcProperties.LastValueAppend | 10_IFC_TO_GRAPH/neo4j_functions.py:284-290 | later quantities override earlier ones |
| IfcProperties.ReadQuantitiesMeaning | 10_IFC_TO_GRAPH/neo4j_functions.py:284-290 | one quantity set either overlays all its values or raises AttributeError, the latter iff some quantity is unreadable |
| IfcProperties.OverlayLatest | 10_IFC_TO_GRAPH/neo4j_functions.py:280-290 | reading sets one after the other equals reading their concatenation |
| IfcProperties.AllReadableAppend | 10_IFC_TO_GRAPH/neo4j_functions.py:284-290 | a concatenation is readable iff both parts are |
| IfcProperties.ReadDefinitionsMeaning | 10_IFC_TO_GRAPH/neo4j_functions.py:274-292 | the result is the last value of each name over all quantity sets, or AttributeError iff some relation is a type relation without a RelatingPropertyDefinition or some quantity lacks the value attribute its name asks for |
| IfcProperties.AbsentQuantityStaysNone | 10_IFC_TO_GRAPH/neo4j_functions.py:275-277 | a name that no quantity carries keeps its None initial value |
| IfcProperties.Convert | 10_IFC_TO_GRAPH/Deprecated/03_EnrichData.py:42-49 | the conversion raises exactly when the value type does not match the stored value; a bool is returned as stored; text goes through the as-written decoder |
| IfcProperties.ScanProperties | 10_IFC_TO_GRAPH/Deprecated/03_EnrichData.py:40-49 | the inner loop returns at the first property that fires, as the reference search |
| IfcProperties.ExtractPropertyValue | 10_IFC_TO_GRAPH/Deprecated/03_EnrichData.py:35-50 | the nested loops compute the reference outcome: the first firing property's converted value, otherwise None |
| IfcProperties.FirstFiringAppend | 10_IFC_TO_GRAPH/Deprecated/03_EnrichData.py:36-49 | in a concatenation the first part decides when something fires there |
| IfcProperties.FirstFiringMeaning | 10_IFC_TO_GRAPH/Deprecated/03_EnrichData.py:40-49 | nothing is found iff no property fires; otherwise the result comes from a firing property before which none fires |
| IfcProperties.NoSuchPropertyGivesNone | 10_IFC_TO_GRAPH/Deprecated/03_EnrichData.py:50 | without a property of the name the result is None |
| IfcProperties.UnknownValueTypeGivesNone | 10_IFC_TO_GRAPH/Deprecated/03_EnrichData.py:42-50 | a value type other than text, number, area and bool never returns, so the result is None |
| IfcProperties.FirstNamedPropertyDecides | 10_IFC_TO_GRAPH/Deprecated/03_EnrichData.py:41-49 | the first property of the name with a wrapped value decides the result, later ones are never read |
| IfcProperties.PlainTextKept | 10_IFC_TO_GRAPH/Deprecated/03_EnrichData.py:42-43 | a text value without a backslash is returned unchanged by the text branch |
| IfcProperties.RoomName | 10_IFC_TO_GRAPH/neo4j_functions.py:9 | a missing or empty LongName gives "N/A" |
| IfcProperties.RoomNameDecodes | 10_IFC_TO_GRAPH/neo4j_functions.py:9 | a non-empty long name without a backslash, written with IFC escapes, is read back by decode_ifc_text as the original name |
| IfcProperties.CreateIfcSpaceNodes | 10_IFC_TO_GRAPH/neo4j_functions.py:5-15 | the loop writes the nodes, and stops with the exception, as the reference run |
| IfcProperties.SpaceNodeMeaning | 10_IFC_TO_GRAPH/neo4j_functions.py:8-15 | a space gives its node (GlobalId, OID, name, quantities) iff its quantities can be read, else AttributeError |
| IfcProperties.SpaceNodesStop | 10_IFC_TO_GRAPH/neo4j_functions.py:7-15 | the loop raises iff some space is malformed; it stops at the first malformed one, after writing a node for each space before it |
| IfcProperties.SpaceNodesContents | 10_IFC_TO_GRAPH/neo4j_functions.py:7-15 | the k-th node written is the node of the k-th space; one node per space when nothing is raised |
| IfcProperties.SpaceNodesLast | 10_IFC_TO_GRAPH/neo4j_functions.py:7-15 | one more space extends the run by its node, or stops it with its exception |
| Enrich.GlobalIdOf | 10_IFC_TO_GRAPH/03_EnrichData.py:28-30 | a node's GlobalId is used exactly when the node has one and it is truthy |
| Enrich.ElementAttributes | 10_IFC_TO_GRAPH/03_EnrichData.py:15-22 | the attribute dict has exactly the requested names as keys, each holding the element's attribute or None when it lacks it |
| Enrich.GetIfcElementAttributes | 10_IFC_TO_GRAPH/03_EnrichData.py:15-22 | the loop builds that attribute dict |
| Enrich.EnrichOne | 10_IFC_TO_GRAPH/03_EnrichData.py:28-40 | one node's enrichment: unchanged without a truthy GlobalId, the exception when `by_guid` raises, otherwise overwritten with the element's attributes |
| Enrich.EnrichRaisesOnLookup | 10_IFC_TO_GRAPH/03_EnrichData.py:28-34 | a node raises exactly when it has a truthy GlobalId and `by_guid` raises for it, with that exception |
| Enrich.EnrichKeepsOthers | 10_IFC_TO_GRAPH/03_EnrichData.py:39-40 | an attribute that was not requested keeps its presence and its value |
| Enrich.EnrichSetsRequested | 10_IFC_TO_GRAPH/03_EnrichData.py:32-40 | on a node whose element is found every requested attribute holds the element's value |
| Enrich.EnrichIdempotent | 10_IFC_TO_GRAPH/03_EnrichData.py:25-40 | enriching an enriched node again changes nothing when GlobalId itself is not requested |
| Enrich.AttributedGraph.constructor | 10_IFC_TO_GRAPH/03_EnrichData.py:25 | a graph with the given node order and node data |
| Enrich.AttributedGraph.EnrichGraphWithIfcData | 10_IFC_TO_GRAPH/03_EnrichData.py:25-40 | the nodes are enriched from their own old data, in order, until a `by_guid` lookup raises: the nodes before it stay enriched, it and the later nodes keep their data, and its exception is returned; nodes not in the order are unchanged and the key set is kept |
| Enrich.Assign | 10_IFC_TO_GRAPH/Deprecated/03_EnrichData.py:61-68 | the assignments of a plan never remove an attribute |
| Enrich.AssignKeeps | 10_IFC_TO_GRAPH/Deprecated/03_EnrichData.py:61-68 | an attribute the plan does not assign keeps its value, even when an assignment raises |
| Enrich.PlansAvoidObject | 10_IFC_TO_GRAPH/Deprecated/03_EnrichData.py:61-99 | none of the window, door and space plans assigns 'Object' |
| Enrich.NodeStep | 10_IFC_TO_GRAPH/Deprecated/03_EnrichData.py:54-68 | a node's step never removes an attribute |
| Enrich.NodeStepMarks | 10_IFC_TO_GRAPH/Deprecated/03_EnrichData.py:55-56 | a node with the kind's prefix carries the kind's 'Object' after its step, whether or not it raised |
| Enrich.EnrichRun | 10_IFC_TO_GRAPH/Deprecated/03_EnrichData.py:53-99 | the loop keeps the graph's node set |
| Enrich.OtherNodesUntouched | 10_IFC_TO_GRAPH/Deprecated/03_EnrichData.py:55 | a node without the kind's prefix (Window_, Door_, Room_) is never changed |
| Enrich.VisitedNodesMarked | 10_IFC_TO_GRAPH/Deprecated/03_EnrichData.py:56 | when the loop ends normally every visited node of the kind carries 'Object' = Window, Door or Room |
| Enrich.MissingLongNameIsNA | 10_IFC_TO_GRAPH/Deprecated/03_EnrichData.py:95 | a space without a LongName gets 'Long Name' = 'N/A' |
| Enrich.AttributedGraph.EnrichKind | 10_IFC_TO_GRAPH/Deprecated/03_EnrichData.py:53-99 | the graph's new data and the exception, if any, are those of the reference run over its nodes |
| Enrich.AttributedGraph.EnrichGraphWithIfcWindowData | 10_IFC_TO_GRAPH/Deprecated/03_EnrichData.py:53-68 | the reference run for windows |
| Enrich.AttributedGraph.EnrichGraphWithIfcDoorData | 10_IFC_TO_GRAPH/Deprecated/03_EnrichData.py:71-84 | the reference run for doors |
| Enrich.AttributedGraph.EnrichGraphWithIfcSpaceData | 10_IFC_TO_GRAPH/Deprecated/03_EnrichData.py:87-99 | the reference run for rooms |
| Enrich.RunEnrich | 10_IFC_TO_GRAPH/Deprecated/03_EnrichData.py:53-99 | the loop over the nodes, on a map, gives the reference run |
| LayerChain.FacingWrites | 10_IFC_TO_GRAPH/005A_EnrichtGraph_Alternative.py:850-852 | one IsFacing link from the layer to each room found, in the order found |
| LayerChain.ProcessLayer | 10_IFC_TO_GRAPH/005A_EnrichtGraph_Alternative.py:826-854 | one turn of the layer loop writes, and raises, what the reference step does |
| LayerChain.ProcessWall | 10_IFC_TO_GRAPH/005A_EnrichtGraph_Alternative.py:817-854 | the layer loop of one wall, starting with no previous id, gives the reference run |
| LayerChain.ProcessWalls | 10_IFC_TO_GRAPH/005A_EnrichtGraph_Alternative.py:813-855 | the loop over all walls gives the reference run, the first exception ending it |
| LayerChain.UniqueIdInjective | 10_IFC_TO_GRAPH/005A_EnrichtGraph_Alternative.py:831 | within one wall, two layers get the same unique id only when they have the same index and the same material name |
| LayerChain.PreviousIdLast | 10_IFC_TO_GRAPH/005A_EnrichtGraph_Alternative.py:840-844 | the previous id is None iff no earlier layer was named, and otherwise is the id of the last named layer before this one |
| LayerChain.LayerStepWrites | 10_IFC_TO_GRAPH/005A_EnrichtGraph_Alternative.py:829-852 | every write of a layer's step is its own Material node, its ConsistsOf link from the wall, its InternallyConnected link from the previous id, or an IsFacing link (first or last layer only) to a room the test found |
| LayerChain.LayerStepHas | 10_IFC_TO_GRAPH/005A_EnrichtGraph_Alternative.py:834-852 | a named layer writes its node, its ConsistsOf link, its InternallyConnected link when an earlier layer was named, and its IsFacing links for the first and last layer |
| LayerChain.WallRunFrom | 10_IFC_TO_GRAPH/005A_EnrichtGraph_Alternative.py:825-854 | every write of a wall comes from one of its layers |
| LayerChain.WallRunHas | 10_IFC_TO_GRAPH/005A_EnrichtGraph_Alternative.py:825-854 | when the wall finishes, every write of each of its layers is made |
| LayerChain.WallMaterialNodes | 10_IFC_TO_GRAPH/005A_EnrichtGraph_Alternative.py:825-834 | the Material nodes are exactly one per named layer, indexed by the layer's position among all layers, unnamed ones included |
| LayerChain.WallChain | 10_IFC_TO_GRAPH/005A_EnrichtGraph_Alternative.py:839-844 | the InternallyConnected links of a wall join each named layer to the last named layer before it, and only those |
| LayerChain.WallChainStart | 10_IFC_TO_GRAPH/005A_EnrichtGraph_Alternative.py:817 | the first named layer of a wall has no incoming InternallyConnected link: the chain restarts at every wall |
| LayerChain.WallFacing | 10_IFC_TO_GRAPH/005A_EnrichtGraph_Alternative.py:847-852 | IsFacing links leave only the first or the last layer of a wall, toward rooms its test returned |
| LayerChain.WallRunReturns | 10_IFC_TO_GRAPH/005A_EnrichtGraph_Alternative.py:825-854 | a wall whose tests all return finishes without an exception |
| LayerChain.AllWallsFrom | 10_IFC_TO_GRAPH/005A_EnrichtGraph_Alternative.py:815-855 | every write of the script comes from one wall's run |
| LayerChain.AllWallsHas | 10_IFC_TO_GRAPH/005A_EnrichtGraph_Alternative.py:815-855 | when the script finishes, every write of every wall is made |
| LayerChain.AllWallsReturns | 10_IFC_TO_GRAPH/005A_EnrichtGraph_Alternative.py:815-855 | the script finishes without an exception when every test returns |
| LayerChain.AllWallsChain | 10_IFC_TO_GRAPH/005A_EnrichtGraph_Alternative.py:817-844 | InternallyConnected links never cross walls |
| LayerChain.GuardedNeverRaises | 10_IFC_TO_GRAPH/005A_EnrichtGraph_Alternative.py:790-807 | with the handler around the merge the layer loop never stops on an exception |
| LayerChain.GuardedTouchingResult | 10_IFC_TO_GRAPH/005A_EnrichtGraph_Alternative.py:820-823 | a room is found for a layer iff it is contained in the wall, has a topology, and merges with the layer into two cells sharing a face |
| LayerChain.GuardedWallFacing | 10_IFC_TO_GRAPH/005A_EnrichtGraph_Alternative.py:847-852 | the first or last named layer faces exactly the rooms found for it |
| LayerChain.GuardedFacing | 10_IFC_TO_GRAPH/Deprecated/005_EnrichGraph2.py:528-575 | in the guarded scripts the IsFacing links are exactly the pairs of an outer named layer and a room found for it |
| LayerChain.UnguardedFirstLayerRaises | 10_IFC_TO_GRAPH/09A_AddLayerInfostoNeo4j.py:386-400 | without a handler, one failing merge of the first wall's first named layer against any room of dic_spaces ends the whole script |
| SpaceFilters.FilterIfcSpacesByStorey | 10_IFC_TO_GRAPH/001_MakeCSV_AdjacentRooms.py:13-21 | the loop with its `break` keeps, in order, the spaces aggregated into a storey of that name, each once |
| SpaceFilters.StoreyFilterKeepsOnce | 10_IFC_TO_GRAPH/001_MakeCSV_AdjacentRooms.py:15-20 | a space in the storey occurs in the result as often as in the input (the `break` stops a second append), any other not at all; the result is a subsequence of the input |
| SpaceFilters.StoreyFilterIdempotent | 10_IFC_TO_GRAPH/001_MakeCSV_AdjacentRooms.py:13-21 | filtering twice by the same storey is filtering once |
| SpaceFilters.FilterSpacesByName | 10_IFC_TO_GRAPH/001_MakeCSV_AdjacentRooms.py:43-48 | the loop gives the reference outcome of the name rule applied to each space |
| SpaceFilters.NameFilterResult | 10_IFC_TO_GRAPH/main.py:24-31 | the filter raises TypeError iff some space has no Name; otherwise it keeps, in order, exactly the spaces whose name the rule accepts |
| SpaceFilters.ExcludeRuleMeaning | 10_IFC_TO_GRAPH/001_MakeCSV_AdjacentRooms.py:43-46 | a name is kept iff it does not start with "Area:" and contains no '-' |
| SpaceFilters.DigitRuleExamples | 10_IFC_TO_GRAPH/main.py:26-29 | the digit rule keeps "101" and "101\n" and rejects "", "123456", "1a" and "12\n\n" |
| SpaceFilters.StoreyThenNameFilter | 10_IFC_TO_GRAPH/002_MakeCSV_ReadFromIFC.py:26-61 | storey filter then name filter keep exactly the spaces satisfying both, in input order |
| SpaceFilters.GuidsOf | 10_IFC_TO_GRAPH/001_MakeCSV_AdjacentRooms.py:51-55 | one guid per space |
| SpaceFilters.GetGuidsOfSpaces | 10_IFC_TO_GRAPH/001_MakeCSV_AdjacentRooms.py:51-55 | the k-th guid is the GlobalId of the k-th space |
| SpaceFilters.PropertySetHasCategory | 10_IFC_TO_GRAPH/004_BuildGraph.py:33-36 | the property loop with its `break` gives the reference search: true at the first Category property equal to the value, AttributeError when a Category property has no NominalValue |
| SpaceFilters.FilterSpacesByCategory | 10_IFC_TO_GRAPH/004_BuildGraph.py:19-38 | the nested loops give the reference outcome: each space once for every property set holding the category |
| SpaceFilters.CategoryDuplicates | 10_IFC_TO_GRAPH/004_BuildGraph.py:27-36 | the `break` leaves only the inner loop, so a space with two matching property sets is listed twice |
| SpaceFilters.FindIfcStorey | 10_IFC_TO_GRAPH/002_MakeCSV_ReadFromIFC.py:12-23 | None iff no storey has that Name; otherwise the first storey that has it |
| SpaceFilters.CollectSpaceTopologies | 10_IFC_TO_GRAPH/09A_AddLayerInfostoNeo4j.py:349-367 | dic_spaces maps each guid to the last topology stored under it, skipping those whose lookup raises or has no dictionary or no guid; its keys are the stored guids in the order each was first stored |
| SpaceFilters.RelevantRooms | 10_IFC_TO_GRAPH/005A_EnrichtGraph_Alternative.py:823 | a guid maps to its topology iff it is among the wall's rooms and in dic_spaces |
| Relations.AppendToGet | 10_IFC_TO_GRAPH/doorinfo_to_csv.py:23-26 | appending to a key extends that key's list, or starts it, and leaves every other key alone |
| Relations.AppendToKeys | 10_IFC_TO_GRAPH/doorinfo_to_csv.py:23-26 | a new key goes to the end of the dict's order, an existing one keeps its place; keys stay distinct |
| Relations.GroupValid | 10_IFC_TO_GRAPH/doorinfo_to_csv.py:10-26 | the grouped dict has distinct keys |
| Relations.GroupGet | 10_IFC_TO_GRAPH/doorinfo_to_csv.py:10-26 | a key's list is exactly the values entered under it, in entry order; a key never entered is absent |
| Relations.GroupKeys | 10_IFC_TO_GRAPH/doorinfo_to_csv.py:31 | the keys come in the order of their first entry |
| Relations.GetStorey | 10_IFC_TO_GRAPH/Deprecated/windowinfo_to_csv.py:4-9 | None iff no containing structure is a storey; otherwise the first storey among them |
| Relations.FirstStorey | 10_IFC_TO_GRAPH/Deprecated/windowinfo_to_csv.py:6-9 | the first storey of a list of structures, None iff none |
| Relations.DoorToRoom | 10_IFC_TO_GRAPH/doorinfo_to_csv.py:7-26 | the loop builds the grouped dict of the (door, room) entries that pass the door test |
| Relations.WindowToRoom | 10_IFC_TO_GRAPH/Deprecated/windowinfo_to_csv.py:14-32 | the loop builds the grouped dict of the (window, room) entries that pass the window test |
| Relations.CreateThenAppend | 10_IFC_TO_GRAPH/Deprecated/windowinfo_to_csv.py:30-32 | creating an empty list for a new key and then appending is the same as the door script's append-or-create |
| Relations.DoorRows | 10_IFC_TO_GRAPH/doorinfo_to_csv.py:28-37 | no door file iff door_to_room is empty |
| Relations.DoorTable | 10_IFC_TO_GRAPH/doorinfo_to_csv.py:10-34 | the door table has distinct doors in first-met order, each with exactly its rooms in relation order, repeats kept |
| Relations.EntriesMembers | 10_IFC_TO_GRAPH/doorinfo_to_csv.py:12-22 | an entry exists iff some boundary has an element passing the test and a room, with those guids |
| Relations.NoDoorFile | 10_IFC_TO_GRAPH/doorinfo_to_csv.py:28 | no door file is written iff no boundary has a door of the storey and a room |
| Relations.WindowRows | 10_IFC_TO_GRAPH/Deprecated/windowinfo_to_csv.py:35-39 | one row per window in the dict, the file written even when empty |
| Relations.WindowWithoutStorey | 10_IFC_TO_GRAPH/Deprecated/windowinfo_to_csv.py:24-25 | a listed window in no storey passes when the target storey is None |
| Relations.DoorUsesFirstRelation | 10_IFC_TO_GRAPH/doorinfo_to_csv.py:17-18 | a door whose first containing structure is not the target storey is left out, whatever later relations say |
| Relations.SpaceToWalls | 10_IFC_TO_GRAPH/room_bounding_walls_to_csv.py:7-25 | one entry per space, in order, holding the space's guid and its bounding walls, even when there are none |
| Relations.BoundingWallsMembers | 10_IFC_TO_GRAPH/room_bounding_walls_to_csv.py:15-19 | a guid is listed for a space iff some boundary of that space has an IfcWall of that guid as its element |
| Relations.RoomWithoutWalls | 10_IFC_TO_GRAPH/room_bounding_walls_to_csv.py:33-37 | a space without walls gets a row with an empty second field |
| Relations.FirstFill | 10_IFC_TO_GRAPH/Deprecated/hosts_of_windows_and_doors.py:24-28 | None iff no fills relation names the element; otherwise the opening of the first one that does |
| Relations.FindOpening | 10_IFC_TO_GRAPH/Deprecated/hosts_of_windows_and_doors.py:24-28 | the loop with its `break` finds that first opening |
| Relations.HostingWall | 10_IFC_TO_GRAPH/Deprecated/hosts_of_windows_and_doors.py:10-14 | None iff no voids relation names the opening; otherwise the building element of the first one that does |
| Relations.FindHostingWall | 10_IFC_TO_GRAPH/Deprecated/hosts_of_windows_and_doors.py:10-14 | the loop returns that first host |
| Relations.HostingWallAt | 10_IFC_TO_GRAPH/Deprecated/hosts_of_windows_and_doors.py:11-13 | the first voids relation of the opening decides the host |
| Relations.ElementsToWalls | 10_IFC_TO_GRAPH/Deprecated/hosts_of_windows_and_doors.py:7-39 | a missing storey raises AttributeError; otherwise the nested loops give the host rows of the storey's elements, relation by relation |
| Relations.RelatedElementRows | 10_IFC_TO_GRAPH/Deprecated/hosts_of_windows_and_doors.py:18-39 | the inner loop gives the host rows of one relation's elements in order |
| Relations.ElementHostRow | 10_IFC_TO_GRAPH/Deprecated/hosts_of_windows_and_doors.py:19-39 | one element's body gives its host row, if any |
| Relations.HostRowMeaning | 10_IFC_TO_GRAPH/Deprecated/hosts_of_windows_and_doors.py:19-39 | at most one row per element; a row exactly for a door or window with a fills opening that has a host, naming its type, guid and the host's guid |
| Relations.HostRowsCount | 10_IFC_TO_GRAPH/Deprecated/hosts_of_windows_and_doors.py:17-39 | there are at most as many rows as contained elements |
| Neo4jGraph.StrLeTotal | 10_IFC_TO_GRAPH/neo4j_functions.py:241 | Python's string order compares any two strings |
| Neo4jGraph.StrLeAntisymmetric | 10_IFC_TO_GRAPH/neo4j_functions.py:241 | two strings each at most the other are equal |
| Neo4jGraph.Sorted2 | 10_IFC_TO_GRAPH/neo4j_functions.py:241 | `sorted([a, b])` is a or b then the other, in order |
| Neo4jGraph.Sorted2Symmetric | 10_IFC_TO_GRAPH/neo4j_functions.py:241 | sorting a pair does not depend on the order it was given in |
| Neo4jGraph.AddEdge | 10_IFC_TO_GRAPH/neo4j_functions.py:240-264 | the edge joins the two ids; Direct, Door and Window become an Access edge with that AccessType, any other category is the relation name with no AccessType |
| Neo4jGraph.AddEdgeSorted | 10_IFC_TO_GRAPH/neo4j_functions.py:241-264 | the edge runs from the smaller id to the larger |
| Neo4jGraph.AddEdgeSymmetric | 10_IFC_TO_GRAPH/neo4j_functions.py:241-264 | swapping the two ids writes the same edge |
| Neo4jGraph.SortedPairEdge | 10_IFC_TO_GRAPH/neo4j_functions.py:219-221 | sorting the pair before the call, as the callers do, changes nothing |
| Neo4jGraph.AddEdgeLoop | 10_IFC_TO_GRAPH/neo4j_functions.py:240-264 | an edge is a loop iff the two ids are equal |
| Neo4jGraph.RunRowsOutcome | 10_IFC_TO_GRAPH/neo4j_functions.py:166-191 | a csv loop ends with an exception iff some row raises; with none it made every row's writes in order |
| Neo4jGraph.OidOf | 10_IFC_TO_GRAPH/neo4j_functions.py:171 | None iff no element has the guid; otherwise the id of the first that has it |
| Neo4jGraph.FindOid | 10_IFC_TO_GRAPH/neo4j_functions.py:184 | the generator with `next` gives that first id |
| Neo4jGraph.UnknownGuidNeverResolves | 10_IFC_TO_GRAPH/neo4j_functions.py:184-185 | a guid no wall carries never passes the `if ..._oid:` test |
| Neo4jGraph.ProcessDirectConnections | 10_IFC_TO_GRAPH/neo4j_functions.py:209-222 | the line loop makes the reference writes of every line, in order |
| Neo4jGraph.ConnectDirect | 10_IFC_TO_GRAPH/neo4j_functions.py:217-222 | the neighbour loop makes one Direct edge per neighbour different from the main room |
| Neo4jGraph.DirectEdgesMembers | 10_IFC_TO_GRAPH/neo4j_functions.py:217-222 | an edge is written for a room iff it joins it to a listed neighbour other than itself |
| Neo4jGraph.DirectConnectionEdges | 10_IFC_TO_GRAPH/neo4j_functions.py:212-222 | an edge is written iff some line has a second field listing a neighbour different from its first field, and it joins those two |
| Neo4jGraph.DirectConnectionsNoLoops | 10_IFC_TO_GRAPH/neo4j_functions.py:218 | no Direct edge is a loop; each is an Access edge of type Direct |
| Neo4jGraph.ProcessElementConnections | 10_IFC_TO_GRAPH/neo4j_functions.py:224-238 | the line loop makes the reference writes of every line, in order |
| Neo4jGraph.ConnectRoomPairs | 10_IFC_TO_GRAPH/neo4j_functions.py:232-238 | the two nested loops write the reference pair edges |
| Neo4jGraph.ConnectRoomRow | 10_IFC_TO_GRAPH/neo4j_functions.py:233-238 | the inner loop for i writes the edges to every later different id |
| Neo4jGraph.PairMembers | 10_IFC_TO_GRAPH/neo4j_functions.py:232-238 | a pair write exists iff some indices i < j (i in the outer range) hold different ids, and it is theirs |
| Neo4jGraph.ElementPairMembers | 10_IFC_TO_GRAPH/neo4j_functions.py:232-238 | an edge is written for exactly the index pairs i < j whose ids differ |
| Neo4jGraph.SingleRoomNoEdges | 10_IFC_TO_GRAPH/neo4j_functions.py:232 | zero or one room gives no edge |
| Neo4jGraph.ElementPairCount | 10_IFC_TO_GRAPH/neo4j_functions.py:232-238 | k distinct rooms give k(k-1)/2 writes |
| Neo4jGraph.ProcessWallAdjacency | 10_IFC_TO_GRAPH/neo4j_functions.py:177-191 | the row loop makes the reference writes and stops at the first row that raises |
| Neo4jGraph.ConnectResolved | 10_IFC_TO_GRAPH/neo4j_functions.py:186-191 | one IsConnected edge per listed wall that resolves, in order |
| Neo4jGraph.JoinedRowReadsAll | 10_IFC_TO_GRAPH/neo4j_functions.py:182-191 | a row whose neighbours are joined with ',' is read whole: one edge per resolving neighbour |
| Neo4jGraph.EmptyJoinedRowNoEdges | 10_IFC_TO_GRAPH/neo4j_functions.py:183-188 | a joined row with no neighbour writes no edge when every wall has a GlobalId |
| Neo4jGraph.SpreadRowReadsFirstOnly | 10_IFC_TO_GRAPH/neo4j_functions.py:183 | a row with one field per neighbour is read as if only the first neighbour were listed |
| Neo4jGraph.LoneWallRowRaises | 10_IFC_TO_GRAPH/neo4j_functions.py:183 | a one-field row raises IndexError, which ends the import |
| Neo4jGraph.AdjacencyEdgesResolve | 10_IFC_TO_GRAPH/neo4j_functions.py:184-191 | each edge read from a row joins the row's wall to another wall, both resolving |
| Neo4jGraph.ProcessWallsAndRooms | 10_IFC_TO_GRAPH/neo4j_functions.py:163-175 | the row loop makes the reference writes and stops at the first row that raises |
| Neo4jGraph.ContainResolved | 10_IFC_TO_GRAPH/neo4j_functions.py:170-175 | one ContainedIn edge per listed wall that resolves, in order |
| Neo4jGraph.BoundingWallsRowRead | 10_IFC_TO_GRAPH/neo4j_functions.py:168-175 | a room-bounding-walls row is read back with one edge per resolving wall, none for a space without walls |
| Neo4jGraph.ProcessElementHosts | 10_IFC_TO_GRAPH/neo4j_functions.py:193-207 | the row loop makes the reference writes and stops at the first row that raises |
| Neo4jGraph.HostedByNeedsBoth | 10_IFC_TO_GRAPH/neo4j_functions.py:202-207 | a row writes exactly one HostedBy edge when both the element and the wall resolve, and none otherwise |
| Neo4jGraph.FirstWithGuid | 10_IFC_TO_GRAPH/neo4j_functions.py:43 | None iff no element has the guid; otherwise the first element that has it |
| Neo4jGraph.ReadPropertiesMeaning | 10_IFC_TO_GRAPH/neo4j_functions.py:48-52 | reading a node's properties one after the other raises iff some `extract_property_value` call raises, with the exception of the first that does; otherwise each property holds that call's result |
| Neo4jGraph.TextNumberRaises | 10_IFC_TO_GRAPH/neo4j_functions.py:72-73 | a property whose value is text, read as a number, raises TypeError (`round` of a text) |
| Neo4jGraph.ReadElementProperties | 10_IFC_TO_GRAPH/neo4j_functions.py:47-52 | the straight-line reads of Height, Width, Area, Sill Height (windows only) and IsExternal give the reference reading, stopping at the first exception |
| Neo4jGraph.ElementKeys | 10_IFC_TO_GRAPH/neo4j_functions.py:80-120 | a window node carries Height, Width, Area, SillHeight and IsExternal in that order; a door node the same without SillHeight |
| Neo4jGraph.ProcessDoorsAndWindows | 10_IFC_TO_GRAPH/neo4j_functions.py:35-61 | the line loop makes the reference writes of every line, in order, and stops at the first line whose property read raises |
| Neo4jGraph.ConnectRooms | 10_IFC_TO_GRAPH/neo4j_functions.py:58-61 | one ContainedIn edge per listed room, in order |
| Neo4jGraph.DoorWindowLineWrites | 10_IFC_TO_GRAPH/neo4j_functions.py:39-61 | an unknown element writes nothing; a known one raises iff one of its property reads raises; a known window or door without a second field writes only its node, with the properties read |
| Neo4jGraph.TextHeightEndsDoorWindowLoop | 10_IFC_TO_GRAPH/neo4j_functions.py:38-56 | a window whose Height is text ends the loop with TypeError at its line: earlier lines' writes stay, later lines are not read |
| Neo4jGraph.ReadWallProperties | 10_IFC_TO_GRAPH/neo4j_functions.py:130-135 | the straight-line reads of LoadBearing, IsExternal, Width, Height and Length give the reference reading, stopping at the first exception |
| Neo4jGraph.ProcessWalls | 10_IFC_TO_GRAPH/neo4j_functions.py:122-139 | the wall loop makes the reference writes and stops at the first wall on the storey whose property read raises |
| Neo4jGraph.WallNodesMembers | 10_IFC_TO_GRAPH/neo4j_functions.py:125-139 | the loop raises iff a wall on the storey has a property that cannot be read; otherwise a Wall node, with the wall's Name and properties, is written exactly for each wall whose first containing structure has the storey name |
| InteractiveGraph.MergeNode | 10_IFC_TO_GRAPH/02_Altern_InteractiveGraph.py:186 | `add_node` on an existing node sets the colour and GlobalId given and keeps an OID not given |
| InteractiveGraph.WithNode | 10_IFC_TO_GRAPH/02_Altern_InteractiveGraph.py:184-186 | `add_node` keeps the graph valid and the edges unchanged, adds exactly the name given, leaves the other nodes' attributes and keeps the node order as a prefix |
| InteractiveGraph.MergeEdge | 10_IFC_TO_GRAPH/02_Altern_InteractiveGraph.py:55 | `add_edge` on an existing edge replaces the attributes given and keeps the others |
| InteractiveGraph.PutAllMembers | 10_IFC_TO_GRAPH/02_Altern_InteractiveGraph.py:46-55 | after a run of `add_edge` calls an edge exists iff it existed or the run names it |
| InteractiveGraph.PutAllValue | 10_IFC_TO_GRAPH/02_Altern_InteractiveGraph.py:46-55 | an edge the run names carries the run's attributes over its old ones; every other edge is unchanged |
| InteractiveGraph.PutAllWithin | 10_IFC_TO_GRAPH/02_Altern_InteractiveGraph.py:46-55 | a run of edges between nodes of a set adds no edge leaving the set |
| InteractiveGraph.LastWithGlobalId | 10_IFC_TO_GRAPH/02_Altern_InteractiveGraph.py:49-53 | the loop without `break` finds nothing iff no node has the GlobalId, else the last node that has it |
| InteractiveGraph.FirstWithGlobalId | 10_IFC_TO_GRAPH/02_Altern_InteractiveGraph.py:122-125 | the loop with `break` finds nothing iff no node has the GlobalId, else the first node that has it |
| InteractiveGraph.FindEnds | 10_IFC_TO_GRAPH/02_Altern_InteractiveGraph.py:47-53 | the one-pass loop over the nodes finds the last node with each end's GlobalId |
| InteractiveGraph.FindFirst | 10_IFC_TO_GRAPH/02_Altern_InteractiveGraph.py:81-85 | the node loop that breaks finds the first node with the GlobalId |
| InteractiveGraph.NeighbourPairsMembers | 10_IFC_TO_GRAPH/Deprecated/02_Altern_InteractiveGraph.py:37-42 | a pair is listed for a line iff it joins the main room to a neighbour, the room itself excluded when self-references are dropped |
| InteractiveGraph.ConcatMapMembers | 10_IFC_TO_GRAPH/02_Altern_InteractiveGraph.py:38-44 | a pair is collected iff some line contributes it |
| InteractiveGraph.ConcatMapStep | 10_IFC_TO_GRAPH/02_Altern_InteractiveGraph.py:38-44 | one more line appends exactly that line's pairs |
| InteractiveGraph.RoomPairsMembers | 10_IFC_TO_GRAPH/02_Altern_InteractiveGraph.py:38-44 | a pair is collected from a file iff some line of it lists it |
| InteractiveGraph.CollectNeighbourPairs | 10_IFC_TO_GRAPH/02_Altern_InteractiveGraph.py:42-44 | the loop over the neighbours appends the line's pairs in order |
| InteractiveGraph.CollectRoomPairs | 10_IFC_TO_GRAPH/02_Altern_InteractiveGraph.py:36-44 | the first loop over the lines collects the pairs of every line in order, self-references kept (and dropped in 10_IFC_TO_GRAPH/Deprecated/02_Altern_InteractiveGraph.py:31-42) |
| InteractiveGraph.OrderedPairsMembers | 10_IFC_TO_GRAPH/Deprecated/02_Altern_InteractiveGraph.py:64-68 | the nested index loops list a pair iff it joins two different ids, the first listed before the second |
| InteractiveGraph.CollectOrderedPairs | 10_IFC_TO_GRAPH/Deprecated/02_Altern_InteractiveGraph.py:64-68 | the nested loops collect exactly those pairs, in loop order |
| InteractiveGraph.ElementPairsDiffer | 10_IFC_TO_GRAPH/Deprecated/02_Altern_InteractiveGraph.py:56-68 | no pair process_element_connections collects joins a room to itself |
| InteractiveGraph.CollectElementPairs | 10_IFC_TO_GRAPH/Deprecated/02_Altern_InteractiveGraph.py:57-68 | the line loop collects the ordered room pairs of every line |
| InteractiveGraph.EndsKey | 10_IFC_TO_GRAPH/02_Altern_InteractiveGraph.py:54-55 | an edge is added iff both rooms are found and named, and it joins exactly those two nodes |
| InteractiveGraph.PutAllStep | 10_IFC_TO_GRAPH/02_Altern_InteractiveGraph.py:46-55 | one more pair applies one more `add_edge` when its ends are found and nothing otherwise |
| InteractiveGraph.PairKeys | 10_IFC_TO_GRAPH/02_Altern_InteractiveGraph.py:46-53 | one lookup per collected pair, in order |
| InteractiveGraph.PairKeysWithin | 10_IFC_TO_GRAPH/02_Altern_InteractiveGraph.py:49-55 | every edge the second loop asks for joins nodes of the graph |
| InteractiveGraph.ConnectValid | 10_IFC_TO_GRAPH/02_Altern_InteractiveGraph.py:46-55 | the connection loop keeps the graph valid and its nodes unchanged |
| InteractiveGraph.ConnectPairs | 10_IFC_TO_GRAPH/02_Altern_InteractiveGraph.py:46-55 | the second loop yields the edges of the connection specification |
| InteractiveGraph.PairKeysMembers | 10_IFC_TO_GRAPH/02_Altern_InteractiveGraph.py:46-55 | an edge is asked for iff some pair's two ends are found as it |
| InteractiveGraph.ConnectEdges | 10_IFC_TO_GRAPH/02_Altern_InteractiveGraph.py:46-55 | after the loop an edge exists iff it did or some pair's ends give it; an added edge carries the `Access` over its old attributes, an untouched one is unchanged |
| InteractiveGraph.PairKeyTwoEnds | 10_IFC_TO_GRAPH/Deprecated/02_Altern_InteractiveGraph.py:44-53 | a pair of different GlobalIds never yields a self-loop |
| InteractiveGraph.ConnectTwoEnds | 10_IFC_TO_GRAPH/Deprecated/02_Altern_InteractiveGraph.py:44-53 | a loop over pairs of different ids adds only edges with two ends |
| InteractiveGraph.DirectConnectionsNoSelfLoop | 10_IFC_TO_GRAPH/Deprecated/02_Altern_InteractiveGraph.py:31-53 | process_direct_connections adds no self-loop |
| InteractiveGraph.ElementConnectionsNoSelfLoop | 10_IFC_TO_GRAPH/Deprecated/02_Altern_InteractiveGraph.py:56-79 | process_element_connections adds no self-loop |
| InteractiveGraph.RoomConnectionsSelfLoop | 10_IFC_TO_GRAPH/02_Altern_InteractiveGraph.py:35-55 | process_csv_room_connections gives a room listed as its own neighbour a self-loop with the file's `Access` |
| InteractiveGraph.AfterLastIfc | 10_IFC_TO_GRAPH/02_Altern_InteractiveGraph.py:71 | `split('Ifc')[-1]` is never longer than the type name |
| InteractiveGraph.AfterLastIfcPrefix | 10_IFC_TO_GRAPH/02_Altern_InteractiveGraph.py:71 | for "Ifc" followed by a name without "Ifc", the last piece is that name |
| InteractiveGraph.DoorAndWindowLabels | 10_IFC_TO_GRAPH/02_Altern_InteractiveGraph.py:192-195 | "IfcDoor" and "IfcWindow" give the node prefixes "Door" and "Window" |
| InteractiveGraph.WallLabelInjective | 10_IFC_TO_GRAPH/02_Altern_InteractiveGraph.py:105 | different walls get different `Wall_<oid>` nodes |
| InteractiveGraph.AddNodes | 10_IFC_TO_GRAPH/02_Altern_InteractiveGraph.py:183-186 | a run of `add_node` keeps the graph valid, the edges unchanged and the node order as a prefix |
| InteractiveGraph.AddNodesMembers | 10_IFC_TO_GRAPH/02_Altern_InteractiveGraph.py:183-186 | after the run a node exists iff it did or the run names it |
| InteractiveGraph.AddNodesUntouched | 10_IFC_TO_GRAPH/02_Altern_InteractiveGraph.py:183-186 | a node the run does not name keeps its attributes |
| InteractiveGraph.AddNodesLast | 10_IFC_TO_GRAPH/02_Altern_InteractiveGraph.py:183-186 | a node gets the colour and GlobalId of the last call naming it |
| InteractiveGraph.RoomEntries | 10_IFC_TO_GRAPH/02_Altern_InteractiveGraph.py:183-186 | one yellow `Room_<Name>` node per room with the room's GlobalId and no OID |
| InteractiveGraph.AddRoomsNodes | 10_IFC_TO_GRAPH/02_Altern_InteractiveGraph.py:183-186 | after the room loop a node exists iff it did or it is some room's label |
| InteractiveGraph.AddRoomsGlobalId | 10_IFC_TO_GRAPH/02_Altern_InteractiveGraph.py:183-186 | a room node is yellow and has the GlobalId of the last room with that label |
| InteractiveGraph.WallsInStoreyMembers | 10_IFC_TO_GRAPH/02_Altern_InteractiveGraph.py:91-102 | a wall is collected iff its first storey relation names the storey, as its id and GlobalId |
| InteractiveGraph.WallEntries | 10_IFC_TO_GRAPH/02_Altern_InteractiveGraph.py:104-106 | one grey `Wall_<oid>` node per wall collected, with its GlobalId and OID |
| InteractiveGraph.WallsNodes | 10_IFC_TO_GRAPH/02_Altern_InteractiveGraph.py:90-106 | process_walls adds a node exactly for each wall in the storey |
| InteractiveGraph.CollectWallsInStorey | 10_IFC_TO_GRAPH/02_Altern_InteractiveGraph.py:97-102 | the first loop collects exactly the walls in the storey, in order |
| InteractiveGraph.RoomLinks | 10_IFC_TO_GRAPH/02_Altern_InteractiveGraph.py:73-74 | one link per room listed, each from the element |
| InteractiveGraph.ParsedLines | 10_IFC_TO_GRAPH/02_Altern_InteractiveGraph.py:62-63 | each line read as `line.strip().split(';')` |
| InteractiveGraph.ScanLineLinked | 10_IFC_TO_GRAPH/02_Altern_InteractiveGraph.py:67-74 | a line that yields links has found its element and adds its node label |
| InteractiveGraph.LinkHasElement | 10_IFC_TO_GRAPH/02_Altern_InteractiveGraph.py:61-74 | every link collected comes with its element node |
| InteractiveGraph.ScanFile | 10_IFC_TO_GRAPH/02_Altern_InteractiveGraph.py:61-74 | the first loop collects exactly the elements and links of the specification |
| InteractiveGraph.ScanFileLine | 10_IFC_TO_GRAPH/02_Altern_InteractiveGraph.py:63-74 | one line adds the element found by `next(...)` and its room links, nothing for an unknown element |
| InteractiveGraph.ElementEntries | 10_IFC_TO_GRAPH/02_Altern_InteractiveGraph.py:76-77 | one node per element found, with the colour, GlobalId and OID |
| InteractiveGraph.LinkKeys | 10_IFC_TO_GRAPH/02_Altern_InteractiveGraph.py:79-87 | one edge lookup per link, in order |
| InteractiveGraph.LinkEndsPresent | 10_IFC_TO_GRAPH/02_Altern_InteractiveGraph.py:76-80 | the element node of every link exists when the third loop runs |
| InteractiveGraph.DoorsAndWindowsValid | 10_IFC_TO_GRAPH/02_Altern_InteractiveGraph.py:58-87 | process_doors_and_windows keeps the graph valid: every edge joins existing nodes |
| InteractiveGraph.DoorsAndWindowsEdge | 10_IFC_TO_GRAPH/02_Altern_InteractiveGraph.py:58-87 | a room listed on an element's line is joined to the element with the `Category` when a node has its GlobalId |
| InteractiveGraph.ConnectLinks | 10_IFC_TO_GRAPH/02_Altern_InteractiveGraph.py:79-87 | the third loop applies one `add_edge` per link whose room is found |
| InteractiveGraph.RunKeysStep | 10_IFC_TO_GRAPH/02_Altern_InteractiveGraph.py:118-132 | one more row adds its edges, or ends the loop with its exception, unless an earlier row raised |
| InteractiveGraph.RunKeysRaisedStays | 10_IFC_TO_GRAPH/02_Altern_InteractiveGraph.py:118-132 | after an exception the later rows change nothing |
| InteractiveGraph.RunKeysRaises | 10_IFC_TO_GRAPH/02_Altern_InteractiveGraph.py:118-120 | the row loop raises iff some row raises |
| InteractiveGraph.RunKeysHas | 10_IFC_TO_GRAPH/02_Altern_InteractiveGraph.py:118-132 | a loop that raises nothing has applied every edge of every row |
| InteractiveGraph.RunKeysFrom | 10_IFC_TO_GRAPH/02_Altern_InteractiveGraph.py:118-132 | every edge the loop applies comes from some row |
| InteractiveGraph.WallKey | 10_IFC_TO_GRAPH/02_Altern_InteractiveGraph.py:128-132 | a wall edge is asked for only between nodes of the graph |
| InteractiveGraph.WallKeys | 10_IFC_TO_GRAPH/02_Altern_InteractiveGraph.py:127-132 | one wall lookup per listed GlobalId, in order |
| InteractiveGraph.PutAllConcat | 10_IFC_TO_GRAPH/02_Altern_InteractiveGraph.py:118-132 | two runs of `add_edge` one after the other are one run |
| InteractiveGraph.ApplyValid | 10_IFC_TO_GRAPH/02_Altern_InteractiveGraph.py:116-132 | a row loop whose rows ask only for edges between existing nodes keeps the graph valid |
| InteractiveGraph.ApplyEdge | 10_IFC_TO_GRAPH/02_Altern_InteractiveGraph.py:116-132 | after a row loop an edge is as it was, or a row asked for it and it carries the loop's attributes over its old ones |
| InteractiveGraph.RoomWallRowWithin | 10_IFC_TO_GRAPH/02_Altern_InteractiveGraph.py:119-132 | a space row asks only for edges between nodes of the graph |
| InteractiveGraph.WallsAndRoomsValid | 10_IFC_TO_GRAPH/02_Altern_InteractiveGraph.py:109-132 | process_walls_and_rooms keeps the graph valid and its nodes unchanged |
| InteractiveGraph.WallAdjacencyValid | 10_IFC_TO_GRAPH/02_Altern_InteractiveGraph.py:135-155 | process_wall_adjacency keeps the graph valid and its nodes unchanged |
| InteractiveGraph.ElementHostsValid | 10_IFC_TO_GRAPH/Deprecated/02_Altern_InteractiveGraph.py:114-139 | process_element_hosts keeps the graph valid and its nodes unchanged |
| InteractiveGraph.ApplyAdds | 10_IFC_TO_GRAPH/02_Altern_InteractiveGraph.py:116-132 | a row loop that raises nothing adds every edge a row asks for, with the loop's `Category` |
| InteractiveGraph.WallsAndRoomsEdge | 10_IFC_TO_GRAPH/02_Altern_InteractiveGraph.py:109-132 | a space row joins the space's first node to every listed wall found with a node, `Category` the relation |
| InteractiveGraph.WallsAndRoomsOnlyRoomWall | 10_IFC_TO_GRAPH/02_Altern_InteractiveGraph.py:109-132 | every edge process_walls_and_rooms adds or changes joins a row's space node to a wall node |
| InteractiveGraph.RoomWallRowKey | 10_IFC_TO_GRAPH/02_Altern_InteractiveGraph.py:119-132 | an edge of a space row joins the space's node to a wall node |
| InteractiveGraph.WallAdjacencyEdge | 10_IFC_TO_GRAPH/02_Altern_InteractiveGraph.py:135-155 | a wall row joins its wall to every listed wall found, both with nodes, `Category` "IsConnected" |
| InteractiveGraph.WallAdjacencyOnlyWalls | 10_IFC_TO_GRAPH/02_Altern_InteractiveGraph.py:135-155 | every edge process_wall_adjacency adds or changes joins two wall nodes |
| InteractiveGraph.ElementHostsEdge | 10_IFC_TO_GRAPH/Deprecated/02_Altern_InteractiveGraph.py:114-139 | a host row joins the element's node to its wall's node with `Category` "HostedBy" when both are found and present |
| InteractiveGraph.ElementHostsOnlyHosts | 10_IFC_TO_GRAPH/Deprecated/02_Altern_InteractiveGraph.py:114-139 | every edge process_element_hosts adds or changes joins an element node named after a row's type to a wall node |
| InteractiveGraph.RunKeysNothing | 10_IFC_TO_GRAPH/02_Altern_InteractiveGraph.py:118-132 | a loop whose rows add nothing asks for nothing and raises nothing |
| InteractiveGraph.HostsReadAsSpaceRows | 10_IFC_TO_GRAPH/02_Altern_InteractiveGraph.py:207 | reading the hosts file with process_walls_and_rooms leaves the graph unchanged when GlobalIds are 22 characters long |
| InteractiveGraph.AddWallEdges | 10_IFC_TO_GRAPH/02_Altern_InteractiveGraph.py:127-132 | the inner loop over a row's walls applies one `add_edge` per wall found with a node |
| InteractiveGraph.RunWallsAndRooms | 10_IFC_TO_GRAPH/02_Altern_InteractiveGraph.py:116-132 | the row loop of process_walls_and_rooms yields the specification's edges and exception |
| InteractiveGraph.RunWallAdjacency | 10_IFC_TO_GRAPH/02_Altern_InteractiveGraph.py:142-155 | the row loop of process_wall_adjacency yields the specification's edges and exception |
| InteractiveGraph.RunElementHosts | 10_IFC_TO_GRAPH/Deprecated/02_Altern_InteractiveGraph.py:121-139 | the row loop of process_element_hosts yields the specification's edges and exception |
| InteractiveGraph.EdgeColorShows | 10_IFC_TO_GRAPH/02_Altern_InteractiveGraph.py:219-227 | two edges get the same colour iff they show the same attribute value; black iff neither attribute is a known kind |
| InteractiveGraph.ConnectShows | 10_IFC_TO_GRAPH/02_Altern_InteractiveGraph.py:46-55 | an edge a connection loop adds shows the loop's access kind, whatever its category |
| InteractiveGraph.ApplyShows | 10_IFC_TO_GRAPH/02_Altern_InteractiveGraph.py:116-132 | an edge a row loop adds shows its category unless it already showed an access kind |
| InteractiveGraph.Graph.constructor | 10_IFC_TO_GRAPH/02_Altern_InteractiveGraph.py:175 | `nx.Graph()` is the empty, valid graph |
| InteractiveGraph.Graph.AddNode | 10_IFC_TO_GRAPH/02_Altern_InteractiveGraph.py:186 | `G.add_node` changes the graph as WithNode states |
| InteractiveGraph.Graph.AddNodeRun | 10_IFC_TO_GRAPH/02_Altern_InteractiveGraph.py:104-106 | a loop of `add_node` calls is AddNodes and keeps the graph valid |
| InteractiveGraph.Graph.AddRoomNodes | 10_IFC_TO_GRAPH/02_Altern_InteractiveGraph.py:183-186 | the room loop of main adds the room nodes and keeps the graph valid |
| InteractiveGraph.Graph.ProcessCsvRoomConnections | 10_IFC_TO_GRAPH/02_Altern_InteractiveGraph.py:35-55 | process_csv_room_connections as specified, keeping the graph valid |
| InteractiveGraph.Graph.ProcessDirectConnections | 10_IFC_TO_GRAPH/Deprecated/02_Altern_InteractiveGraph.py:31-53 | process_direct_connections as specified, keeping the graph valid |
| InteractiveGraph.Graph.ProcessElementConnections | 10_IFC_TO_GRAPH/Deprecated/02_Altern_InteractiveGraph.py:56-79 | process_element_connections as specified, keeping the graph valid |
| InteractiveGraph.Graph.ProcessDoorsAndWindows | 10_IFC_TO_GRAPH/02_Altern_InteractiveGraph.py:58-87 | process_doors_and_windows as specified, keeping the graph valid |
| InteractiveGraph.Graph.ProcessWalls | 10_IFC_TO_GRAPH/02_Altern_InteractiveGraph.py:90-106 | process_walls as specified, keeping the graph valid |
| InteractiveGraph.Graph.ProcessWallsAndRooms | 10_IFC_TO_GRAPH/02_Altern_InteractiveGraph.py:109-132 | process_walls_and_rooms as specified, keeping the graph valid, with the edges of the rows read before an exception |
| InteractiveGraph.Graph.ProcessWallAdjacency | 10_IFC_TO_GRAPH/02_Altern_InteractiveGraph.py:135-155 | process_wall_adjacency as specified, keeping the graph valid |
| InteractiveGraph.Graph.ProcessElementHosts | 10_IFC_TO_GRAPH/Deprecated/02_Altern_InteractiveGraph.py:114-139 | process_element_hosts as specified, keeping the graph valid |
| InteractiveGraph.BuildElementSteps | 10_IFC_TO_GRAPH/02_Altern_InteractiveGraph.py:191-198 | the door, window and wall steps as specified, keeping the graph valid |
| InteractiveGraph.BuildWallRowSteps | 10_IFC_TO_GRAPH/02_Altern_InteractiveGraph.py:200-204 | the space-to-wall and wall-to-wall steps as specified, keeping the graph valid |
| InteractiveGraph.BuildInteractiveAfterRooms | 10_IFC_TO_GRAPH/02_Altern_InteractiveGraph.py:188-207 | main after the room nodes yields the graph or the exception the specification gives |
| InteractiveGraph.BuildInteractiveGraph | 10_IFC_TO_GRAPH/02_Altern_InteractiveGraph.py:158-207 | main builds a fresh valid graph equal to the specification's, or its exception |
| InteractiveGraph.BuildPickledAfterRooms | 10_IFC_TO_GRAPH/Deprecated/02_Altern_InteractiveGraph.py:244-269 | main after the room nodes, with the host step, yields the specification's graph or exception |
| InteractiveGraph.BuildPickledGraph | 10_IFC_TO_GRAPH/Deprecated/02_Altern_InteractiveGraph.py:210-269 | main builds a fresh valid graph equal to the specification's, or its exception |
| InteractiveGraph.AddNodesGuids | 10_IFC_TO_GRAPH/02_Altern_InteractiveGraph.py:183-186 | adding nodes with 22-character GlobalIds keeps every GlobalId 22 characters long |
| InteractiveGraph.FoundGuid | 10_IFC_TO_GRAPH/02_Altern_InteractiveGraph.py:67-71 | an element node's GlobalId is an element's GlobalId |
| InteractiveGraph.DoorsAndWindowsGuids | 10_IFC_TO_GRAPH/02_Altern_InteractiveGraph.py:58-87 | process_doors_and_windows keeps every GlobalId 22 characters long |
| InteractiveGraph.WallsGuids | 10_IFC_TO_GRAPH/02_Altern_InteractiveGraph.py:90-106 | process_walls keeps every GlobalId 22 characters long |
| InteractiveGraph.StoreyRoomsGuids | 10_IFC_TO_GRAPH/02_Altern_InteractiveGraph.py:178-186 | the room nodes get 22-character GlobalIds from IFC spaces |
| InteractiveGraph.InteractiveHostsIdle | 10_IFC_TO_GRAPH/02_Altern_InteractiveGraph.py:206-207 | main builds the same graph with or without the door and window hosts file |
| WallAnalysis.ProfileType | 10_IFC_TO_GRAPH/ifc_wall_analyzer.py:70 | the representation type is "ArbitraryClosedProfil" iff the profile is an IfcArbitraryClosedProfileDef, "divers" otherwise |
| WallAnalysis.ProfilePoints | 10_IFC_TO_GRAPH/ifc_wall_analyzer.py:75-83 | points are returned iff closed profile, indexed polycurve and 2D point list nest as expected, and they are the point list's CoordList |
| WallAnalysis.PlacementDetails | 10_IFC_TO_GRAPH/ifc_wall_analyzer.py:85-91 | Location is given iff the position is 3D, then with its RefDirection; a 2D position gives (None, None) |
| WallAnalysis.ExtrudedItems | 10_IFC_TO_GRAPH/ifc_wall_analyzer.py:63-66 | only extruded solids are visited |
| WallAnalysis.ExtrudedOf | 10_IFC_TO_GRAPH/ifc_wall_analyzer.py:65-66 | only extruded solids of a representation are visited |
| WallAnalysis.LastOfAppend | 10_IFC_TO_GRAPH/ifc_wall_analyzer.py:65-72 | the keys the last solid of two runs sets are those of the second run, or of the first when the second is empty |
| WallAnalysis.RotationAngle | 10_IFC_TO_GRAPH/Tests/ifc_wall_analyzer.py:138-148 | 90, 180 and 270 exactly for the three other axis directions, 0 for everything else |
| WallAnalysis.QuarterTurns | 10_IFC_TO_GRAPH/Tests/ifc_wall_analyzer.py:150-159 | an independent reference for the rotation matrix at multiples of 90 degrees: n counter-clockwise quarter turns about z, each keeping a point three-dimensional; RotationAngleTurnsXAxis relates the angle lookup to it |
| WallAnalysis.RotationAngleTurnsXAxis | 10_IFC_TO_GRAPH/Tests/ifc_wall_analyzer.py:138-159 | the angle looked up for an axis direction turns the x axis onto that direction |
| WallAnalysis.TypeFoldMeaning | 10_IFC_TO_GRAPH/ifc_wall_analyzer.py:42-57 | the fold raises KeyError iff some layer has no extruded solid; otherwise it reports None for no layers, "divers" when two layers differ, else the type all share |
| WallAnalysis.ShapeFoldStep | 10_IFC_TO_GRAPH/ifc_wall_analyzer.py:46-53 | one more aspect appends its layer info and folds its type unless the loop had ended |
| WallAnalysis.ShapeFoldRaisedStays | 10_IFC_TO_GRAPH/Tests/ifc_wall_analyzer.py:59-65 | after an exception the later aspects change nothing |
| WallAnalysis.ShapeFoldDetails | 10_IFC_TO_GRAPH/ifc_wall_analyzer.py:45-53 | a loop that runs through appends one detail per aspect, in order, and its state is the fold of those details |
| WallAnalysis.ShapeFoldAdvance | 10_IFC_TO_GRAPH/Tests/ifc_wall_analyzer.py:59-65 | the effect of one pass of the aspect loop, and the end of the run on an exception or a missing type |
| WallAnalysis.ShapeFoldPrefix | 10_IFC_TO_GRAPH/ifc_wall_analyzer.py:46-48 | the details appended are always the infos of the first aspects, in order |
| WallAnalysis.ShapeFoldKeyError | 10_IFC_TO_GRAPH/ifc_wall_analyzer.py:46-53 | the loop stops exactly at the first aspect without an extruded solid, on KeyError, after appending that aspect's details |
| WallAnalysis.WallAnalyzer.constructor | 10_IFC_TO_GRAPH/ifc_wall_analyzer.py:4-8 | the analyzer keeps the GUID and the wall found and starts with no layer details |
| WallAnalysis.WallAnalyzer.GetProductDefinitionShape | 10_IFC_TO_GRAPH/ifc_wall_analyzer.py:35-57 | appends the details of the aspect loop and returns its report |
| WallAnalysis.WallAnalyzer.AnalyzeWall | 10_IFC_TO_GRAPH/ifc_wall_analyzer.py:10-20 | a missing wall reports that and changes nothing; otherwise the details are appended and the type reported |
| WallAnalysis.PlacementWalkComposes | 10_IFC_TO_GRAPH/Tests/ifc_wall_analyzer.py:166-172 | walking up the placement chain multiplies each parent's `get_local_placement` matrix on the left, giving the product of the matrices along the chain |
| WallAnalysis.AbsolutePlacementMeaning | 10_IFC_TO_GRAPH/Tests/ifc_wall_analyzer.py:161-174 | the matrix `_calculate_absolute_placement` returns is the identity without a placement, and otherwise the product of the `get_local_placement` matrices along the chain, outermost first |
| WallAnalysis.AbsoluteCoordinates | 10_IFC_TO_GRAPH/Tests/ifc_wall_analyzer.py:110-136 | no points gives None; otherwise one transformed point per profile point |
| WallAnalysis.CellSolidsAppend | 10_IFC_TO_GRAPH/Tests/ifc_wall_analyzer.py:74-90 | processing two runs of solids one after the other is processing their concatenation |
| WallAnalysis.CellSolidsMeaning | 10_IFC_TO_GRAPH/Tests/ifc_wall_analyzer.py:71-92 | an aspect raises TypeError iff some solid's profile gives no points; otherwise one cell per solid, the material and the last solid's keys |
| WallAnalysis.CellProcessAgreesWithPlain | 10_IFC_TO_GRAPH/Tests/ifc_wall_analyzer.py:71-92 | when every profile gives points, the Tests version sets the same keys as the plain one and builds one cell per solid |
| WallAnalysis.CellFoldAgreesWithPlain | 10_IFC_TO_GRAPH/Tests/ifc_wall_analyzer.py:49-69 | when every profile gives points, the Tests version appends the plain details (plus the absolute points) and reports the same type |
| WallAnalysis.ExtrudedOfAppend | 10_IFC_TO_GRAPH/Tests/ifc_wall_analyzer.py:76-77 | the solids of two item lists are those of each, in order |
| WallAnalysis.ExtrudedItemsAppend | 10_IFC_TO_GRAPH/Tests/ifc_wall_analyzer.py:74-77 | the solids of two representation lists are those of each, in order |
| WallAnalysis.CellSolidsRaisedStays | 10_IFC_TO_GRAPH/Tests/ifc_wall_analyzer.py:76-90 | after a TypeError the later solids change nothing |
| WallAnalysis.CellSolidsShift | 10_IFC_TO_GRAPH/Tests/ifc_wall_analyzer.py:76-90 | cells built before a run of solids stay in front of the run's cells |
| WallAnalysis.CellSolidsSnoc | 10_IFC_TO_GRAPH/Tests/ifc_wall_analyzer.py:76-90 | one more solid sets the keys and adds its cell, or raises TypeError when it has no points |
| WallAnalysis.ItemsRaisedStays | 10_IFC_TO_GRAPH/Tests/ifc_wall_analyzer.py:76-90 | a TypeError among the first items ends the representation's run |
| WallAnalysis.RepsRaisedStays | 10_IFC_TO_GRAPH/Tests/ifc_wall_analyzer.py:74-90 | a TypeError in the first representations ends the aspect's run |
| WallAnalysis.RepsStep | 10_IFC_TO_GRAPH/Tests/ifc_wall_analyzer.py:74-90 | one more representation continues from where the previous ones stopped |
| WallAnalysis.RepsAdvance | 10_IFC_TO_GRAPH/Tests/ifc_wall_analyzer.py:74-90 | the effect of one pass over a representation, and the end of the run when it raised |
| WallAnalysis.CellComplex | 10_IFC_TO_GRAPH/Tests/ifc_wall_analyzer.py:195-201 | no complex iff no cells; otherwise the complex of all cells |
| WallAnalysis.CellWallAnalyzer.constructor | 10_IFC_TO_GRAPH/Tests/ifc_wall_analyzer.py:12-17 | the analyzer keeps the GUID, the wall and the geometry, with no layer details and no cells |
| WallAnalysis.CellWallAnalyzer.CalculateAbsolutePlacement | 10_IFC_TO_GRAPH/Tests/ifc_wall_analyzer.py:161-174 | the loop yields the product of the chain's `get_local_placement` matrices (AbsolutePlacementMeaning) |
| WallAnalysis.CellWallAnalyzer.CalculateAbsoluteCoordinates | 10_IFC_TO_GRAPH/Tests/ifc_wall_analyzer.py:110-136 | the point loop yields one transformed point per profile point, as AbsoluteCoordinates defines |
| WallAnalysis.CellWallAnalyzer.ProcessItems | 10_IFC_TO_GRAPH/Tests/ifc_wall_analyzer.py:76-90 | the item loop sets the info and appends the cells of the specification |
| WallAnalysis.CellWallAnalyzer.ProcessShapeAspect | 10_IFC_TO_GRAPH/Tests/ifc_wall_analyzer.py:71-92 | the representation loop gives the aspect's info and appends its cells |
| WallAnalysis.CellWallAnalyzer.GetProductDefinitionShape | 10_IFC_TO_GRAPH/Tests/ifc_wall_analyzer.py:49-69 | appends the details and cells of the aspect loop and returns its report |
| WallAnalysis.CellWallAnalyzer.AnalyzeWall | 10_IFC_TO_GRAPH/Tests/ifc_wall_analyzer.py:19-35 | a missing wall reports that and changes nothing; otherwise details and cells are appended and the complex is built from all cells |

## Left out

- Floating-point geometry: `create_rotation_matrix`, `rotation_matrix_to_axis_angle`, `apply_transformation`, `rotate_point`, `_rotation_matrix_z`, `adjust_room_to_wall_z_level`, `scale_topology_to_meters`, the face-normal and `np.allclose` tests. These are numpy numerics. The analyzer takes matrix product, identity, point transformation and cell construction as parameters (`WallAnalysis.Geometry`), and only the placement walk over them is modelled.
- The topologicpy kernel (`Topology.Merge`, `SharedFaces`, `Cells`, `Cell.ByThickenedFace`, `CellComplex.ByCells`, `ByIFCFile`). It is a foreign library. A merge of two cells is an abstract `MergeOutcome` (a cell count and a shared-face flag, or the exception raised), and a cell is a type parameter.
- `cells_share_face`: the list of shared faces comes from the kernel. The model receives its non-emptiness as the `sharesFace` flag.
- `round` in `extract_property_value` is float rounding. A measure is returned as it is; only the exceptions `round` raises on text, and the 0/1 it gives for a boolean, are modelled.
- ifcopenshell: `open`, `by_type`, `by_guid`, `id()` and entity attributes. Entities are records (module `Ifc`) and the lookups are parameters or sequences in `by_type` order. `by_guid` returns an entity, which is always truthy, or raises (RuntimeError for a GlobalId the file does not hold); the enrich scripts take it as a lookup of type `Attr -> Outcome<Entity>`. `ifcopenshell.util.placement.get_local_placement` is the `local` matrix of a placement. That function already includes the parent placements, so the product `_calculate_absolute_placement` forms applies them again for a chain of two or more levels; the model states the product the loop forms and does not claim it is the placement in world coordinates.
- Neo4j: sessions, transactions and the Cypher text. `MERGE` and `ON CREATE` semantics are not modelled; the loader is modelled as the sequence of writes it requests (`Neo4jGraph.Write`). This includes the `add_space_node` merge of `create_ifcspace_nodes`.
- `create_edge` (005A_EnrichtGraph_Alternative.py) catches and prints any database error; whether the `MATCH` finds both nodes is a database question. The model records the requested edge only.
- networkx adds a missing end node on `add_edge`. This never happens in the modelled scripts, which only join nodes they looked up, so `InteractiveGraph.GraphState.Valid` requires edges between existing nodes instead.
- Node attributes other than `color`, `GlobalId` and `OID` are not modelled, nor are edge attributes other than `Access` and `Category`.
- pyvis rendering: `visualize_graph`, node tooltips, `write_html` and the HTML. Only the edge colour choice is modelled (`InteractiveGraph.EdgeColor`).
- `pickle.dump` of the graph is persistence. `PickledMain` ends with the graph that would be pickled.
- I/O: opening and reading files, `yaml` config loading, logging and `print`. Files are given as their lines or csv rows, the config values as parameters, and printed reports as returned values.
- `csv.reader` quoting on input is not modelled. A row is the `;`-split of its line, which is what `csv.reader` gives for the unquoted rows these scripts write (`Text.WrittenRowReadBack`).
- Set iteration order: `elements = set()` in process_doors_and_windows is iterated in an order Python does not fix. The model adds the element nodes in first-found order; duplicates add the same node again.
- Python's `\d` also matches non-ASCII decimal digits. `SpaceFilters` accepts ASCII digits only.
- `chr` of a surrogate code (U+D800 to U+DFFF) cannot be a Dafny `char`. `IfcText.Chr` gives U+FFFD for those codes.
- `get_rooms_contained_in_wall` and the kernel checks behind it are a parameter (`roomsOf`) of the relevant-room selection.
- Material values are kept as strings; no units or types are attached to them.
- The enrich loop writes every attribute again even when its value did not change; the model keeps the final attribute values, not the number of writes.
- `01_GH_SCRIPTS/creating_graph_with_topologic_LPA.py` and `Deprecated/ifcspaces_to_topology.py` are not part of this model. Both are kernel demos with float rotation.
- `_print_layer_details` only prints; the layer details it prints are the `layerDetails` field.
- Concurrency: none exists in the scripts.
- IfcProperties.RoomNameDecodes: holds only for names without a backslash. For a name with one, the as-written decoder can decode an escape twice (see Findings), and room names keep the code's decoder.
- WallAnalysis.WallAnalyzer.constructor, WallAnalysis.CellWallAnalyzer.constructor: take the wall `by_guid` returned, or None. `by_guid` raises inside `__init__` for an unknown GlobalId; that exception is not modelled, so None stands only for the `if not self.wall` guard.

## Findings

| source | as written | input that shows it | evidently intended | confidence | as-written member | corrected member |
|---|---|---|---|---|---|---|
| 10_IFC_TO_GRAPH/02_Altern_InteractiveGraph.py:207 | the hosts file `type;element;wall` is read with process_walls_and_rooms, which looks for a node whose GlobalId is the type name | a hosts row `IfcDoor;<door guid>;<wall guid>` in a graph whose GlobalIds are 22 characters long: no node has GlobalId "IfcDoor", so no HostedBy edge is added | join each door or window to its host wall, as process_element_hosts does (Deprecated/02_Altern_InteractiveGraph.py:114-139) | high; not executed | InteractiveGraph.HostsReadAsSpaceRows, InteractiveGraph.InteractiveHostsIdle | InteractiveGraph.ElementHostsEdge, InteractiveGraph.ElementHostsOnlyHosts |
| 10_IFC_TO_GRAPH/neo4j_functions.py:183 | wall_to_wall_connectivity.py:79-81 writes `[key] + value`, one field per neighbour, and the reader splits only `row[1]` on `,` | a wall with neighbours b and c is written `a;b;c`, and only the edge a–b is read; a wall with no neighbours is written `a`, and `row[1]` raises IndexError, which ends the import | every neighbour read back, as with the joined rows of 003_MakeCSV_AdjacentWalls.py:474-475 | high; not executed | Neo4jGraph.SpreadRowReadsFirstOnly, Neo4jGraph.LoneWallRowRaises | Neo4jGraph.JoinedRowReadsAll |
| 10_IFC_TO_GRAPH/neo4j_functions.py:267-271 | each match is replaced throughout the text already partly decoded, so a backslash produced by decoding can start a new escape | the encoding of the text `\X\00E4ä` decodes to "ää" instead of the text itself | decode each escape of the input once, in one pass; the two decoders agree on every encoded text without a backslash (IfcText.SequentialDecodeEncode), so the rest of the model keeps the code's decoder | medium; not executed | IfcText.SequentialDecodesTwice | IfcText.DecodeEncode |
