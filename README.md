# point-within-poly, modelled in Dafny

`main.py` reads one KML (OGC KML 2.2) document of zones (polygons) and a directory of
KML layer documents (points). Each layer becomes a table of points. Every point gets
the name of the first zone, in document order, whose polygon contains it, or
`"Sin Zona"` when no zone does. The script prints the number of points it classified.

This project models that pipeline over an already-parsed document tree:

- `results.dfy` (`Results`): `Option`, `Result` (with `:-` propagation) and `Outcome`.
- `text.dfy` (`Text`): `str.split` with a one-character separator, `sep.join`, and
  `str.replace(c, '')`.
- `scan.dfy` (`Scan`): the loop shape every parser uses. It walks a sequence in order;
  each element is skipped, appends one row, or raises, and raising ends the walk
  (`FilterMap`).
- `kml.dfy` (`Kml`): the parsed tree (document, folders, placemarks, geometry), the label
  `folder.find('name')` yields, and the folder-then-placemark walk both parsers share
  (`Collect`).
- `point_parser.dfy` (`PointParser`): `_kml_points_to_df`. The frame is a class whose
  rows are appended in place, folder by folder.
- `polygon_parser.dfy` (`PolygonParser`): `_kml_polys_to_df`. This covers the coordinate
  tokenizer (delete `\n` and `\t`, split on `' '`, split each token on `,`, keep
  three-component tokens) and the ring, folder and document loops.
- `classifier.dfy` (`Classifier`): `_calculate_zone`, `_get_point` and
  `_complete_layer_info`. The last one adds the Zone column to a frame in place.
- `batch.dfy` (`Batch`): `_get_layers` and `main`. This covers the file-name filter
  `^.*\.kml$`, the layer name `replace('.kml', '')`, and the insertion-ordered dict where
  a later file overwrites an earlier layer of the same name. It also covers the
  classification loop over the layers and the row total.

Each imperative loop of the source is a Dafny method proved against a function of the
inputs: `FilterMap`, `Collect`, `BuildDict`, `ZoneColumn` or `RunSpec`. The properties
the source promises are lemmas about those functions.

Behaviour of `main.py` worth noting:

- A point's coordinate text is split on commas and assigned to Longitude, Latitude and
  Altitude by one slice assignment into the frame's single object block. Three pieces go
  to the three cells in order, a single piece is broadcast into all three, and two or
  four or more pieces raise. No column is filled with a default.
- The longitude and latitude of a point stay text until classification calls `float`.
- `folder.find('name')` searches descendants. A folder without its own `name` takes the
  first placemark name under it as its label, and the parse fails only when there is no
  `name` element under the folder at all. An empty `name` element is found and gives the
  label `""`.
- Polygon coordinate text loses every `\n` and `\t`; they are deleted, not replaced by a
  space. It is then split on single spaces. Tuples separated only by a newline therefore
  merge into one token, and that token is dropped.
- A token whose number of components is not three is dropped. A token with a
  non-numeric component raises; it is not dropped.
- An empty `coordinates` element is found, and its text is `""`. For a point, `"".split(',')`
  is the one-element list `[""]`, broadcast into three empty cells, as for a point without
  the element; for a polygon, the only token is empty and the ring is empty.

## Model

| member | source | states |
|---|---|---|
| Text.Split | main.py:46 | `split` yields at least one piece, and no piece holds the separator |
| Text.JoinSplit | main.py:46 | joining the pieces of a split with the separator gives the original text back |
| Text.SplitJoin | main.py:98 | splitting a join of separator-free pieces gives those pieces back |
| Text.SplitCount | main.py:94 | a split has exactly one piece more than the text has separators |
| Text.SplitWithoutSeparator | main.py:94 | text without the separator splits into itself alone |
| Text.SplitAtFirstSeparator | main.py:94 | the first separator ends the first piece; the rest splits independently |
| Text.SplitTrailingSeparator | main.py:98 | a separator at the very end leaves an empty last piece |
| Text.Delete | main.py:92-93 | defines `s.replace(c, '')` for one character: every `c` is removed and the other characters stay in order |
| Text.DeleteCount | main.py:92-93 | `replace(c, '')` removes every `c` and keeps every other character with its multiplicity |
| Text.DeleteAbsent | main.py:92-93 | `replace(c, '')` leaves text without `c` unchanged |
| Text.DeleteBetween | main.py:92 | deleting the only `c` between two `c`-free texts concatenates them, with no space inserted |
| Scan.FilterMap | main.py:97-100 | defines the loop shape every walk of the source has: elements in order, each skipped, appending one row, or raising, and the first error ends the walk |
| Scan.FilterMapStep | main.py:97-100 | one more element: if it raises, the walk fails with its error; if it is skipped, the rows stay the same; otherwise its row is appended |
| Scan.FilterMapSpec | main.py:97-100 | a walk succeeds iff no element raises; it then yields one row per kept element, in order; otherwise its error is that of the first element that raises |
| Scan.FilterMapAppend | main.py:34-37 | walking `a + b` is walking `a` then `b`; an error in `a` wins |
| Scan.FilterMapPrefixFailure | main.py:98 | an error in the first elements is the error of the whole walk |
| Scan.KeptIsFilter | main.py:99-100 | when no element raises, the kept elements are exactly those satisfying the keep test, in order |
| Scan.FilterMapKeepsAll | main.py:156-158 | when no element is skipped, a successful walk maps element k to row k |
| Scan.FilterMembers | main.py:79-80 | `Filter` keeps exactly the elements satisfying the test |
| Kml.TextOf | main.py:44-45 | defines `x.getText() if x else ""`: the element's text when the element is present, `""` when it is absent |
| Kml.FirstPlacemarkName | main.py:35 | the first placemark name in document order: no earlier placemark has one; `None` iff none has one |
| Kml.FolderLabel | main.py:35 | `folder.find('name')` is the folder's own name when present; otherwise the first placemark name; `None` iff no name exists under the folder |
| Kml.Collect | main.py:33-37 | defines the folder-then-placemark walk: folders in document order, `MissingFolderName` for a folder with no `name` under it, then the folder's placemarks tagged with its label; the first error ends the walk |
| Kml.FolderEntries | main.py:35-36 | defines a folder's placemarks, in document order, each tagged with the folder's label (`""` when there is none) |
| Kml.Entries | main.py:33-36 | defines all placemarks of the document, folder by folder, each tagged with its folder's label |
| Kml.CollectStep | main.py:34-37 | one more folder: with no label the walk fails with `MissingFolderName`; if one of its placemarks raises, the walk fails with that error; otherwise the folder's rows are appended |
| Kml.EmptyFolderNameLabelsEmpty | main.py:35-36 | a folder whose own `name` element is empty is labelled `""` and every one of its placemarks carries that label; placemark names are not consulted |
| Kml.CollectPrefixFailure | main.py:34-35 | an error in the first folders is the error of the whole document |
| Kml.CollectIsFlat | main.py:33-37 | the folder-then-placemark walk succeeds iff every folder has a label and the flat walk over all placemarks succeeds, and it then yields the same rows |
| PointParser.CoordinateCells | main.py:46-52 | defines the three cells: the pieces of a two-comma text in order, a comma-free text in all three cells, three empty cells without the element, and `CoordinateShape` for any other number of pieces |
| PointParser.PointRowOf | main.py:38-52 | defines one placemark's step: a `Point` placemark gives a row with its coordinate cells, `name` and `description` (`""` when absent) and folder label, or raises with its cells' error; other placemarks are skipped |
| PointParser.PointEntries | main.py:36-39 | defines the placemarks that carry a `Point`, in document order, with their folder labels |
| PointParser.PointRows | main.py:30-54 | defines the rows of the frame `_kml_points_to_df` returns: the folder-then-placemark walk with `PointRowOf` |
| PointParser.CoordinateCellsRoundTrip | main.py:46-52 | the three cells exist iff the coordinate text has no comma or exactly two; with two, the cells are comma-free and, joined with commas, give the text back; with none, every cell holds the whole text |
| PointParser.CoordinateCellsOfTuple | main.py:46-52 | comma-free longitude, latitude and altitude joined by commas land in Longitude, Latitude and Altitude in that order |
| PointParser.EmptyCoordinatesAsAbsent | main.py:42-52 | an empty `coordinates` element and an absent one both give three empty cells |
| PointParser.PointRowsSucceedIff | main.py:34-52 | point parsing succeeds iff every folder has a `name` under it and every point's coordinates fit the three cells |
| PointParser.PointRowsOnePerPointPlacemark | main.py:34-54 | a successful parse has one row per `Point` placemark, in document order, with its folder label, its name and description (`""` when missing) and its coordinate cells |
| PointParser.PointFrame.constructor | main.py:23-28 | a new frame has no rows and no Zone column |
| PointParser.PointFrame.AppendRow | main.py:48-54 | writing the next index appends exactly that row and leaves the Zone column alone |
| PointParser.AppendFolderPoints | main.py:36-54 | the placemark loop of one folder appends exactly that folder's point rows, or raises with the walk's error |
| PointParser.KmlPointsToFrame | main.py:14-55 | `_kml_points_to_df` fails iff the point parse fails, with the same error; otherwise it returns a fresh frame holding exactly the parsed rows and no Zone column |
| PolygonParser.Tokens | main.py:90-95 | defines the tokens of a coordinate text: every newline and tab deleted, then split on single spaces |
| PolygonParser.ParseAll | main.py:98 | `[float(n) for n in parts]` succeeds iff every part is a number, and then holds their values in order |
| PolygonParser.TokenVertex | main.py:97-100 | defines one token's step: skipped when empty, raising when a component is not a number, a vertex when it has three components, skipped otherwise |
| PolygonParser.RingOf | main.py:87-100 | defines the ring: empty without a `coordinates` element, otherwise the walk of `TokenVertex` over `Tokens` |
| PolygonParser.TokenVertexSpec | main.py:98-100 | a token raises iff a component of a non-empty token is not a number; otherwise it yields a vertex iff it is non-empty with three components, holding their values |
| PolygonParser.RingSucceedsIffNumeric | main.py:97-98 | reading a ring succeeds iff every component of every non-empty token is a number |
| PolygonParser.RingKeepsTriples | main.py:97-100 | a ring read without error holds one vertex per non-empty three-component token, in token order, with that token's values, and nothing else |
| PolygonParser.EmptyComponentRaises | main.py:98 | a non-empty token with an empty component makes the ring raise when `float("")` raises |
| PolygonParser.TrailingCommaRaises | main.py:98 | a token with a trailing comma makes the ring raise when `float("")` raises |
| PolygonParser.TokensOfPlainText | main.py:90-95 | text without spaces, newlines or tabs is a single token |
| PolygonParser.EmptyCoordinatesGiveEmptyRing | main.py:83-100 | an empty `coordinates` element gives an empty ring, the same as an absent one |
| PolygonParser.NewlineMergesTuples | main.py:90-95 | two tuples separated only by a newline become one token, their concatenation |
| PolygonParser.NewlineSeparatedTuplesAreDropped | main.py:90-100 | two three-component tuples separated only by a newline merge into a five-component token, and the ring read from them is empty |
| PolygonParser.OneTokenRing | main.py:97-100 | the ring of a single token is that token's vertex, if any, or fails with that token's error |
| PolygonParser.SpaceSeparatedTuplesAreKept | main.py:90-100 | two numeric three-component tuples separated by a space both become vertices, in order |
| PolygonParser.ZoneRowOf | main.py:79-105 | defines one placemark's step: a `Polygon` placemark gives a zone with its `name` and `description` (`""` when absent), folder label and ring, or raises with the ring's error; other placemarks are skipped |
| PolygonParser.PolygonEntries | main.py:77-80 | defines the placemarks that carry a `Polygon`, in document order, with their folder labels |
| PolygonParser.ZoneRows | main.py:71-107 | defines the rows of the frame `_kml_polys_to_df` returns: the folder-then-placemark walk with `ZoneRowOf` |
| PolygonParser.ZoneRowsSucceedIff | main.py:75-100 | polygon parsing succeeds iff every folder has a `name` under it and every polygon's ring reads without error |
| PolygonParser.ZoneRowsOnePerPolygonPlacemark | main.py:74-107 | a successful parse has one zone per `Polygon` placemark, in document order, with its folder label, its name and description (`""` when missing) and its ring |
| PolygonParser.ParseCoordinates | main.py:87-100 | the ring loop yields the ring of the coordinate text; a missing `coordinates` element gives the empty ring |
| PolygonParser.FolderZones | main.py:77-107 | the placemark loop of one folder yields exactly that folder's zones, or the walk's error |
| PolygonParser.KmlPolysToZones | main.py:58-108 | `_kml_polys_to_df` yields exactly the parsed zones of the document, or the parse error |
| Classifier.CalculateZone | main.py:140-148 | the result is the name of the first zone, in order, containing the point, and no earlier zone contains it; it is `"Sin Zona"` when no zone contains the point; it is always a zone's name or `"Sin Zona"` |
| Classifier.CalculateZoneAppend | main.py:145-148 | zones appended later never change a point an earlier zone contains; a point none of the earlier zones contains is classified by the later zones alone |
| Classifier.RowPoint | main.py:151-158 | defines `_get_point(float(row['Longitude']), float(row['Latitude']))`: the longitude is converted first and then the latitude; the first one that is not a number raises; the altitude is not read |
| Classifier.ZoneColumn | main.py:155-160 | defines the Zone column: the points of all rows first, raising at the first non-numeric longitude or latitude, then `CalculateZone` of each point in row order |
| Classifier.ZoneColumnSpec | main.py:155-160 | the Zone column exists iff every row's longitude and latitude are numbers; it then has one value per row, the zone of that row's point |
| Classifier.AltitudeIsIgnored | main.py:151-158 | rows that agree on longitude and latitude get the same Zone column, whatever their altitude |
| Classifier.RowPoints | main.py:156-158 | the first `apply` yields the point of every row, or raises at the first non-numeric longitude or latitude |
| Classifier.PointZones | main.py:159 | the second `apply` yields one zone per point, in order |
| Classifier.CompleteLayerInfo | main.py:155-160 | only the Zone column can change; it is set to the column computed from the rows exactly when that column can be computed, and on an error it is left as it was |
| Batch.IsKmlFileName | main.py:131 | defines the file-name filter: the name ends in `.kml`, or in `.kml` and one final newline, with no newline before that |
| Batch.IsKmlFileNameMatchesPattern | main.py:131 | the filter accepts exactly the names `re.match(r'^.*\.kml$', name)` matches, with `.` not matching a newline and `$` also matching before a final newline |
| Batch.PatternMatchIsKmlFileName | main.py:131 | a match of the pattern ends the name as the filter requires |
| Batch.LayerName | main.py:132 | removing `.kml` never lengthens the name |
| Batch.LayerNameUnchanged | main.py:132 | the layer name equals the file name iff it contains no `.kml`; otherwise it is shorter |
| Batch.LayerNameAtFirstKml | main.py:132 | up to its first `.kml` a file name is kept, that `.kml` is removed and the rest is scanned again, for every text after it |
| Batch.LayerNameOfKmlFile | main.py:132 | `base.kml`, with no other `.kml` in it, gives the layer `base` |
| Batch.LayerNameDropsEveryKml | main.py:132 | `a.kml.kml` gives `a`: every occurrence goes, not only the extension |
| Batch.LayerNameSinglePass | main.py:132 | `x..kmlkml` gives `x.kml`: the replacement makes one pass |
| Batch.KeyIndex | main.py:135 | the position of a key among the dict items holds that key; `-1` means no item holds it |
| Batch.Put | main.py:135 | defines `d[key] = value` on a dict kept as its items in insertion order: an existing key is overwritten in place, a new key goes last |
| Batch.PutSpec | main.py:135 | `d[key] = value` keeps keys distinct; an existing key keeps its place and takes the value; a new key goes last; nothing else changes |
| Batch.BuildDict | main.py:128-135 | defines the dict loop: the files in listing order, the selected ones assigned under their key, the first error raised by a value ending the loop |
| Batch.BuildDictPrefixFailure | main.py:130-135 | an error raised for one of the first files is the error of the whole loop |
| Batch.PutKeepsSelectedKeys | main.py:135 | assigning one more key keeps every key already present |
| Batch.LastSetterWinsPut | main.py:134-135 | setting the last file's key keeps "each key holds its last setter's value" |
| Batch.LastSetterWinsSkip | main.py:131 | a skipped last file keeps "each key holds its last setter's value" |
| Batch.BuildDictLastWins | main.py:128-135 | the dict loop fails iff the value raises for some selected element; otherwise keys are distinct, every selected key is present, and each holds the value of the last selected element with that key |
| Batch.LayersSpec | main.py:126-137 | defines `_get_layers`: the dict loop over the file names with the `.kml` filter, `LayerName` as key and the point rows of each file as value |
| Batch.LayerRows | main.py:134 | defines the value stored for a file: the point rows of the document it parses to |
| Batch.LayersSpecStep | main.py:130-135 | one more file name: a non-`.kml` name leaves the dict as it is; otherwise the walk fails with the file's parse error, or stores its rows under its layer name |
| Batch.LayersLastFileWins | main.py:126-137 | building the layers fails iff some `.kml` file fails to parse; otherwise every `.kml` file's layer name is a key, keys are distinct, and each layer holds the rows of the last `.kml` file with that name |
| Batch.PutSnapshot | main.py:135 | assigning a frame and then reading rows is reading rows and then assigning them |
| Batch.PutLayer | main.py:135 | assigning a new frame keeps keys and frames distinct, and only the assigned entry changes |
| Batch.AddLayer | main.py:132-135 | one `.kml` file fails iff its document fails to parse, with that error; otherwise its new frame is stored under its layer name, keys and frames stay distinct, and the other layers are kept |
| Batch.ScanFile | main.py:130-135 | one turn of the file loop: a file that is not `.kml` leaves the layers as they are, a `.kml` file is parsed and stored under its layer name; the frames then hold exactly the dict loop's result for the files so far, or the turn fails with that loop's error |
| Batch.GetLayers | main.py:111-137 | `_get_layers` fails iff building the layers fails, with the same error; otherwise it returns distinct fresh frames whose names and rows are exactly the layers built |
| Batch.TotalRows | main.py:173-179 | defines `placemark_total`: it starts at 0, and each layer's row count is added in dict order |
| Batch.Enrich | main.py:176-177 | defines the per-layer step of `main`: the layer with its Zone column, or the error its column raises |
| Batch.ZonesAssigned | main.py:156-159 | defines the number of Zone values written, summed over the classified layers |
| Batch.EnrichStep | main.py:176-179 | when every earlier layer gets its Zone column and layer `i`'s column raises, that error is the error of the whole loop; the total grows by layer `i`'s row count |
| Batch.EnrichAll | main.py:176-179 | when every layer's Zone column can be computed, the loop over the layers succeeds |
| Batch.ClassifyLayers | main.py:176-179 | the loop of `main` changes only the frames' Zone columns; it fails iff some layer's Zone column raises, with the first such error; otherwise every frame gets its Zone column and the total is the sum of the row counts |
| Batch.TotalRowsIsZonesAssigned | main.py:179 | the summed row count equals the number of Zone values assigned when each layer gets one per row |
| Batch.RunAssignsOneZonePerRow | main.py:173-182 | after a successful run every layer has one Zone value per row, each a zone name or `"Sin Zona"`, and the printed total is the number of Zone values assigned |
| Batch.UnnamedFolderFailsBothParsers | main.py:35 | a folder with no `name` anywhere under it makes both parsers fail |
| Batch.RunSpec | main.py:168-179 | defines `main`: zones parsed first, then the layers, then every layer classified in dict order, the first error aborting; the total is the sum of the row counts |
| Batch.Run | main.py:168-182 | `main` fails iff the run fails (zones, then layers, then classification), with the same error; otherwise each frame holds its layer's rows and Zone column and the total matches |

## Left out

- File and directory I/O are parameters: `open`, `os.chdir`, `os.listdir` (the file names come in as a sequence, in listing order), and the document each file parses to (`docOf`). The hard-coded paths of `main.py:9-11` are left out.
- `_write_excel_from_df` and the Excel files are left out. `main` writes each layer right after classifying it, so on an error earlier layers are already written. The model returns only the final state.
- `print` logging is left out, including the printed total; `Run` returns the total instead.
- XML parsing by BeautifulSoup is left out; the model starts from a parsed tree with folders at one level under the document. Nested folders, placemarks outside any folder and several geometries in one placemark are not modelled.
- `Kml.FolderLabel`: the name search covers the folder's own `name` and its placemarks' names. A `name` inside some other descendant element is not considered. The folder's own `name` is taken to come before its placemarks, as the KML schema orders them; the `xml` parser does not enforce that order, and a document that puts it after a named placemark is not modelled.
- `float` is an abstract parameter (`NumberParser`) that answers a number or `None` for raising. Floating-point rounding, `inf` and `nan` are not modelled.
- shapely is not modelled. `Polygon(coordinates)` is the ring itself, and `point.within(polygon)` is an abstract parameter (`Containment`). shapely's boundary semantics are not modelled. Neither is its rejection of rings it cannot close: shapely repeats the first vertex to close an open ring, so one or two vertices raise in the source, and under shapely 1.x so do three whose last vertex equals the first.
- pandas internals are abstract. A frame is its rows plus an optional Zone column; `.loc` writes append a row. The scalar `""` written for a point without coordinates fills all three cells.
- `PointParser.CoordinateCells`: the slice assignment is modelled as a numpy assignment into one object block: three pieces in order, one piece broadcast, any other count raising. pandas' dtype handling of a frame split into several blocks is not modelled.
- `Classifier.CompleteLayerInfo`: `apply` on an empty frame is treated as producing an empty Zone column. pandas' special result type in that case is not modelled.
- `Batch.GetLayers`: it does not state that the frames it returns have no Zone column yet. `PointParser.KmlPointsToFrame` states this for each frame it creates.
