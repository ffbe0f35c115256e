/** `_kml_points_to_df`: one row per placemark that has a `Point`, in
    folder-then-placemark document order. */
module PointParser {
  import opened Results
  import opened Text
  import opened Scan
  import opened Kml

  /** A row of the points frame: the columns Longitude, Latitude, Altitude (still
      text: nothing converts them here), Name, Description and Folder. */
  datatype PointRow = PointRow(
    longitude: string, latitude: string, altitude: string,
    name: string, description: string, folder: string)

  /** The three coordinate cells of a point. The coordinate text is split on ',' and
      the pieces are assigned to Longitude, Latitude and Altitude by one slice
      assignment: three pieces go to the three cells in order, a single piece is
      broadcast into all three, and any other number of pieces raises. Without
      coordinate text the scalar "" is assigned, and fills all three cells. */
  function CoordinateCells(coordinates: Option<string>): Result<(string, string, string), ParseError>
  {
    match coordinates
    case None => Success(("", "", ""))
    case Some(text) =>
      var pieces := Split(text, ',');
      if |pieces| == 3 then Success((pieces[0], pieces[1], pieces[2]))
      else if |pieces| == 1 then Success((pieces[0], pieces[0], pieces[0]))
      else Failure(CoordinateShape)
  }

  /** The row a placemark contributes, if any. */
  function PointRowOf(e: Entry): Result<Option<PointRow>, ParseError>
  {
    match e.1.geometry
    case Point(coordinates) =>
      var cells :- CoordinateCells(coordinates);
      Success(Some(PointRow(cells.0, cells.1, cells.2, TextOf(e.1.name), TextOf(e.1.description), e.0)))
    case _ => Success(None)
  }

  predicate IsPointEntry(e: Entry)
  {
    e.1.geometry.Point?
  }

  /** The placemarks with a `Point`, with their folder labels, in document order. */
  function PointEntries(doc: Document): seq<Entry>
  {
    Filter(Entries(doc.folders), IsPointEntry)
  }

  /** The rows of the points frame. */
  function PointRows(doc: Document): Result<seq<PointRow>, ParseError>
  {
    Collect(doc.folders, PointRowOf)
  }

  /** The cells are the pieces of the coordinate text: the text needs no comma or
      exactly two. With two, the cells joined with commas give the text back; with
      none, every cell holds the whole text. */
  lemma CoordinateCellsRoundTrip(text: string)
    ensures CoordinateCells(Some(text)).Success? <==> multiset(text)[','] == 0 || multiset(text)[','] == 2
    ensures multiset(text)[','] == 2 ==>
              var (lon, lat, alt) := CoordinateCells(Some(text)).value;
              lon + "," + lat + "," + alt == text && ',' !in lon && ',' !in lat && ',' !in alt
    ensures multiset(text)[','] == 0 ==> CoordinateCells(Some(text)) == Success((text, text, text))
  {
    var pieces := Split(text, ',');
    SplitCount(text, ',');
    if |pieces| == 3 {
      JoinSplit(text, ',');
      assert Join(pieces, ',') == pieces[0] + [','] + Join(pieces[1..], ',');
      assert Join(pieces[1..], ',') == pieces[1] + [','] + Join(pieces[2..], ',');
      assert pieces[..][2..] == [pieces[2]];
    } else if |pieces| == 1 {
      JoinSplit(text, ',');
    }
  }

  /** An empty `coordinates` element gives the text `""`, a single piece, which is
      broadcast: the cells are empty, as when the element is absent. */
  lemma EmptyCoordinatesAsAbsent()
    ensures CoordinateCells(Some("")) == CoordinateCells(None) == Success(("", "", ""))
  {
    assert Split("", ',') == [""];
  }

  /** Comma-free longitude, latitude and altitude texts joined by commas land in
      their own cells. */
  lemma CoordinateCellsOfTuple(lon: string, lat: string, alt: string)
    requires ',' !in lon && ',' !in lat && ',' !in alt
    ensures CoordinateCells(Some(lon + "," + lat + "," + alt)) == Success((lon, lat, alt))
  {
    var pieces := [lon, lat, alt];
    SplitJoin(pieces, ',');
    assert pieces[1..] == [lat, alt] && pieces[1..][1..] == [alt];
    assert Join([alt], ',') == alt;
    assert Join([lat, alt], ',') == lat + [','] + alt;
    assert Join(pieces, ',') == lon + [','] + (lat + [','] + alt);
    assert lon + "," + lat + "," + alt == Join(pieces, ',');
    assert Split(lon + "," + lat + "," + alt, ',') == pieces;
  }

  /** Parsing succeeds exactly when every folder has some `name` and the coordinates
      of every point placemark fit the three cells. */
  lemma PointRowsSucceedIff(doc: Document)
    ensures PointRows(doc).Success? <==>
              AllFoldersLabelled(doc.folders) &&
              forall e :: e in Entries(doc.folders) && e.1.geometry.Point? ==>
                CoordinateCells(e.1.geometry.coordinates).Success?
  {
    var es := Entries(doc.folders);
    CollectIsFlat(doc.folders, PointRowOf);
    FilterMapSpec(es, PointRowOf);
    if AllFoldersLabelled(doc.folders) &&
       forall e :: e in es && e.1.geometry.Point? ==> CoordinateCells(e.1.geometry.coordinates).Success? {
      forall k | 0 <= k < |es|
        ensures PointRowOf(es[k]).Success?
      {
        if es[k].1.geometry.Point? {
          assert es[k] in es;
        }
      }
    }
    if PointRows(doc).Success? {
      forall e | e in es && e.1.geometry.Point?
        ensures CoordinateCells(e.1.geometry.coordinates).Success?
      {
        var k :| 0 <= k < |es| && es[k] == e;
        assert PointRowOf(es[k]).Success?;
      }
    }
  }

  /** A successful parse yields one row per point placemark, in document order,
      carrying that placemark's folder label, name and description ("" when missing)
      and its coordinate cells. */
  lemma PointRowsOnePerPointPlacemark(doc: Document)
    requires PointRows(doc).Success?
    ensures var rows := PointRows(doc).value;
            var points := PointEntries(doc);
            |rows| == |points| &&
            forall k :: 0 <= k < |rows| ==>
              points[k].1.geometry.Point? &&
              rows[k].folder == points[k].0 &&
              rows[k].name == TextOf(points[k].1.name) &&
              rows[k].description == TextOf(points[k].1.description) &&
              CoordinateCells(points[k].1.geometry.coordinates) == Success((rows[k].longitude, rows[k].latitude, rows[k].altitude))
  {
    var es := Entries(doc.folders);
    CollectIsFlat(doc.folders, PointRowOf);
    FilterMapSpec(es, PointRowOf);
    FilterMembers(es, IsPointEntry);
    KeptIsFilter(es, PointRowOf, IsPointEntry);
    forall k | 0 <= k < |PointEntries(doc)|
      ensures IsPointEntry(PointEntries(doc)[k])
    {
      assert PointEntries(doc)[k] in PointEntries(doc);
    }
  }

  /** The points frame. It is built row by row; `zone` is the Zone column, absent
      until the layer is classified. */
  class PointFrame {
    var rows: seq<PointRow>
    var zone: Option<seq<string>>

    constructor ()
      ensures rows == [] && zone == None
    {
      rows := [];
      zone := None;
    }

    /** `kml_df.loc[kml_df_index, ...] = ...` at the next free index. */
    method AppendRow(row: PointRow)
      modifies this
      ensures rows == old(rows) + [row] && zone == old(zone)
    {
      rows := rows + [row];
    }
  }

  /** The placemark loop of `_kml_points_to_df` over one folder whose label is
      `folderName`: a row is appended for every placemark with a `Point`; a point
      whose coordinates do not fit the three columns raises. */
  method AppendFolderPoints(frame: PointFrame, folder: Folder, folderName: string) returns (outcome: Outcome<ParseError>)
    requires FolderLabel(folder) == Some(folderName)
    modifies frame
    ensures frame.zone == old(frame.zone)
    ensures outcome.Pass? <==> FilterMap(FolderEntries(folder), PointRowOf).Success?
    ensures outcome.Fail? ==> outcome.error == FilterMap(FolderEntries(folder), PointRowOf).error
    ensures outcome.Pass? ==> frame.rows == old(frame.rows) + FilterMap(FolderEntries(folder), PointRowOf).value
  {
    ghost var entries := FolderEntries(folder);
    var placemarks := folder.placemarks;
    var j := 0;
    while j < |placemarks|
      invariant 0 <= j <= |placemarks|
      invariant frame.zone == old(frame.zone)
      invariant FilterMap(entries[..j], PointRowOf).Success?
      invariant frame.rows == old(frame.rows) + FilterMap(entries[..j], PointRowOf).value
    {
      var placemark := placemarks[j];
      FilterMapStep(entries, j, PointRowOf);
      assert entries[j] == (folderName, placemark);
      if placemark.geometry.Point? {
        var name := TextOf(placemark.name);
        var description := TextOf(placemark.description);
        var cells := CoordinateCells(placemark.geometry.coordinates);
        if cells.Failure? {
          FilterMapPrefixFailure(entries, j + 1, PointRowOf);
          return Fail(cells.error);
        }
        var (lon, lat, alt) := cells.value;
        frame.AppendRow(PointRow(lon, lat, alt, name, description, folderName));
      }
      j := j + 1;
    }
    assert entries[..j] == entries;
    return Pass;
  }

  /** `_kml_points_to_df` over the parsed document: a fresh frame holding one row per
      point placemark, or the error that aborts the parse. */
  method KmlPointsToFrame(doc: Document) returns (res: Result<PointFrame, ParseError>)
    ensures res.Success? <==> PointRows(doc).Success?
    ensures res.Failure? ==> res.error == PointRows(doc).error
    ensures res.Success? ==> fresh(res.value) && res.value.rows == PointRows(doc).value && res.value.zone == None
  {
    var frame := new PointFrame();
    var folders := doc.folders;
    var i := 0;
    while i < |folders|
      invariant 0 <= i <= |folders|
      invariant fresh(frame) && frame.zone == None
      invariant Collect(folders[..i], PointRowOf) == Success(frame.rows)
    {
      var folder := folders[i];
      CollectStep(folders, i, PointRowOf);
      var folderName := FolderLabel(folder);
      if folderName.None? {
        CollectPrefixFailure(folders, i + 1, PointRowOf);
        return Failure(MissingFolderName);
      }
      var outcome := AppendFolderPoints(frame, folder, folderName.value);
      if outcome.Fail? {
        CollectPrefixFailure(folders, i + 1, PointRowOf);
        return Failure(outcome.error);
      }
      i := i + 1;
    }
    assert folders[..i] == folders;
    return Success(frame);
  }
}
