/** `_kml_polys_to_df`: one zone per placemark that has a `Polygon`, in
    folder-then-placemark document order, with the vertex ring read from the
    coordinate text. */
module PolygonParser {
  import opened Results
  import opened Text
  import opened Scan
  import opened Kml

  datatype Vertex = Vertex(x: real, y: real, z: real)

  /** A row of the zones frame: Name, Description, Folder and the ring the
      `geometry` polygon is built from. */
  datatype Zone = Zone(name: string, description: string, folder: string, ring: seq<Vertex>)

  /** The coordinate text cut into tokens: every '\n' and '\t' is deleted (not
      replaced by a space), then the text is split on single spaces. */
  function Tokens(text: string): seq<string>
  {
    Split(Delete(Delete(text, '\n'), '\t'), ' ')
  }

  /** `[float(n) for n in parts]`: `None` when some part is not a number. */
  function ParseAll(parts: seq<string>, parse: NumberParser): (nums: Option<seq<real>>)
    ensures nums.Some? <==> forall i :: 0 <= i < |parts| ==> parse(parts[i]).Some?
    ensures nums.Some? ==> |nums.value| == |parts| &&
                           forall i :: 0 <= i < |parts| ==> parse(parts[i]) == Some(nums.value[i])
    decreases |parts|
  {
    if parts == [] then Some([])
    else
      match parse(parts[0])
      case None => None
      case Some(n) =>
        match ParseAll(parts[1..], parse)
        case None => None
        case Some(ns) => Some([n] + ns)
  }

  /** The vertex one token contributes: none for an empty token or for one whose
      components are not exactly three, an error when a component is not a number. */
  function TokenVertex(parse: NumberParser, token: string): Result<Option<Vertex>, ParseError>
  {
    if token == "" then Success(None)
    else
      match ParseAll(Split(token, ','), parse)
      case None => Failure(InvalidCoordinate)
      case Some(nums) =>
        if |nums| == 3 then Success(Some(Vertex(nums[0], nums[1], nums[2]))) else Success(None)
  }

  function TokenVertexFn(parse: NumberParser): string -> Result<Option<Vertex>, ParseError>
  {
    token => TokenVertex(parse, token)
  }

  /** The ring of a polygon: empty without coordinate text. */
  function RingOf(parse: NumberParser, coordinates: Option<string>): Result<seq<Vertex>, ParseError>
  {
    match coordinates
    case None => Success([])
    case Some(text) => FilterMap(Tokens(text), TokenVertexFn(parse))
  }

  /** The zone a placemark contributes, if any. */
  function ZoneRowOf(parse: NumberParser, e: Entry): Result<Option<Zone>, ParseError>
  {
    match e.1.geometry
    case Polygon(coordinates) =>
      var ring :- RingOf(parse, coordinates);
      Success(Some(Zone(TextOf(e.1.name), TextOf(e.1.description), e.0, ring)))
    case _ => Success(None)
  }

  function ZoneRowFn(parse: NumberParser): Entry -> Result<Option<Zone>, ParseError>
  {
    e => ZoneRowOf(parse, e)
  }

  /** The rows of the zones frame. */
  function ZoneRows(doc: Document, parse: NumberParser): Result<seq<Zone>, ParseError>
  {
    Collect(doc.folders, ZoneRowFn(parse))
  }

  predicate IsPolygonEntry(e: Entry)
  {
    e.1.geometry.Polygon?
  }

  /** The placemarks with a `Polygon`, with their folder labels, in document order. */
  function PolygonEntries(doc: Document): seq<Entry>
  {
    Filter(Entries(doc.folders), IsPolygonEntry)
  }

  /** A token that becomes a vertex when its components are numbers. */
  predicate IsTripleToken(token: string)
  {
    token != "" && |Split(token, ',')| == 3
  }

  /** A token that does not make `float` raise. */
  predicate IsNumericToken(parse: NumberParser, token: string)
  {
    token != "" ==> forall i :: 0 <= i < |Split(token, ',')| ==> parse(Split(token, ',')[i]).Some?
  }

  /** What one token contributes: it raises exactly when it is not numeric; otherwise
      it yields a vertex exactly when it has three components, and the vertex holds
      their values. */
  lemma TokenVertexSpec(parse: NumberParser, token: string)
    ensures TokenVertex(parse, token).Success? <==> IsNumericToken(parse, token)
    ensures TokenVertex(parse, token).Success? ==> (TokenVertex(parse, token).value.Some? <==> IsTripleToken(token))
    ensures TokenVertex(parse, token).Success? && TokenVertex(parse, token).value.Some? ==>
              var parts := Split(token, ',');
              var v := TokenVertex(parse, token).value.value;
              |parts| == 3 && parse(parts[0]) == Some(v.x) && parse(parts[1]) == Some(v.y) && parse(parts[2]) == Some(v.z)
  {
  }

  /** Reading a ring succeeds exactly when every component of every non-empty token is
      a number. */
  lemma RingSucceedsIffNumeric(parse: NumberParser, text: string)
    ensures RingOf(parse, Some(text)).Success? <==>
              forall i :: 0 <= i < |Tokens(text)| ==> IsNumericToken(parse, Tokens(text)[i])
  {
    var tokens := Tokens(text);
    var f := TokenVertexFn(parse);
    FilterMapSpec(tokens, f);
    forall k | 0 <= k < |tokens|
      ensures f(tokens[k]).Success? <==> IsNumericToken(parse, tokens[k])
    {
      TokenVertexSpec(parse, tokens[k]);
    }
  }

  /** A ring read without error holds one vertex per token of exactly three components,
      in the order of the tokens, and nothing else. */
  lemma RingKeepsTriples(parse: NumberParser, text: string)
    ensures RingOf(parse, Some(text)).Success? ==>
              var ring := RingOf(parse, Some(text)).value;
              var kept := Filter(Tokens(text), IsTripleToken);
              |ring| == |kept| &&
              forall k :: 0 <= k < |ring| ==>
                var parts := Split(kept[k], ',');
                |parts| == 3 && parse(parts[0]) == Some(ring[k].x) &&
                parse(parts[1]) == Some(ring[k].y) && parse(parts[2]) == Some(ring[k].z)
  {
    var tokens := Tokens(text);
    var f := TokenVertexFn(parse);
    FilterMapSpec(tokens, f);
    if RingOf(parse, Some(text)).Success? {
      forall k | 0 <= k < |tokens|
        ensures f(tokens[k]).Success? && (f(tokens[k]).value.Some? <==> IsTripleToken(tokens[k]))
      {
        TokenVertexSpec(parse, tokens[k]);
      }
      KeptIsFilter(tokens, f, IsTripleToken);
      var ring := RingOf(parse, Some(text)).value;
      var kept := Kept(tokens, f);
      forall k | 0 <= k < |ring|
        ensures var parts := Split(kept[k], ',');
                |parts| == 3 && parse(parts[0]) == Some(ring[k].x) &&
                parse(parts[1]) == Some(ring[k].y) && parse(parts[2]) == Some(ring[k].z)
      {
        assert f(kept[k]) == Success(Some(ring[k]));
        TokenVertexSpec(parse, kept[k]);
      }
    }
  }

  /** A token with an empty component, such as one with a trailing comma, makes the
      ring raise when `float("")` raises. */
  lemma EmptyComponentRaises(parse: NumberParser, text: string, t: string)
    requires parse("") == None
    requires t in Tokens(text) && t != ""
    requires "" in Split(t, ',')
    ensures RingOf(parse, Some(text)).Failure?
  {
    RingSucceedsIffNumeric(parse, text);
    var i :| 0 <= i < |Tokens(text)| && Tokens(text)[i] == t;
    assert !IsNumericToken(parse, t);
  }

  /** A trailing comma leaves an empty last component. */
  lemma TrailingCommaRaises(parse: NumberParser, text: string, a: string)
    requires parse("") == None
    requires a + [','] in Tokens(text)
    ensures RingOf(parse, Some(text)).Failure?
  {
    SplitTrailingSeparator(a, ',');
    var pieces := Split(a + [','], ',');
    assert pieces[|pieces| - 1] in pieces;
    EmptyComponentRaises(parse, text, a + [',']);
  }

  /** An empty `coordinates` element gives the text `""`: its only token is empty
      and is skipped, so the ring is empty, as when the element is absent. */
  lemma EmptyCoordinatesGiveEmptyRing(parse: NumberParser)
    ensures RingOf(parse, Some("")) == RingOf(parse, None) == Success([])
  {
    assert Tokens("") == [""];
    OneTokenRing(TokenVertexFn(parse), "");
  }

  /** Text free of spaces, newlines and tabs is one token. */
  lemma TokensOfPlainText(a: string)
    requires ' ' !in a && '\n' !in a && '\t' !in a
    ensures Tokens(a) == [a]
  {
    DeleteAbsent(a, '\n');
    DeleteAbsent(a, '\t');
    SplitWithoutSeparator(a, ' ');
  }

  /** Two tuples separated only by a newline merge into one token. */
  lemma NewlineMergesTuples(a: string, b: string)
    requires ' ' !in a && '\n' !in a && '\t' !in a
    requires ' ' !in b && '\n' !in b && '\t' !in b
    ensures Tokens(a + "\n" + b) == [a + b]
  {
    DeleteBetween(a, '\n', b);
    assert a + "\n" + b == a + ['\n'] + b;
    DeleteAbsent(a + b, '\t');
    SplitWithoutSeparator(a + b, ' ');
  }

  /** ... and so two well-formed tuples separated only by a newline are lost: the
      merged token has five components. */
  lemma NewlineSeparatedTuplesAreDropped(parse: NumberParser, a: string, b: string)
    requires ' ' !in a && '\n' !in a && '\t' !in a
    requires ' ' !in b && '\n' !in b && '\t' !in b
    requires |Split(a, ',')| == 3 && |Split(b, ',')| == 3
    ensures |Split(a + b, ',')| == 5
    ensures RingOf(parse, Some(a + "\n" + b)).Success? ==> RingOf(parse, Some(a + "\n" + b)).value == []
  {
    var merged := a + b;
    NewlineMergesTuples(a, b);
    SplitCount(a, ',');
    SplitCount(b, ',');
    SplitCount(merged, ',');
    assert multiset(merged) == multiset(a) + multiset(b);
    var f := TokenVertexFn(parse);
    assert f(merged) == TokenVertex(parse, merged);
    assert TokenVertex(parse, merged).Failure? || TokenVertex(parse, merged) == Success(None);
    OneTokenRing(f, merged);
  }

  /** The ring of a single token. */
  lemma OneTokenRing(f: string -> Result<Option<Vertex>, ParseError>, token: string)
    ensures f(token).Success? ==> FilterMap([token], f) == Success(if f(token).value.Some? then [f(token).value.value] else [])
    ensures f(token).Failure? ==> FilterMap([token], f) == Failure(f(token).error)
  {
    assert [token][..0] == [];
    assert FilterMap([token][..0], f) == Success([]);
    if f(token).Success? && f(token).value.Some? {
      assert [] + [f(token).value.value] == [f(token).value.value];
    }
  }

  /** Two numeric tuples separated by a space both become vertices, in order. */
  lemma SpaceSeparatedTuplesAreKept(parse: NumberParser, a: string, b: string)
    requires ' ' !in a && '\n' !in a && '\t' !in a
    requires ' ' !in b && '\n' !in b && '\t' !in b
    requires |Split(a, ',')| == 3 && |Split(b, ',')| == 3
    requires forall i :: 0 <= i < 3 ==> parse(Split(a, ',')[i]).Some? && parse(Split(b, ',')[i]).Some?
    ensures RingOf(parse, Some(a + " " + b)).Success?
    ensures var pa := Split(a, ','); var pb := Split(b, ',');
            RingOf(parse, Some(a + " " + b)).value ==
              [Vertex(parse(pa[0]).value, parse(pa[1]).value, parse(pa[2]).value),
               Vertex(parse(pb[0]).value, parse(pb[1]).value, parse(pb[2]).value)]
  {
    var text := a + " " + b;
    assert text == a + [' '] + b;
    DeleteAbsent(text, '\n');
    DeleteAbsent(text, '\t');
    SplitAtFirstSeparator(a, ' ', b);
    SplitWithoutSeparator(b, ' ');
    assert Tokens(text) == [a, b];
    var f := TokenVertexFn(parse);
    var pa := Split(a, ',');
    var pb := Split(b, ',');
    var va := Vertex(parse(pa[0]).value, parse(pa[1]).value, parse(pa[2]).value);
    var vb := Vertex(parse(pb[0]).value, parse(pb[1]).value, parse(pb[2]).value);
    assert a != [] && b != [];
    assert f(a) == TokenVertex(parse, a) == Success(Some(va));
    assert f(b) == TokenVertex(parse, b) == Success(Some(vb));
    OneTokenRing(f, a);
    assert [a, b][..1] == [a];
  }

  /** Parsing succeeds exactly when every folder has some `name` and the ring of every
      polygon placemark parses. */
  lemma ZoneRowsSucceedIff(doc: Document, parse: NumberParser)
    ensures ZoneRows(doc, parse).Success? <==>
              AllFoldersLabelled(doc.folders) &&
              forall e :: e in Entries(doc.folders) && e.1.geometry.Polygon? ==>
                RingOf(parse, e.1.geometry.coordinates).Success?
  {
    var es := Entries(doc.folders);
    var f := ZoneRowFn(parse);
    CollectIsFlat(doc.folders, f);
    FilterMapSpec(es, f);
    assert forall k :: 0 <= k < |es| ==> f(es[k]) == ZoneRowOf(parse, es[k]);
    if AllFoldersLabelled(doc.folders) &&
       forall e :: e in es && e.1.geometry.Polygon? ==> RingOf(parse, e.1.geometry.coordinates).Success? {
      forall k | 0 <= k < |es|
        ensures f(es[k]).Success?
      {
        if es[k].1.geometry.Polygon? {
          assert es[k] in es;
        }
      }
    }
    if ZoneRows(doc, parse).Success? {
      forall e | e in es && e.1.geometry.Polygon?
        ensures RingOf(parse, e.1.geometry.coordinates).Success?
      {
        var k :| 0 <= k < |es| && es[k] == e;
        assert f(es[k]).Success?;
      }
    }
  }

  /** A successful parse yields one zone per polygon placemark, in document order,
      carrying that placemark's folder label, name, description and ring. */
  lemma ZoneRowsOnePerPolygonPlacemark(doc: Document, parse: NumberParser)
    requires ZoneRows(doc, parse).Success?
    ensures var zones := ZoneRows(doc, parse).value;
            var polygons := PolygonEntries(doc);
            |zones| == |polygons| &&
            forall k :: 0 <= k < |zones| ==>
              polygons[k].1.geometry.Polygon? &&
              zones[k].folder == polygons[k].0 &&
              zones[k].name == TextOf(polygons[k].1.name) &&
              zones[k].description == TextOf(polygons[k].1.description) &&
              RingOf(parse, polygons[k].1.geometry.coordinates) == Success(zones[k].ring)
  {
    var es := Entries(doc.folders);
    var f := ZoneRowFn(parse);
    CollectIsFlat(doc.folders, f);
    FilterMapSpec(es, f);
    FilterMembers(es, IsPolygonEntry);
    assert forall k :: 0 <= k < |es| ==> f(es[k]) == ZoneRowOf(parse, es[k]);
    KeptIsFilter(es, f, IsPolygonEntry);
    var zones := ZoneRows(doc, parse).value;
    forall k | 0 <= k < |PolygonEntries(doc)|
      ensures IsPolygonEntry(PolygonEntries(doc)[k])
    {
      assert PolygonEntries(doc)[k] in PolygonEntries(doc);
    }
    forall k | 0 <= k < |zones|
      ensures f(PolygonEntries(doc)[k]) == Success(Some(zones[k]))
    {
    }
  }

  /** The ring loop of `_kml_polys_to_df` over the polygon's coordinate text, if any. */
  method ParseCoordinates(coordinates: Option<string>, parse: NumberParser) returns (ring: Result<seq<Vertex>, ParseError>)
    ensures ring == RingOf(parse, coordinates)
  {
    if coordinates.None? {
      return Success([]);
    }
    var tokens := Tokens(coordinates.value);
    ghost var f := TokenVertexFn(parse);
    var coordinates: seq<Vertex> := [];
    var i := 0;
    while i < |tokens|
      invariant 0 <= i <= |tokens|
      invariant FilterMap(tokens[..i], f) == Success(coordinates)
    {
      var token := tokens[i];
      FilterMapStep(tokens, i, f);
      assert f(token) == TokenVertex(parse, token);
      if token != "" {
        var nums := ParseAll(Split(token, ','), parse);
        if nums.None? {
          FilterMapPrefixFailure(tokens, i + 1, f);
          return Failure(InvalidCoordinate);
        }
        if |nums.value| == 3 {
          coordinates := coordinates + [Vertex(nums.value[0], nums.value[1], nums.value[2])];
        }
      }
      i := i + 1;
    }
    assert tokens[..i] == tokens;
    return Success(coordinates);
  }

  /** The placemark loop of `_kml_polys_to_df` over one folder whose label is
      `folderName`: a zone for every placemark with a `Polygon`. */
  method FolderZones(folder: Folder, folderName: string, parse: NumberParser) returns (res: Result<seq<Zone>, ParseError>)
    requires FolderLabel(folder) == Some(folderName)
    ensures res == FilterMap(FolderEntries(folder), ZoneRowFn(parse))
  {
    ghost var f := ZoneRowFn(parse);
    ghost var entries := FolderEntries(folder);
    var zones: seq<Zone> := [];
    var placemarks := folder.placemarks;
    var j := 0;
    while j < |placemarks|
      invariant 0 <= j <= |placemarks|
      invariant FilterMap(entries[..j], f) == Success(zones)
    {
      var placemark := placemarks[j];
      FilterMapStep(entries, j, f);
      assert entries[j] == (folderName, placemark);
      assert f(entries[j]) == ZoneRowOf(parse, entries[j]);
      if placemark.geometry.Polygon? {
        var name := TextOf(placemark.name);
        var description := TextOf(placemark.description);
        var ring := ParseCoordinates(placemark.geometry.coordinates, parse);
        if ring.Failure? {
          FilterMapPrefixFailure(entries, j + 1, f);
          return Failure(ring.error);
        }
        zones := zones + [Zone(name, description, folderName, ring.value)];
      }
      j := j + 1;
    }
    assert entries[..j] == entries;
    return Success(zones);
  }

  /** `_kml_polys_to_df` over the parsed document. */
  method KmlPolysToZones(doc: Document, parse: NumberParser) returns (res: Result<seq<Zone>, ParseError>)
    ensures res == ZoneRows(doc, parse)
  {
    ghost var f := ZoneRowFn(parse);
    var zones: seq<Zone> := [];
    var folders := doc.folders;
    var i := 0;
    while i < |folders|
      invariant 0 <= i <= |folders|
      invariant Collect(folders[..i], f) == Success(zones)
    {
      var folder := folders[i];
      CollectStep(folders, i, f);
      var folderName := FolderLabel(folder);
      if folderName.None? {
        CollectPrefixFailure(folders, i + 1, f);
        return Failure(MissingFolderName);
      }
      var more := FolderZones(folder, folderName.value, parse);
      if more.Failure? {
        CollectPrefixFailure(folders, i + 1, f);
        return Failure(more.error);
      }
      zones := zones + more.value;
      i := i + 1;
    }
    assert folders[..i] == folders;
    return Success(zones);
  }
}
