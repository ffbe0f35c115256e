/** The already-parsed KML (OGC KML 2.2) document the two parsers walk, and the
    folder-then-placemark traversal they share. */
module Kml {
  import opened Results
  import opened Scan

  /** The geometry element a placemark carries. `coordinates` is the text of the
      `coordinates` element (for a polygon, the first one: its outer ring), `None`
      when that element is absent; an empty element has the text `""`. */
  datatype Geometry =
    | Point(coordinates: Option<string>)
    | Polygon(coordinates: Option<string>)
    | OtherGeometry

  /** A placemark: optional `name` and `description` elements and its geometry. */
  datatype Placemark = Placemark(name: Option<string>, description: Option<string>, geometry: Geometry)

  /** A folder: its own optional `name` element and its placemarks in document order. */
  datatype Folder = Folder(name: Option<string>, placemarks: seq<Placemark>)

  /** A document: its folders in document order. */
  datatype Document = Document(folders: seq<Folder>)

  /** Why parsing or classification raises. */
  datatype ParseError =
    | MissingFolderName   // `getText` called on the `None` that `folder.find('name')` returned
    | CoordinateShape     // a point's coordinate pieces do not fit the three coordinate columns
    | InvalidCoordinate   // `float` of a non-numeric coordinate piece

  /** `float(text)`, left abstract: `None` where Python raises. */
  type NumberParser = string -> Option<real>

  /** `find(...).getText() if find(...) else ""` for an optional text element. */
  function TextOf(element: Option<string>): string
  {
    match element
    case Some(text) => text
    case None => ""
  }

  /** The first placemark name in document order. */
  function FirstPlacemarkName(placemarks: seq<Placemark>): (r: Option<string>)
    ensures r.None? <==> forall i :: 0 <= i < |placemarks| ==> placemarks[i].name.None?
    ensures r.Some? ==> exists i :: 0 <= i < |placemarks| && placemarks[i].name == r &&
                                    forall j :: 0 <= j < i ==> placemarks[j].name.None?
    decreases |placemarks|
  {
    if placemarks == [] then None
    else if placemarks[0].name.Some? then placemarks[0].name
    else
      var r := FirstPlacemarkName(placemarks[1..]);
      assert forall i :: 1 <= i < |placemarks| ==> placemarks[i] == placemarks[1..][i - 1];
      r
  }

  /** `folder.find('name')`: the first `name` element anywhere under the folder. The
      folder's own name is taken to precede its placemarks, as the KML schema orders
      them, so it wins; without it, the first placemark name is found. */
  function FolderLabel(f: Folder): (r: Option<string>)
    ensures f.name.Some? ==> r == f.name
    ensures f.name.None? ==> r == FirstPlacemarkName(f.placemarks)
    ensures r.None? <==> f.name.None? && forall i :: 0 <= i < |f.placemarks| ==> f.placemarks[i].name.None?
  {
    if f.name.Some? then f.name else FirstPlacemarkName(f.placemarks)
  }

  /** A placemark together with the label of its folder. */
  type Entry = (string, Placemark)

  /** The placemarks of one folder, each tagged with the folder's label. */
  function FolderEntries(f: Folder): seq<Entry>
  {
    var folderName := TextOf(FolderLabel(f));
    seq(|f.placemarks|, j requires 0 <= j < |f.placemarks| => (folderName, f.placemarks[j]))
  }

  /** A folder whose own `name` element is empty is labelled `""`: its placemarks'
      names are not consulted and the folder does not raise. */
  lemma EmptyFolderNameLabelsEmpty(f: Folder)
    requires f.name == Some("")
    ensures FolderLabel(f) == Some("")
    ensures forall j :: 0 <= j < |FolderEntries(f)| ==> FolderEntries(f)[j] == ("", f.placemarks[j])
  {
  }

  /** All placemarks of all folders, folder by folder, in document order. */
  function Entries(folders: seq<Folder>): seq<Entry>
    decreases |folders|
  {
    if folders == [] then []
    else Entries(folders[..|folders| - 1]) + FolderEntries(folders[|folders| - 1])
  }

  predicate AllFoldersLabelled(folders: seq<Folder>)
  {
    forall i :: 0 <= i < |folders| ==> FolderLabel(folders[i]).Some?
  }

  /** The nested folder and placemark loops of both parsers: each folder's label is
      read first (raising when there is none), then its placemarks are walked. */
  function Collect<R>(folders: seq<Folder>, rowOf: Entry -> Result<Option<R>, ParseError>): Result<seq<R>, ParseError>
    decreases |folders|
  {
    if folders == [] then Success([])
    else
      var done :- Collect(folders[..|folders| - 1], rowOf);
      var f := folders[|folders| - 1];
      if FolderLabel(f).None? then Failure(MissingFolderName)
      else
        var more :- FilterMap(FolderEntries(f), rowOf);
        Success(done + more)
  }

  /** An error in the first folders is the error of the whole document. */
  lemma {:induction false} CollectPrefixFailure<R>(folders: seq<Folder>, i: nat, rowOf: Entry -> Result<Option<R>, ParseError>)
    requires i <= |folders|
    requires Collect(folders[..i], rowOf).Failure?
    ensures Collect(folders, rowOf) == Collect(folders[..i], rowOf)
    decreases |folders|
  {
    if i < |folders| {
      var init := folders[..|folders| - 1];
      assert init[..i] == folders[..i];
      CollectPrefixFailure(init, i, rowOf);
    } else {
      assert folders[..i] == folders;
    }
  }

  /** One more folder: the walk fails on it when it has no label or one of its
      placemarks raises, and otherwise appends that folder's rows. */
  lemma CollectStep<R>(folders: seq<Folder>, i: nat, rowOf: Entry -> Result<Option<R>, ParseError>)
    requires i < |folders|
    requires Collect(folders[..i], rowOf).Success?
    ensures FolderLabel(folders[i]).None? ==> Collect(folders[..i + 1], rowOf) == Failure(MissingFolderName)
    ensures FolderLabel(folders[i]).Some? && FilterMap(FolderEntries(folders[i]), rowOf).Failure? ==>
              Collect(folders[..i + 1], rowOf) == Failure(FilterMap(FolderEntries(folders[i]), rowOf).error)
    ensures FolderLabel(folders[i]).Some? && FilterMap(FolderEntries(folders[i]), rowOf).Success? ==>
              Collect(folders[..i + 1], rowOf) ==
              Success(Collect(folders[..i], rowOf).value + FilterMap(FolderEntries(folders[i]), rowOf).value)
  {
    assert folders[..i + 1][..i] == folders[..i];
  }

  /** The nested walk is the flat walk over all placemarks of the document, except
      that a folder without any `name` makes it fail. */
  lemma {:induction false} CollectIsFlat<R>(folders: seq<Folder>, rowOf: Entry -> Result<Option<R>, ParseError>)
    ensures Collect(folders, rowOf).Success? <==>
              AllFoldersLabelled(folders) && FilterMap(Entries(folders), rowOf).Success?
    ensures Collect(folders, rowOf).Success? ==> Collect(folders, rowOf).value == FilterMap(Entries(folders), rowOf).value
    decreases |folders|
  {
    if folders != [] {
      var init := folders[..|folders| - 1];
      var f := folders[|folders| - 1];
      CollectIsFlat(init, rowOf);
      FilterMapAppend(Entries(init), FolderEntries(f), rowOf);
      assert forall i :: 0 <= i < |init| ==> init[i] == folders[i];
      if AllFoldersLabelled(init) && FolderLabel(f).Some? {
        assert AllFoldersLabelled(folders);
      }
    }
  }
}
