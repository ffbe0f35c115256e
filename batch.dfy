/** `_get_layers` and `main`: pick the layer files, parse each into a layer keyed by
    its layer name, classify every layer against the zones and count the rows. */
module Batch {
  import opened Results
  import opened Scan
  import opened Kml
  import opened PointParser
  import opened PolygonParser
  import opened Classifier

  /** `re.match(r'^.*\.kml$', s)` succeeds with `.*` covering `s[..k]`: '.' matches
      any character but a newline, and `$` matches at the very end or just before a
      newline that ends the string. */
  ghost predicate KmlPatternMatchesAt(s: string, k: int)
  {
    0 <= k && k + 4 <= |s| && '\n' !in s[..k] && s[k..k + 4] == ".kml" &&
    (k + 4 == |s| || (k + 5 == |s| && s[k + 4] == '\n'))
  }

  /** The file-name filter of `_get_layers`: the name ends in ".kml", or in ".kml"
      and one final newline, with no newline before that. */
  predicate IsKmlFileName(fileName: string)
  {
    var n := |fileName|;
    (n >= 4 && fileName[n - 4..] == ".kml" && '\n' !in fileName[..n - 4]) ||
    (n >= 5 && fileName[n - 1] == '\n' && fileName[n - 5..n - 1] == ".kml" && '\n' !in fileName[..n - 5])
  }

  /** A match of the regular expression ends the name as the filter requires. */
  lemma PatternMatchIsKmlFileName(fileName: string, k: int)
    requires KmlPatternMatchesAt(fileName, k)
    ensures IsKmlFileName(fileName)
  {
    var n := |fileName|;
    if k + 4 == n {
      assert fileName[n - 4..] == fileName[k..k + 4];
      assert fileName[..n - 4] == fileName[..k];
    } else {
      assert k == n - 5;
      assert fileName[n - 5..n - 1] == fileName[k..k + 4];
      assert fileName[..n - 5] == fileName[..k];
    }
  }

  /** The filter accepts exactly the names the regular expression matches. */
  lemma IsKmlFileNameMatchesPattern(fileName: string)
    ensures IsKmlFileName(fileName) <==> exists k :: KmlPatternMatchesAt(fileName, k)
  {
    var n := |fileName|;
    if IsKmlFileName(fileName) {
      if n >= 4 && fileName[n - 4..] == ".kml" && '\n' !in fileName[..n - 4] {
        assert KmlPatternMatchesAt(fileName, n - 4);
      } else {
        assert KmlPatternMatchesAt(fileName, n - 5);
      }
    }
    forall k | KmlPatternMatchesAt(fileName, k)
      ensures IsKmlFileName(fileName)
    {
      PatternMatchIsKmlFileName(fileName, k);
    }
  }

  /** `file_name.replace('.kml', '')`: every occurrence, scanning left to right, is
      removed, not just a final extension. */
  function LayerName(fileName: string): (name: string)
    ensures |name| <= |fileName|
    decreases |fileName|
  {
    if |fileName| < 4 then fileName
    else if fileName[..4] == ".kml" then LayerName(fileName[4..])
    else [fileName[0]] + LayerName(fileName[1..])
  }

  /** ".kml" occurs in `s` starting at index `k`. */
  ghost predicate KmlAt(s: string, k: int)
  {
    0 <= k && k + 4 <= |s| && s[k..k + 4] == ".kml"
  }

  ghost predicate ContainsKml(s: string)
  {
    exists k :: KmlAt(s, k)
  }

  /** The layer name is the file name itself exactly when it has no ".kml" in it;
      otherwise it is shorter. */
  lemma {:induction false} LayerNameUnchanged(fileName: string)
    ensures LayerName(fileName) == fileName <==> !ContainsKml(fileName)
    ensures ContainsKml(fileName) ==> |LayerName(fileName)| < |fileName|
    decreases |fileName|
  {
    if |fileName| < 4 {
    } else if fileName[..4] == ".kml" {
      assert KmlAt(fileName, 0);
      assert |LayerName(fileName[4..])| <= |fileName| - 4;
    } else {
      var rest := fileName[1..];
      LayerNameUnchanged(rest);
      assert LayerName(fileName) == [fileName[0]] + LayerName(rest);
      assert fileName == [fileName[0]] + rest;
      assert LayerName(fileName)[1..] == LayerName(rest);
      if ContainsKml(fileName) {
        var k :| KmlAt(fileName, k);
        assert k != 0;
        assert rest[k - 1..k + 3] == fileName[k..k + 4];
        assert KmlAt(rest, k - 1);
      }
      if ContainsKml(rest) {
        var k :| KmlAt(rest, k);
        assert fileName[k + 1..k + 5] == rest[k..k + 4];
        assert KmlAt(fileName, k + 1);
      }
    }
  }

  lemma ContainsKmlTail(s: string)
    requires |s| > 0
    ensures ContainsKml(s[1..]) ==> ContainsKml(s)
  {
    if ContainsKml(s[1..]) {
      var k :| KmlAt(s[1..], k);
      assert s[k + 1..k + 5] == s[1..][k..k + 4];
      assert KmlAt(s, k + 1);
    }
  }

  /** `base.kml` does not start with ".kml" when `base` is non-empty and has no ".kml". */
  lemma KmlNotAtStart(base: string)
    requires base != [] && !KmlAt(base, 0)
    ensures (base + ".kml")[..4] != ".kml"
  {
    var s := base + ".kml";
    if |base| >= 4 {
      assert s[..4] == base[0..4];
    } else {
      assert s[..4][|base|] == s[|base|] == '.';
      assert ".kml"[|base|] != '.';
    }
  }

  /** A text that does not start with ".kml" keeps its first character. */
  lemma LayerNameKeepsFirst(s: string)
    requires |s| >= 4 && s[..4] != ".kml"
    ensures LayerName(s) == [s[0]] + LayerName(s[1..])
  {
  }

  /** A leading ".kml" is removed. */
  lemma LayerNameDropsLeadingKml(b: string)
    ensures LayerName(".kml" + b) == LayerName(b)
  {
    assert (".kml" + b)[..4] == ".kml" && (".kml" + b)[4..] == b;
  }

  /** A text without ".kml" neither starts with it nor has it after its first character. */
  lemma NoKmlInTail(a: string)
    requires a != [] && !ContainsKml(a)
    ensures !KmlAt(a, 0) && !ContainsKml(a[1..])
  {
    ContainsKmlTail(a);
  }

  /** `a.kml` followed by anything does not start with ".kml" when `a` is non-empty
      and has no ".kml"; dropping its first character leaves `a[1..]` in front. */
  lemma KmlFileNameShape(a: string, b: string)
    requires a != [] && !ContainsKml(a)
    ensures var s := a + ".kml" + b;
            |s| >= 4 && s[..4] != ".kml" && s[0] == a[0] && s[1..] == a[1..] + ".kml" + b
  {
    NoKmlInTail(a);
    KmlNotAtStart(a);
    var s := a + ".kml" + b;
    assert s[..4] == (a + ".kml")[..4];
  }

  /** The step of `LayerNameAtFirstKml`: the first character of `a` is kept. */
  lemma LayerNameAtFirstKmlStep(a: string, b: string)
    requires a != [] && !ContainsKml(a)
    requires LayerName(a[1..] + ".kml" + b) == a[1..] + LayerName(b)
    ensures LayerName(a + ".kml" + b) == a + LayerName(b)
  {
    var s := a + ".kml" + b;
    KmlFileNameShape(a, b);
    LayerNameKeepsFirst(s);
    assert a == [a[0]] + a[1..];
  }

  /** Up to its first ".kml", the name is kept; that ".kml" is removed and the scan
      goes on after it. With `LayerNameUnchanged` this describes the layer name of
      every file name. */
  lemma {:induction false} LayerNameAtFirstKml(a: string, b: string)
    requires !ContainsKml(a)
    ensures LayerName(a + ".kml" + b) == a + LayerName(b)
    decreases |a|
  {
    if a == [] {
      assert a + ".kml" + b == ".kml" + b;
      LayerNameDropsLeadingKml(b);
    } else {
      NoKmlInTail(a);
      LayerNameAtFirstKml(a[1..], b);
      LayerNameAtFirstKmlStep(a, b);
    }
  }

  /** A file named `base.kml`, with no other ".kml" in it, gives the layer `base`. */
  lemma LayerNameOfKmlFile(base: string)
    requires !ContainsKml(base)
    ensures LayerName(base + ".kml") == base
  {
    LayerNameAtFirstKml(base, []);
    assert base + ".kml" + [] == base + ".kml";
  }

  /** "a.kml.kml" gives the layer "a": every ".kml" goes, not only the extension. */
  lemma LayerNameDropsEveryKml()
    ensures LayerName("a.kml.kml") == "a"
  {
    assert LayerName(".kml") == "";
    assert LayerName(".kml.kml") == "";
  }

  /** "x..kmlkml" gives the layer "x.kml": the replacement makes one pass, so a ".kml"
      formed by the removal stays. */
  lemma LayerNameSinglePass()
    ensures LayerName("x..kmlkml") == "x.kml"
  {
    assert LayerName("l") == "l";
    assert LayerName("ml") == "ml";
    assert LayerName("kml") == "kml";
    assert LayerName(".kmlkml") == "kml";
  }

  /** One layer of `_get_layers`: its name and its rows. */
  type Layer = (string, seq<PointRow>)

  /** A Python dict as its items in insertion order. */
  type Dict<V> = seq<(string, V)>

  /** The position of `key` among the items, -1 when it is absent. */
  function KeyIndex<V>(d: Dict<V>, key: string): (i: int)
    ensures -1 <= i < |d|
    ensures i >= 0 ==> d[i].0 == key
    ensures i < 0 ==> forall j :: 0 <= j < |d| ==> d[j].0 != key
    decreases |d|
  {
    if d == [] then -1
    else if d[|d| - 1].0 == key then |d| - 1
    else KeyIndex(d[..|d| - 1], key)
  }

  /** `d[key] = value`: an existing key keeps its place and takes the new value; a new
      key goes last. */
  function Put<V>(d: Dict<V>, key: string, value: V): Dict<V>
  {
    var i := KeyIndex(d, key);
    if i >= 0 then d[i := (key, value)] else d + [(key, value)]
  }

  predicate HasKey<V>(d: Dict<V>, key: string)
  {
    exists j :: 0 <= j < |d| && d[j].0 == key
  }

  predicate DistinctKeys<V>(d: Dict<V>)
  {
    forall i, j :: 0 <= i < j < |d| ==> d[i].0 != d[j].0
  }

  /** Assigning a key keeps the keys distinct; afterwards the keys are the old ones
      and the assigned one. */
  lemma PutSpec<V>(d: Dict<V>, key: string, value: V)
    requires DistinctKeys(d)
    ensures DistinctKeys(Put(d, key, value))
    ensures forall k :: HasKey(Put(d, key, value), k) <==> HasKey(d, k) || k == key
    ensures HasKey(d, key) ==>
              |Put(d, key, value)| == |d| &&
              forall j :: 0 <= j < |d| ==> Put(d, key, value)[j] == if d[j].0 == key then (key, value) else d[j]
    ensures !HasKey(d, key) ==> Put(d, key, value) == d + [(key, value)]
    ensures forall j :: 0 <= j < |Put(d, key, value)| ==>
              Put(d, key, value)[j] == (key, value) || (j < |d| && Put(d, key, value)[j] == d[j])
  {
    var i := KeyIndex(d, key);
    var r := Put(d, key, value);
    if i >= 0 {
      assert HasKey(d, key);
      assert forall j :: 0 <= j < |d| ==> r[j].0 == d[j].0;
      forall k | HasKey(d, k) ensures HasKey(r, k) {
        var j :| 0 <= j < |d| && d[j].0 == k;
        assert r[j].0 == k;
      }
    } else {
      assert r[|d|].0 == key;
      forall k | HasKey(d, k) ensures HasKey(r, k) {
        var j :| 0 <= j < |d| && d[j].0 == k;
        assert r[j].0 == k;
      }
    }
  }

  /** The dict that `for x in xs: if select(x): d[key(x)] = value(x)` builds, starting
      from an empty dict; the first error `value` raises ends the loop. */
  function BuildDict<V, E>(xs: seq<string>, select: string -> bool, key: string -> string,
                           value: string -> Result<V, E>): Result<Dict<V>, E>
    decreases |xs|
  {
    if xs == [] then Success([])
    else
      var d :- BuildDict(xs[..|xs| - 1], select, key, value);
      var x := xs[|xs| - 1];
      if select(x) then
        var v :- value(x);
        Success(Put(d, key(x), v))
      else Success(d)
  }

  /** An error raised for one of the first items is the error of the whole loop. */
  lemma {:induction false} BuildDictPrefixFailure<V, E>(xs: seq<string>, i: nat, select: string -> bool,
                                                       key: string -> string, value: string -> Result<V, E>)
    requires i <= |xs|
    requires BuildDict(xs[..i], select, key, value).Failure?
    ensures BuildDict(xs, select, key, value) == BuildDict(xs[..i], select, key, value)
    decreases |xs|
  {
    if i < |xs| {
      var init := xs[..|xs| - 1];
      assert init[..i] == xs[..i];
      BuildDictPrefixFailure(init, i, select, key, value);
    } else {
      assert xs[..i] == xs;
    }
  }

  /** Item `item` of the dict was set by `xs[i]`: a selected element with that key and
      value, and no later selected element has the same key. */
  ghost predicate IsLastSetter<V, E>(xs: seq<string>, select: string -> bool, key: string -> string,
                                     value: string -> Result<V, E>, i: int, item: (string, V))
  {
    0 <= i < |xs| && select(xs[i]) && key(xs[i]) == item.0 && value(xs[i]) == Success(item.1) &&
    forall later :: i < later < |xs| && select(xs[later]) ==> key(xs[later]) != item.0
  }

  /** Some element of `xs` is the last setter of `item`. */
  ghost predicate SetLastBy<V, E>(xs: seq<string>, select: string -> bool, key: string -> string,
                                  value: string -> Result<V, E>, item: (string, V))
  {
    exists i :: IsLastSetter(xs, select, key, value, i, item)
  }

  /** Distinct keys, one per selected element, each holding the value of the last
      selected element with that key. */
  ghost predicate LastSetterWins<V, E>(xs: seq<string>, select: string -> bool, key: string -> string,
                                       value: string -> Result<V, E>, d: Dict<V>)
  {
    DistinctKeys(d) &&
    (forall i :: 0 <= i < |xs| && select(xs[i]) ==> HasKey(d, key(xs[i]))) &&
    forall j :: 0 <= j < |d| ==> SetLastBy(xs, select, key, value, d[j])
  }

  lemma LastSetterWinsSkip<V, E>(xs: seq<string>, select: string -> bool, key: string -> string,
                                 value: string -> Result<V, E>, d: Dict<V>)
    requires |xs| > 0 && !select(xs[|xs| - 1])
    requires LastSetterWins(xs[..|xs| - 1], select, key, value, d)
    ensures LastSetterWins(xs, select, key, value, d)
  {
    var n := |xs|;
    var init := xs[..n - 1];
    forall i | 0 <= i < n && select(xs[i])
      ensures HasKey(d, key(xs[i]))
    {
      assert init[i] == xs[i];
    }
    forall j | 0 <= j < |d|
      ensures SetLastBy(xs, select, key, value, d[j])
    {
      var i :| IsLastSetter(init, select, key, value, i, d[j]);
      assert xs[i] == init[i];
      assert IsLastSetter(xs, select, key, value, i, d[j]);
    }
  }

  /** After `d[key(x)] = value(x)` for the last element `x`, every selected element's
      key is still present. */
  lemma PutKeepsSelectedKeys<V, E>(xs: seq<string>, select: string -> bool, key: string -> string,
                                   value: string -> Result<V, E>, before: Dict<V>)
    requires |xs| > 0 && select(xs[|xs| - 1]) && value(xs[|xs| - 1]).Success?
    requires DistinctKeys(before)
    requires forall i :: 0 <= i < |xs| - 1 && select(xs[i]) ==> HasKey(before, key(xs[i]))
    ensures forall i :: 0 <= i < |xs| && select(xs[i]) ==>
              HasKey(Put(before, key(xs[|xs| - 1]), value(xs[|xs| - 1]).value), key(xs[i]))
  {
    var n := |xs|;
    PutSpec(before, key(xs[n - 1]), value(xs[n - 1]).value);
  }

  lemma LastSetterWinsPut<V, E>(xs: seq<string>, select: string -> bool, key: string -> string,
                                value: string -> Result<V, E>, before: Dict<V>)
    requires |xs| > 0 && select(xs[|xs| - 1]) && value(xs[|xs| - 1]).Success?
    requires LastSetterWins(xs[..|xs| - 1], select, key, value, before)
    ensures LastSetterWins(xs, select, key, value, Put(before, key(xs[|xs| - 1]), value(xs[|xs| - 1]).value))
  {
    var n := |xs|;
    var init := xs[..n - 1];
    var k := key(xs[n - 1]);
    var v := value(xs[n - 1]).value;
    var d := Put(before, k, v);
    PutSpec(before, k, v);
    assert forall i :: 0 <= i < n - 1 ==> init[i] == xs[i];
    PutKeepsSelectedKeys(xs, select, key, value, before);
    forall j | 0 <= j < |d|
      ensures SetLastBy(xs, select, key, value, d[j])
    {
      if d[j].0 == k {
        assert d[j] == (k, v);
        assert IsLastSetter(xs, select, key, value, n - 1, d[j]);
      } else {
        assert j < |before| && d[j] == before[j];
        var i :| IsLastSetter(init, select, key, value, i, before[j]);
        assert IsLastSetter(xs, select, key, value, i, d[j]);
      }
    }
  }

  /** The loop fails exactly when `value` raises for some selected element; otherwise
      the keys are distinct, every selected element's key is present, and each key holds
      the value of the LAST selected element with that key. */
  lemma {:induction false} BuildDictLastWins<V, E>(xs: seq<string>, select: string -> bool, key: string -> string,
                                                  value: string -> Result<V, E>)
    ensures BuildDict(xs, select, key, value).Success? <==>
              forall i :: 0 <= i < |xs| && select(xs[i]) ==> value(xs[i]).Success?
    ensures BuildDict(xs, select, key, value).Success? ==>
              LastSetterWins(xs, select, key, value, BuildDict(xs, select, key, value).value)
    decreases |xs|
  {
    if xs != [] {
      var n := |xs|;
      var init := xs[..n - 1];
      assert forall i :: 0 <= i < n - 1 ==> init[i] == xs[i];
      BuildDictLastWins(init, select, key, value);
      if BuildDict(init, select, key, value).Success? {
        var before := BuildDict(init, select, key, value).value;
        if select(xs[n - 1]) {
          if value(xs[n - 1]).Success? {
            LastSetterWinsPut(xs, select, key, value, before);
          }
        } else {
          LastSetterWinsSkip(xs, select, key, value, before);
        }
      }
    }
  }

  /** The rows of the layer file `fileName`, parsed from the document `docOf` gives. */
  function LayerRows(docOf: string -> Document): string -> Result<seq<PointRow>, ParseError>
  {
    fileName => PointRows(docOf(fileName))
  }

  /** The layers `_get_layers` builds from the file names, in the order the directory
      lists them: `.kml` files only, keyed by layer name. */
  function LayersSpec(fileNames: seq<string>, docOf: string -> Document): Result<Dict<seq<PointRow>>, ParseError>
  {
    BuildDict(fileNames, IsKmlFileName, LayerName, LayerRows(docOf))
  }

  /** One more file name: a name that is not a `.kml` file changes nothing; a `.kml`
      file raises its parse error or sets its layer. */
  lemma LayersSpecStep(fileNames: seq<string>, i: nat, docOf: string -> Document)
    requires i < |fileNames|
    requires LayersSpec(fileNames[..i], docOf).Success?
    ensures !IsKmlFileName(fileNames[i]) ==> LayersSpec(fileNames[..i + 1], docOf) == LayersSpec(fileNames[..i], docOf)
    ensures IsKmlFileName(fileNames[i]) && PointRows(docOf(fileNames[i])).Failure? ==>
              LayersSpec(fileNames[..i + 1], docOf) == Failure(PointRows(docOf(fileNames[i])).error)
    ensures IsKmlFileName(fileNames[i]) && PointRows(docOf(fileNames[i])).Success? ==>
              LayersSpec(fileNames[..i + 1], docOf) ==
              Success(Put(LayersSpec(fileNames[..i], docOf).value, LayerName(fileNames[i]), PointRows(docOf(fileNames[i])).value))
  {
    assert fileNames[..i + 1][..i] == fileNames[..i];
    assert LayerRows(docOf)(fileNames[i]) == PointRows(docOf(fileNames[i]));
  }

  /** Layer `layer` comes from `fileNames[i]`: a `.kml` file with that layer name whose
      document parses to those rows, and no later `.kml` file has the same layer name. */
  ghost predicate IsLastKmlFile(fileNames: seq<string>, docOf: string -> Document, i: int, layer: Layer)
  {
    0 <= i < |fileNames| && IsKmlFileName(fileNames[i]) && LayerName(fileNames[i]) == layer.0 &&
    PointRows(docOf(fileNames[i])) == Success(layer.1) &&
    forall later :: i < later < |fileNames| && IsKmlFileName(fileNames[later]) ==> LayerName(fileNames[later]) != layer.0
  }

  ghost predicate FromLastKmlFile(fileNames: seq<string>, docOf: string -> Document, layer: Layer)
  {
    exists i :: IsLastKmlFile(fileNames, docOf, i, layer)
  }

  /** Building the layers fails exactly when some `.kml` file fails to parse. Otherwise
      every `.kml` file's layer name is a key, the keys are distinct, and each layer
      holds the rows of the LAST `.kml` file with its name. */
  lemma LayersLastFileWins(fileNames: seq<string>, docOf: string -> Document)
    ensures LayersSpec(fileNames, docOf).Success? <==>
              forall i :: 0 <= i < |fileNames| && IsKmlFileName(fileNames[i]) ==> PointRows(docOf(fileNames[i])).Success?
    ensures LayersSpec(fileNames, docOf).Success? ==>
              var layers := LayersSpec(fileNames, docOf).value;
              DistinctKeys(layers) &&
              (forall i :: 0 <= i < |fileNames| && IsKmlFileName(fileNames[i]) ==> HasKey(layers, LayerName(fileNames[i]))) &&
              forall j :: 0 <= j < |layers| ==> FromLastKmlFile(fileNames, docOf, layers[j])
  {
    BuildDictLastWins(fileNames, IsKmlFileName, LayerName, LayerRows(docOf));
    if LayersSpec(fileNames, docOf).Success? {
      var layers := LayersSpec(fileNames, docOf).value;
      forall j | 0 <= j < |layers|
        ensures FromLastKmlFile(fileNames, docOf, layers[j])
      {
        var i :| IsLastSetter(fileNames, IsKmlFileName, LayerName, LayerRows(docOf), i, layers[j]);
        assert LayerRows(docOf)(fileNames[i]) == PointRows(docOf(fileNames[i]));
        assert IsLastKmlFile(fileNames, docOf, i, layers[j]);
      }
    }
  }

  /** The row count summed over layers. */
  function TotalRows(layers: Dict<seq<PointRow>>): nat
    decreases |layers|
  {
    if layers == [] then 0 else TotalRows(layers[..|layers| - 1]) + |layers[|layers| - 1].1|
  }

  /** A layer with its Zone column. */
  datatype EnrichedLayer = EnrichedLayer(name: string, rows: seq<PointRow>, zone: seq<string>)

  /** What a run produces: the classified layers and the total `main` prints. */
  datatype RunSummary = RunSummary(layers: seq<EnrichedLayer>, total: nat)

  function Enrich(zones: seq<Zone>, parse: NumberParser, contains: Containment, layer: Layer): Result<Option<EnrichedLayer>, ParseError>
  {
    var column :- ZoneColumn(layer.1, zones, parse, contains);
    Success(Some(EnrichedLayer(layer.0, layer.1, column)))
  }

  function EnrichFn(zones: seq<Zone>, parse: NumberParser, contains: Containment): Layer -> Result<Option<EnrichedLayer>, ParseError>
  {
    layer => Enrich(zones, parse, contains, layer)
  }

  /** `main`: the zones are parsed first, then every layer, then the layers are
      classified in dict order; the first error aborts the run. */
  function RunSpec(zonesDoc: Document, fileNames: seq<string>, docOf: string -> Document,
                   parse: NumberParser, contains: Containment): Result<RunSummary, ParseError>
  {
    var zones :- ZoneRows(zonesDoc, parse);
    var layers :- LayersSpec(fileNames, docOf);
    var enriched :- FilterMap(layers, EnrichFn(zones, parse, contains));
    Success(RunSummary(enriched, TotalRows(layers)))
  }

  /** The number of Zone values assigned, over all layers. */
  function ZonesAssigned(layers: seq<EnrichedLayer>): nat
    decreases |layers|
  {
    if layers == [] then 0 else ZonesAssigned(layers[..|layers| - 1]) + |layers[|layers| - 1].zone|
  }

  lemma {:induction false} TotalRowsIsZonesAssigned(layers: Dict<seq<PointRow>>, enriched: seq<EnrichedLayer>)
    requires |layers| == |enriched|
    requires forall j :: 0 <= j < |layers| ==> |enriched[j].zone| == |layers[j].1|
    ensures TotalRows(layers) == ZonesAssigned(enriched)
    decreases |layers|
  {
    if layers != [] {
      TotalRowsIsZonesAssigned(layers[..|layers| - 1], enriched[..|enriched| - 1]);
    }
  }

  /** After a successful run every layer has one Zone value per row, each the name of a
      zone or "Sin Zona", and the printed total is the number of Zone values assigned. */
  lemma RunAssignsOneZonePerRow(zonesDoc: Document, fileNames: seq<string>, docOf: string -> Document,
                                parse: NumberParser, contains: Containment)
    requires RunSpec(zonesDoc, fileNames, docOf, parse, contains).Success?
    ensures var summary := RunSpec(zonesDoc, fileNames, docOf, parse, contains).value;
            var zones := ZoneRows(zonesDoc, parse).value;
            summary.total == ZonesAssigned(summary.layers) &&
            forall j :: 0 <= j < |summary.layers| ==>
              |summary.layers[j].zone| == |summary.layers[j].rows| &&
              forall k :: 0 <= k < |summary.layers[j].zone| ==>
                summary.layers[j].zone[k] == NoZone ||
                exists z :: 0 <= z < |zones| && zones[z].name == summary.layers[j].zone[k]
  {
    var zones := ZoneRows(zonesDoc, parse).value;
    var layers := LayersSpec(fileNames, docOf).value;
    var f := EnrichFn(zones, parse, contains);
    var enriched := FilterMap(layers, f).value;
    FilterMapKeepsAll(layers, f);
    forall j | 0 <= j < |layers|
      ensures enriched[j].rows == layers[j].1 && ZoneColumn(layers[j].1, zones, parse, contains) == Success(enriched[j].zone)
    {
      assert f(layers[j]) == Enrich(zones, parse, contains, layers[j]);
    }
    forall j | 0 <= j < |layers|
      ensures |enriched[j].zone| == |layers[j].1|
    {
      ZoneColumnSpec(layers[j].1, zones, parse, contains);
    }
    TotalRowsIsZonesAssigned(layers, enriched);
  }

  /** A folder without any `name` under it makes both parsers fail. */
  lemma UnnamedFolderFailsBothParsers(doc: Document, i: nat, parse: NumberParser)
    requires i < |doc.folders|
    requires doc.folders[i].name.None?
    requires forall j :: 0 <= j < |doc.folders[i].placemarks| ==> doc.folders[i].placemarks[j].name.None?
    ensures PointRows(doc).Failure?
    ensures ZoneRows(doc, parse).Failure?
  {
    CollectIsFlat(doc.folders, PointRowOf);
    CollectIsFlat(doc.folders, ZoneRowFn(parse));
  }

  /** The name and rows of every layer, read from its frame. */
  ghost function Snapshot(layers: Dict<PointFrame>): (snapshot: Dict<seq<PointRow>>)
    reads set j | 0 <= j < |layers| :: layers[j].1
    ensures |snapshot| == |layers|
    ensures forall j :: 0 <= j < |layers| ==> snapshot[j] == (layers[j].0, layers[j].1.rows)
  {
    seq(|layers|, j requires 0 <= j < |layers| reads if 0 <= j < |layers| then {layers[j].1} else {} => (layers[j].0, layers[j].1.rows))
  }

  /** Items with the same keys at the same places have the key at the same place. */
  lemma {:induction false} KeyIndexSameKeys<V, W>(a: Dict<V>, b: Dict<W>, key: string)
    requires |a| == |b|
    requires forall j :: 0 <= j < |a| ==> a[j].0 == b[j].0
    ensures KeyIndex(a, key) == KeyIndex(b, key)
    decreases |a|
  {
    if a != [] {
      KeyIndexSameKeys(a[..|a| - 1], b[..|b| - 1], key);
    }
  }

  /** Assigning a frame to a key and then reading the rows is reading the rows and then
      assigning them. */
  lemma PutSnapshot(layers: Dict<PointFrame>, name: string, frame: PointFrame)
    ensures Snapshot(Put(layers, name, frame)) == Put(Snapshot(layers), name, frame.rows)
  {
    KeyIndexSameKeys(layers, Snapshot(layers), name);
  }

  /** Assigning a frame found under no key: the rows read afterwards are the rows
      assigned, keys and frames stay distinct, and every frame is the new one or
      one that was already at that place. */
  lemma PutLayer(layers: Dict<PointFrame>, name: string, frame: PointFrame)
    requires DistinctKeys(layers) && DistinctFrames(layers)
    requires forall j :: 0 <= j < |layers| ==> layers[j].1 != frame
    ensures Snapshot(Put(layers, name, frame)) == Put(Snapshot(layers), name, frame.rows)
    ensures DistinctKeys(Put(layers, name, frame)) && DistinctFrames(Put(layers, name, frame))
    ensures forall j :: 0 <= j < |Put(layers, name, frame)| ==>
              Put(layers, name, frame)[j].1 == frame || (j < |layers| && Put(layers, name, frame)[j] == layers[j])
  {
    PutSnapshot(layers, name, frame);
    PutSpec(layers, name, frame);
  }

  /** No frame appears under two keys. */
  predicate DistinctFrames(layers: Dict<PointFrame>)
  {
    forall j, k :: 0 <= j < k < |layers| ==> layers[j].1 != layers[k].1
  }

  /** The body of the loop of `_get_layers` for a `.kml` file: parse it into a new
      frame and store the frame under the layer name. */
  method AddLayer(layers: Dict<PointFrame>, fileName: string, docOf: string -> Document)
    returns (res: Result<Dict<PointFrame>, ParseError>)
    requires DistinctKeys(layers) && DistinctFrames(layers)
    ensures res.Success? <==> PointRows(docOf(fileName)).Success?
    ensures res.Failure? ==> res.error == PointRows(docOf(fileName)).error
    ensures res.Success? ==>
              Snapshot(res.value) == Put(old(Snapshot(layers)), LayerName(fileName), PointRows(docOf(fileName)).value)
    ensures res.Success? ==> DistinctKeys(res.value) && DistinctFrames(res.value)
    ensures res.Success? ==>
              forall j :: 0 <= j < |res.value| ==> fresh(res.value[j].1) || (j < |layers| && res.value[j] == layers[j])
  {
    var layerName := LayerName(fileName);
    var layer := KmlPointsToFrame(docOf(fileName));
    if layer.Failure? {
      return Failure(layer.error);
    }
    PutLayer(layers, layerName, layer.value);
    return Success(Put(layers, layerName, layer.value));
  }

  /** One turn of the loop of `_get_layers`: file `fileNames[i]` is skipped unless
      it is a `.kml` file, and otherwise parsed and stored under its layer name. */
  method ScanFile(layers: Dict<PointFrame>, fileNames: seq<string>, i: nat, docOf: string -> Document)
    returns (res: Result<Dict<PointFrame>, ParseError>)
    requires i < |fileNames|
    requires LayersSpec(fileNames[..i], docOf) == Success(Snapshot(layers))
    requires DistinctKeys(layers) && DistinctFrames(layers)
    ensures res.Success? <==> LayersSpec(fileNames[..i + 1], docOf).Success?
    ensures res.Failure? ==> res.error == LayersSpec(fileNames[..i + 1], docOf).error
    ensures res.Success? ==> Snapshot(res.value) == LayersSpec(fileNames[..i + 1], docOf).value
    ensures res.Success? ==> DistinctKeys(res.value) && DistinctFrames(res.value)
    ensures res.Success? ==>
              forall j :: 0 <= j < |res.value| ==> fresh(res.value[j].1) || (j < |layers| && res.value[j] == layers[j])
  {
    LayersSpecStep(fileNames, i, docOf);
    if !IsKmlFileName(fileNames[i]) {
      return Success(layers);
    }
    res := AddLayer(layers, fileNames[i], docOf);
  }

  /** `_get_layers` over the listed file names. */
  method GetLayers(fileNames: seq<string>, docOf: string -> Document) returns (res: Result<Dict<PointFrame>, ParseError>)
    ensures res.Success? <==> LayersSpec(fileNames, docOf).Success?
    ensures res.Failure? ==> res.error == LayersSpec(fileNames, docOf).error
    ensures res.Success? ==> Snapshot(res.value) == LayersSpec(fileNames, docOf).value
    ensures res.Success? ==> DistinctFrames(res.value)
    ensures res.Success? ==> forall j :: 0 <= j < |res.value| ==> fresh(res.value[j].1)
  {
    var layers: Dict<PointFrame> := [];
    var i := 0;
    while i < |fileNames|
      invariant 0 <= i <= |fileNames|
      invariant LayersSpec(fileNames[..i], docOf) == Success(Snapshot(layers))
      invariant DistinctKeys(layers) && DistinctFrames(layers)
      invariant forall j :: 0 <= j < |layers| ==> fresh(layers[j].1)
    {
      var next := ScanFile(layers, fileNames, i, docOf);
      if next.Failure? {
        BuildDictPrefixFailure(fileNames, i + 1, IsKmlFileName, LayerName, LayerRows(docOf));
        return Failure(next.error);
      }
      layers := next.value;
      i := i + 1;
    }
    assert fileNames[..i] == fileNames;
    return Success(layers);
  }

  /** When every layer before `i` gets its Zone column, a layer `i` whose column raises
      gives the error of the whole loop of `main`. */
  lemma EnrichStep(spec: Dict<seq<PointRow>>, i: nat, zones: seq<Zone>, parse: NumberParser, contains: Containment)
    requires i < |spec|
    requires forall j :: 0 <= j < i ==> ZoneColumn(spec[j].1, zones, parse, contains).Success?
    ensures ZoneColumn(spec[i].1, zones, parse, contains).Failure? ==>
              FilterMap(spec, EnrichFn(zones, parse, contains)) == Failure(ZoneColumn(spec[i].1, zones, parse, contains).error)
    ensures TotalRows(spec[..i + 1]) == TotalRows(spec[..i]) + |spec[i].1|
  {
    var f := EnrichFn(zones, parse, contains);
    var done := spec[..i];
    forall j | 0 <= j < |done|
      ensures f(done[j]).Success?
    {
      assert f(done[j]) == Enrich(zones, parse, contains, spec[j]);
    }
    FilterMapSpec(done, f);
    FilterMapStep(spec, i, f);
    assert f(spec[i]) == Enrich(zones, parse, contains, spec[i]);
    if ZoneColumn(spec[i].1, zones, parse, contains).Failure? {
      FilterMapPrefixFailure(spec, i + 1, f);
    }
    assert spec[..i + 1][..i] == spec[..i];
  }

  /** When every layer gets its Zone column, the loop of `main` succeeds. */
  lemma EnrichAll(spec: Dict<seq<PointRow>>, zones: seq<Zone>, parse: NumberParser, contains: Containment)
    requires forall j :: 0 <= j < |spec| ==> ZoneColumn(spec[j].1, zones, parse, contains).Success?
    ensures FilterMap(spec, EnrichFn(zones, parse, contains)).Success?
  {
    var f := EnrichFn(zones, parse, contains);
    forall j | 0 <= j < |spec|
      ensures f(spec[j]).Success?
    {
      assert f(spec[j]) == Enrich(zones, parse, contains, spec[j]);
    }
    FilterMapSpec(spec, f);
  }

  /** The loop of `main` over the layers, in dict order: each layer gets its Zone
      column and its row count is added to the total; the first error stops it. */
  method ClassifyLayers(layers: Dict<PointFrame>, ghost spec: Dict<seq<PointRow>>,
                        zones: seq<Zone>, parse: NumberParser, contains: Containment)
    returns (res: Result<nat, ParseError>)
    requires DistinctFrames(layers)
    requires Snapshot(layers) == spec
    modifies (set j | 0 <= j < |layers| :: layers[j].1)`zone
    ensures res.Success? <==> FilterMap(spec, EnrichFn(zones, parse, contains)).Success?
    ensures res.Failure? ==> res.error == FilterMap(spec, EnrichFn(zones, parse, contains)).error
    ensures res.Success? ==>
              res.value == TotalRows(spec) &&
              forall j :: 0 <= j < |layers| ==>
                ZoneColumn(spec[j].1, zones, parse, contains).Success? &&
                layers[j].1.zone == Some(ZoneColumn(spec[j].1, zones, parse, contains).value)
  {
    var total := 0;
    var i := 0;
    while i < |layers|
      invariant 0 <= i <= |layers|
      invariant total == TotalRows(spec[..i])
      invariant forall j :: 0 <= j < i ==> ZoneColumn(spec[j].1, zones, parse, contains).Success?
      invariant forall j :: 0 <= j < i ==> layers[j].1.zone == Some(ZoneColumn(spec[j].1, zones, parse, contains).value)
    {
      var layer := layers[i].1;
      EnrichStep(spec, i, zones, parse, contains);
      var outcome := CompleteLayerInfo(layer, zones, parse, contains);
      if outcome.Fail? {
        return Failure(outcome.error);
      }
      assert ZoneColumn(spec[i].1, zones, parse, contains).Success?;
      total := total + |layer.rows|;
      i := i + 1;
    }
    assert spec[..i] == spec;
    EnrichAll(spec, zones, parse, contains);
    return Success(total);
  }

  /** What `main` leaves behind: the classified layers and the printed total. */
  datatype RunReport = RunReport(layers: Dict<PointFrame>, total: nat)

  /** `main`, with the directory listing, the file reading and parsing, the number
      parser and the containment test given as parameters. */
  method Run(zonesDoc: Document, fileNames: seq<string>, docOf: string -> Document,
             parse: NumberParser, contains: Containment) returns (res: Result<RunReport, ParseError>)
    ensures res.Success? <==> RunSpec(zonesDoc, fileNames, docOf, parse, contains).Success?
    ensures res.Failure? ==> res.error == RunSpec(zonesDoc, fileNames, docOf, parse, contains).error
    ensures res.Success? ==>
              var summary := RunSpec(zonesDoc, fileNames, docOf, parse, contains).value;
              res.value.total == summary.total &&
              |res.value.layers| == |summary.layers| &&
              forall j :: 0 <= j < |summary.layers| ==>
                res.value.layers[j].0 == summary.layers[j].name &&
                res.value.layers[j].1.rows == summary.layers[j].rows &&
                res.value.layers[j].1.zone == Some(summary.layers[j].zone)
  {
    var zones :- KmlPolysToZones(zonesDoc, parse);
    var layers :- GetLayers(fileNames, docOf);
    ghost var spec := Snapshot(layers);
    var total :- ClassifyLayers(layers, spec, zones, parse, contains);
    ghost var f := EnrichFn(zones, parse, contains);
    FilterMapKeepsAll(spec, f);
    forall j | 0 <= j < |spec|
      ensures FilterMap(spec, f).value[j] ==
                EnrichedLayer(spec[j].0, spec[j].1, ZoneColumn(spec[j].1, zones, parse, contains).value)
    {
      assert f(spec[j]) == Enrich(zones, parse, contains, spec[j]);
    }
    return Success(RunReport(layers, total));
  }
}
