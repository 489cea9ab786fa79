/**
 * The AtoN page: the GeoJSON feature collection drawn from the selected aids
 * to navigation, the ordering of its features, and the search filter with its
 * request parameters. Geometry types and the shape of coordinates follow
 * sections 3.1.2 to 3.1.6 of RFC 7946. HTTP calls, the map and the UI are
 * outside the model.
 */
module Atons {
  import opened Wrappers
  import opened Sequences
  import opened Strings

  datatype Pos = Pos(lon: real, lat: real)

  /** An AtoN as far as the features use it: its uid (as `getAtonUid` gives it) and position */
  datatype Aton = Aton(uid: string, lon: real, lat: real)

  /** The `coordinates` member of a geometry, by nesting depth */
  datatype Coords = NoCoords | Position(p: Pos) | Positions(ps: seq<Pos>) | Rings(rings: seq<seq<Pos>>)

  /** A feature: its geometry type, the AtoNs it is drawn from, its validity flag and coordinates */
  datatype Feature = Feature(geomType: string, atons: seq<Aton>, valid: bool, coordinates: Coords)

  function PosOf(a: Aton): Pos {
    Pos(a.lon, a.lat)
  }

  /** The number of AtoNs each geometry type needs; any other type is never valid. */
  predicate ValidGeometry(geomType: string, atonNo: nat) {
    || (geomType == "Point" && atonNo == 1)
    || (geomType == "MultiPoint" && atonNo >= 1)
    || (geomType == "LineString" && atonNo > 1)
    || (geomType == "Polygon" && atonNo > 2)
  }

  /** The positions of the AtoNs, in list order */
  function PositionsOf(atons: seq<Aton>): (r: seq<Pos>)
    ensures |r| == |atons| && forall k :: 0 <= k < |atons| ==> r[k] == PosOf(atons[k])
  {
    seq(|atons|, k requires 0 <= k < |atons| => PosOf(atons[k]))
  }

  /** The coordinates a feature gets from its AtoNs; an unknown type keeps its coordinates. */
  function CoordsOf(f: Feature): Coords
    requires |f.atons| > 0
  {
    if f.geomType == "Point" then Position(PosOf(f.atons[0]))
    else if f.geomType == "MultiPoint" || f.geomType == "LineString" then Positions(PositionsOf(f.atons))
    else if f.geomType == "Polygon" then Rings([PositionsOf(f.atons) + [PosOf(f.atons[0])]])
    else f.coordinates
  }

  /** A feature with its validity and coordinates recomputed */
  function Refreshed(f: Feature): Feature
    requires |f.atons| > 0
  {
    f.(valid := ValidGeometry(f.geomType, |f.atons|), coordinates := CoordsOf(f))
  }

  /** The `$.grep` keeping the features that still have AtoNs, in order */
  function NonEmpty(fs: seq<Feature>): (r: seq<Feature>)
    ensures |r| <= |fs|
    ensures forall k :: 0 <= k < |r| ==> |r[k].atons| > 0
    ensures forall f :: f in r <==> f in fs && |f.atons| > 0
  {
    if |fs| == 0 then []
    else
      var init := NonEmpty(fs[..|fs| - 1]);
      assert fs == fs[..|fs| - 1] + [fs[|fs| - 1]];
      if |fs[|fs| - 1].atons| > 0 then init + [fs[|fs| - 1]] else init
  }

  /** What `updateFeatureCollectionCoords` makes of a list of features */
  function CoordsUpdated(fs: seq<Feature>): (r: seq<Feature>)
    ensures |r| == |NonEmpty(fs)|
    ensures forall k :: 0 <= k < |r| ==> r[k] == Refreshed(NonEmpty(fs)[k])
  {
    var kept := NonEmpty(fs);
    seq(|kept|, k requires 0 <= k < |kept| => Refreshed(kept[k]))
  }

  /**
   * A feature drawn from its AtoNs: not empty, flagged valid exactly when it
   * has enough AtoNs for its type, and with the AtoNs' positions as its
   * coordinates: one for a Point, all in order for a MultiPoint or LineString,
   * and for a Polygon a single ring of all of them closed by the first again.
   */
  predicate Drawn(f: Feature) {
    && |f.atons| > 0
    && f.valid == ValidGeometry(f.geomType, |f.atons|)
    && (f.geomType == "Point" ==> f.coordinates == Position(PosOf(f.atons[0])))
    && (f.geomType == "MultiPoint" || f.geomType == "LineString" ==>
          f.coordinates == Positions(PositionsOf(f.atons)))
    && (f.geomType == "Polygon" ==>
          f.coordinates.Rings? && |f.coordinates.rings| == 1
          && |f.coordinates.rings[0]| == |f.atons| + 1
          && f.coordinates.rings[0][|f.atons|] == f.coordinates.rings[0][0]
          && f.coordinates.rings[0][..|f.atons|] == PositionsOf(f.atons))
  }

  lemma RefreshedDrawn(f: Feature)
    requires |f.atons| > 0
    ensures Drawn(Refreshed(f))
  {
    if f.geomType == "Polygon" {
      var ring := PositionsOf(f.atons) + [PosOf(f.atons[0])];
      assert ring[..|f.atons|] == PositionsOf(f.atons);
    }
  }

  /** Every feature left after the update is drawn from its AtoNs. */
  lemma CoordsUpdatedShape(fs: seq<Feature>)
    ensures forall f :: f in CoordsUpdated(fs) ==> Drawn(f)
  {
    forall f | f in CoordsUpdated(fs) ensures Drawn(f) {
      var k :| 0 <= k < |CoordsUpdated(fs)| && CoordsUpdated(fs)[k] == f;
      RefreshedDrawn(NonEmpty(fs)[k]);
    }
  }

  /**
   * The coordinates RFC 7946 asks of each geometry type: a LineString two or
   * more positions (section 3.1.4), a Polygon a closed linear ring of four or
   * more positions (section 3.1.6).
   */
  predicate GeoJsonShaped(f: Feature) {
    && (f.geomType == "Point" ==> f.coordinates.Position?)
    && (f.geomType == "MultiPoint" ==> f.coordinates.Positions? && |f.coordinates.ps| >= 1)
    && (f.geomType == "LineString" ==> f.coordinates.Positions? && |f.coordinates.ps| >= 2)
    && (f.geomType == "Polygon" ==>
          f.coordinates.Rings? && |f.coordinates.rings| == 1 && |f.coordinates.rings[0]| >= 4
          && f.coordinates.rings[0][0] == f.coordinates.rings[0][|f.coordinates.rings[0]| - 1])
  }

  /** Every feature the update flags valid meets RFC 7946. */
  lemma ValidFeaturesAreGeoJson(fs: seq<Feature>)
    ensures forall f :: f in CoordsUpdated(fs) && f.valid ==> GeoJsonShaped(f)
  {
    CoordsUpdatedShape(fs);
  }

  /** Updating twice is updating once. */
  lemma CoordsUpdatedIdempotent(fs: seq<Feature>)
    ensures CoordsUpdated(CoordsUpdated(fs)) == CoordsUpdated(fs)
  {
    var once := CoordsUpdated(fs);
    NonEmptyKeepsAll(once);
    forall k | 0 <= k < |once| ensures Refreshed(once[k]) == once[k] {
      RefreshTwice(NonEmpty(fs)[k]);
    }
    var twice := CoordsUpdated(once);
    assert |twice| == |once|;
    assert forall k :: 0 <= k < |once| ==> twice[k] == Refreshed(once[k]);
  }

  lemma RefreshTwice(f: Feature)
    requires |f.atons| > 0
    ensures Refreshed(Refreshed(f)) == Refreshed(f)
  {
    if f.geomType == "Polygon" {
      assert PositionsOf(f.atons)[0] == PosOf(f.atons[0]);
    }
  }

  lemma {:induction false} NonEmptyKeepsAll(fs: seq<Feature>)
    requires forall k :: 0 <= k < |fs| ==> |fs[k].atons| > 0
    ensures NonEmpty(fs) == fs
  {
    if |fs| > 0 {
      NonEmptyKeepsAll(fs[..|fs| - 1]);
      assert fs == fs[..|fs| - 1] + [fs[|fs| - 1]];
    }
  }

  /** `swapElements`: both indices in bounds swaps the two elements, otherwise nothing changes */
  function Swapped<T>(s: seq<T>, i: int, j: int): (r: seq<T>)
    ensures |r| == |s|
    ensures 0 <= i < |s| && 0 <= j < |s| ==>
      r[i] == s[j] && r[j] == s[i] && forall k :: 0 <= k < |s| && k != i && k != j ==> r[k] == s[k]
    ensures !(0 <= i < |s| && 0 <= j < |s|) ==> r == s
    ensures multiset(r) == multiset(s)
  {
    if 0 <= i < |s| && 0 <= j < |s| then s[i := s[j]][j := s[i]] else s
  }

  /** Swapping the same two positions again restores the sequence. */
  lemma SwapTwice<T>(s: seq<T>, i: int, j: int)
    ensures Swapped(Swapped(s, i, j), i, j) == s
  {
  }

  method SwapElements<T>(arr: array<T>, index1: int, index2: int)
    modifies arr
    ensures arr[..] == Swapped(old(arr[..]), index1, index2)
  {
    if 0 <= index1 < arr.Length && 0 <= index2 < arr.Length {
      var tmp := arr[index1];
      arr[index1] := arr[index2];
      arr[index2] := tmp;
    }
  }

  /** `moveFeatureUp` */
  function MovedUp(fs: seq<Feature>, f: Feature): seq<Feature> {
    var index := FirstIndex(fs, f);
    if index != -1 then Swapped(fs, index, index - 1) else fs
  }

  /** `moveFeatureDown` */
  function MovedDown(fs: seq<Feature>, f: Feature): seq<Feature> {
    var index := FirstIndex(fs, f);
    if index != -1 then Swapped(fs, index, index + 1) else fs
  }

  /** Moving a feature not in the list, the first one up or the last one down does nothing. */
  lemma MoveNoOps(fs: seq<Feature>, f: Feature)
    ensures f !in fs ==> MovedUp(fs, f) == fs && MovedDown(fs, f) == fs
    ensures |fs| > 0 && fs[0] == f ==> MovedUp(fs, f) == fs
    ensures FirstIndex(fs, f) == |fs| - 1 ==> MovedDown(fs, f) == fs
    ensures multiset(MovedUp(fs, f)) == multiset(fs) && multiset(MovedDown(fs, f)) == multiset(fs)
  {
  }

  /** Moving a feature up, then down again, restores the order. */
  lemma MoveUpThenDown(fs: seq<Feature>, f: Feature)
    requires FirstIndex(fs, f) > 0
    ensures MovedDown(MovedUp(fs, f), f) == fs
  {
    var i := FirstIndex(fs, f);
    var up := Swapped(fs, i, i - 1);
    assert up == MovedUp(fs, f);
    assert up[i - 1] == f;
    assert up[..i - 1] == fs[..i - 1];
    assert f !in fs[..i - 1] by {
      assert fs[..i - 1] == fs[..i][..i - 1];
    }
    FirstIndexAt(up, f, i - 1);
    assert MovedDown(up, f) == Swapped(up, i - 1, i);
    SwapSymmetric(up, i - 1, i);
    SwapTwice(fs, i, i - 1);
  }

  /** Which of the two positions is named first does not matter. */
  lemma SwapSymmetric<T>(s: seq<T>, i: int, j: int)
    ensures Swapped(s, i, j) == Swapped(s, j, i)
  {
    if 0 <= i < |s| && 0 <= j < |s| {
      assert forall k :: 0 <= k < |s| ==> Swapped(s, i, j)[k] == Swapped(s, j, i)[k];
    }
  }

  /** `$.inArray` finds an element at the first position holding it. */
  lemma FirstIndexAt<T>(s: seq<T>, x: T, i: nat)
    requires i < |s| && s[i] == x && x !in s[..i]
    ensures FirstIndex(s, x) == i
  {
    assert x in s;
  }

  /** The filters of the AtoN search */
  datatype FilterName = MapFilter | TextFilter | ChartFilter | AreaFilter

  const FilterNames: seq<FilterName> := [TextFilter, ChartFilter, AreaFilter]

  /** The `$.grep` of the features' AtoNs against the selection */
  function SelectedAtons(atons: seq<Aton>, selection: map<string, Aton>): (r: seq<Aton>)
    ensures forall a :: a in r <==> a in atons && a.uid in selection
  {
    if |atons| == 0 then []
    else
      var init := SelectedAtons(atons[..|atons| - 1], selection);
      var last := atons[|atons| - 1];
      assert atons == atons[..|atons| - 1] + [last];
      if last.uid in selection then init + [last] else init
  }

  function Pruned(fs: seq<Feature>, selection: map<string, Aton>): (r: seq<Feature>)
    ensures |r| == |fs|
    ensures forall k :: 0 <= k < |fs| ==> r[k] == fs[k].(atons := SelectedAtons(fs[k].atons, selection))
  {
    seq(|fs|, k requires 0 <= k < |fs| => fs[k].(atons := SelectedAtons(fs[k].atons, selection)))
  }

  /** The uids of all AtoNs of the features */
  function FeatureUids(fs: seq<Feature>): (r: set<string>)
    ensures forall u :: u in r <==> exists k, m :: 0 <= k < |fs| && 0 <= m < |fs[k].atons| && fs[k].atons[m].uid == u
  {
    set k, m | 0 <= k < |fs| && 0 <= m < |fs[k].atons| :: fs[k].atons[m].uid
  }

  /** The selected uids no feature has yet, in selection order */
  function NewUids(keys: seq<string>, known: set<string>): (r: seq<string>)
    ensures forall u :: u in r <==> u in keys && u !in known
  {
    if |keys| == 0 then []
    else
      var init := NewUids(keys[..|keys| - 1], known);
      var last := keys[|keys| - 1];
      assert keys == keys[..|keys| - 1] + [last];
      if last !in known then init + [last] else init
  }

  /** One Point feature per new uid, holding the selected AtoN */
  function NewFeatures(uids: seq<string>, selection: map<string, Aton>): (r: seq<Feature>)
    requires forall u :: u in uids ==> u in selection
    ensures |r| == |uids|
    ensures forall k :: 0 <= k < |uids| ==> r[k] == Feature("Point", [selection[uids[k]]], false, Positions([]))
  {
    seq(|uids|, k requires 0 <= k < |uids| => Feature("Point", [selection[uids[k]]], false, Positions([])))
  }

  /** What `updateFeatureCollection` makes of the features, given the selection's keys and AtoNs */
  function SelectionUpdated(fs: seq<Feature>, keys: seq<string>, selection: map<string, Aton>): seq<Feature>
    requires forall u :: u in keys ==> u in selection
  {
    var pruned := Pruned(fs, selection);
    CoordsUpdated(pruned + NewFeatures(NewUids(keys, FeatureUids(pruned)), selection))
  }

  /** Whether some feature of `fs` is drawn from `a` */
  predicate AtonDrawn(fs: seq<Feature>, a: Aton) {
    exists k :: 0 <= k < |fs| && a in fs[k].atons
  }

  /** Dropping empty features and recomputing coordinates keeps every AtoN drawn. */
  lemma CoordsUpdatedKeepsAtons(fs: seq<Feature>)
    ensures forall a :: AtonDrawn(CoordsUpdated(fs), a) <==> AtonDrawn(fs, a)
  {
    var r := CoordsUpdated(fs);
    var kept := NonEmpty(fs);
    forall a ensures AtonDrawn(r, a) <==> AtonDrawn(fs, a) {
      if AtonDrawn(r, a) {
        var k :| 0 <= k < |r| && a in r[k].atons;
        assert r[k].atons == kept[k].atons && kept[k] in kept;
        var j :| 0 <= j < |fs| && fs[j] == kept[k];
      }
      if AtonDrawn(fs, a) {
        var j :| 0 <= j < |fs| && a in fs[j].atons;
        assert fs[j] in kept;
        var k :| 0 <= k < |kept| && kept[k] == fs[j];
        assert a in r[k].atons;
      }
    }
  }

  lemma AtonDrawnAppend(x: seq<Feature>, y: seq<Feature>)
    ensures forall a :: AtonDrawn(x + y, a) <==> AtonDrawn(x, a) || AtonDrawn(y, a)
  {
    forall a ensures AtonDrawn(x + y, a) <==> AtonDrawn(x, a) || AtonDrawn(y, a) {
      if AtonDrawn(x + y, a) {
        var k :| 0 <= k < |x + y| && a in (x + y)[k].atons;
        if k >= |x| {
          assert (x + y)[k] == y[k - |x|];
        }
      }
      if AtonDrawn(y, a) {
        var k :| 0 <= k < |y| && a in y[k].atons;
        assert (x + y)[k + |x|] == y[k];
      }
      if AtonDrawn(x, a) {
        var k :| 0 <= k < |x| && a in x[k].atons;
        assert (x + y)[k] == x[k];
      }
    }
  }

  /**
   * With every AtoN of the selection stored under its own uid: after the
   * update every AtoN drawn is selected, and every selected uid is drawn.
   */
  lemma SelectionUpdatedCoversSelection(fs: seq<Feature>, keys: seq<string>, selection: map<string, Aton>)
    requires forall u :: u in keys ==> u in selection
    requires forall u :: u in selection ==> selection[u].uid == u
    ensures forall a :: AtonDrawn(SelectionUpdated(fs, keys, selection), a) ==> a.uid in selection
    ensures forall u :: u in keys ==> exists a :: AtonDrawn(SelectionUpdated(fs, keys, selection), a) && a.uid == u
  {
    var pruned := Pruned(fs, selection);
    var uids := NewUids(keys, FeatureUids(pruned));
    var added := NewFeatures(uids, selection);
    CoordsUpdatedKeepsAtons(pruned + added);
    AtonDrawnAppend(pruned, added);
    PrunedSelected(fs, selection);
    AddedSelected(uids, selection);
    KeysDrawn(pruned, keys, selection);
  }

  lemma PrunedSelected(fs: seq<Feature>, selection: map<string, Aton>)
    ensures forall a :: AtonDrawn(Pruned(fs, selection), a) ==> a.uid in selection
  {
    var pruned := Pruned(fs, selection);
    forall a | AtonDrawn(pruned, a) ensures a.uid in selection {
      var k :| 0 <= k < |pruned| && a in pruned[k].atons;
    }
  }

  lemma AddedSelected(uids: seq<string>, selection: map<string, Aton>)
    requires forall u :: u in uids ==> u in selection
    requires forall u :: u in selection ==> selection[u].uid == u
    ensures forall a :: AtonDrawn(NewFeatures(uids, selection), a) ==> a.uid in selection
  {
    var added := NewFeatures(uids, selection);
    forall a | AtonDrawn(added, a) ensures a.uid in selection {
      var k :| 0 <= k < |added| && a in added[k].atons;
      assert a == selection[uids[k]];
    }
  }

  lemma KeysDrawn(pruned: seq<Feature>, keys: seq<string>, selection: map<string, Aton>)
    requires forall u :: u in keys ==> u in selection
    requires forall u :: u in selection ==> selection[u].uid == u
    ensures var added := NewFeatures(NewUids(keys, FeatureUids(pruned)), selection);
      forall u :: u in keys ==> exists a :: AtonDrawn(pruned + added, a) && a.uid == u
  {
    var uids := NewUids(keys, FeatureUids(pruned));
    var added := NewFeatures(uids, selection);
    AtonDrawnAppend(pruned, added);
    forall u | u in keys ensures exists a :: AtonDrawn(pruned + added, a) && a.uid == u {
      if u in FeatureUids(pruned) {
        var k, m :| 0 <= k < |pruned| && 0 <= m < |pruned[k].atons| && pruned[k].atons[m].uid == u;
        assert AtonDrawn(pruned, pruned[k].atons[m]);
      } else {
        var j :| 0 <= j < |uids| && uids[j] == u;
        assert selection[u] in added[j].atons;
        assert AtonDrawn(added, selection[u]);
      }
    }
  }

  /** The "&"-led pieces of the request parameters */
  function MapPart(enabled: bool, extent: Option<seq<string>>): string {
    if enabled && extent.Some? && |extent.value| == 4 then
      "&minLon=" + extent.value[0] + "&minLat=" + extent.value[1]
      + "&maxLon=" + extent.value[2] + "&maxLat=" + extent.value[3]
    else ""
  }

  function ChartParts(chartNumbers: seq<string>): string {
    if |chartNumbers| == 0 then "" else ChartParts(chartNumbers[..|chartNumbers| - 1]) + ("&chart=" + chartNumbers[|chartNumbers| - 1])
  }

  function AreaParts(areaIds: seq<int>): string {
    if |areaIds| == 0 then "" else AreaParts(areaIds[..|areaIds| - 1]) + ("&area=" + IntToString(areaIds[|areaIds| - 1]))
  }

  /** The limit and the overflow flag, without their leading '&' */
  function LimitTail(maxAtonNo: int): string {
    "maxAtonNo=" + IntToString(maxAtonNo) + "&emptyOnOverflow=true"
  }

  function LimitPart(maxAtonNo: int): string {
    "&" + LimitTail(maxAtonNo)
  }

  /** Empty, or "&" followed by the first letter of a parameter name */
  predicate Led(s: string) {
    s == "" || (|s| >= 2 && s[0] == '&' && s[1] != '&')
  }

  lemma LedAppend(a: string, b: string)
    requires Led(a) && Led(b)
    ensures Led(a + b)
  {
    if a == "" {
      assert a + b == b;
    } else {
      assert (a + b)[..2] == a[..2];
    }
  }

  lemma {:induction false} ChartPartsLed(chartNumbers: seq<string>)
    ensures Led(ChartParts(chartNumbers))
  {
    if |chartNumbers| > 0 {
      ChartPartsLed(chartNumbers[..|chartNumbers| - 1]);
      var piece := "&chart=" + chartNumbers[|chartNumbers| - 1];
      assert piece[..2] == "&c";
      LedAppend(ChartParts(chartNumbers[..|chartNumbers| - 1]), piece);
    }
  }

  lemma {:induction false} AreaPartsLed(areaIds: seq<int>)
    ensures Led(AreaParts(areaIds))
  {
    if |areaIds| > 0 {
      AreaPartsLed(areaIds[..|areaIds| - 1]);
      var piece := "&area=" + IntToString(areaIds[|areaIds| - 1]);
      assert piece[..2] == "&a";
      LedAppend(AreaParts(areaIds[..|areaIds| - 1]), piece);
    }
  }

  function TextPart(enabled: bool, query: string, encode: string -> string): string {
    if enabled then "&name=" + encode(query) else ""
  }

  lemma PartsLed(mapEnabled: bool, extent: Option<seq<string>>, textEnabled: bool, query: string, encode: string -> string)
    ensures Led(MapPart(mapEnabled, extent)) && Led(TextPart(textEnabled, query, encode))
  {
    var m := MapPart(mapEnabled, extent);
    if m != "" { assert m[..2] == "&m"; }
    var t := TextPart(textEnabled, query, encode);
    if t != "" { assert t[..2] == "&n"; }
  }

  lemma LimitTailShape(maxAtonNo: int)
    ensures var l := LimitTail(maxAtonNo);
      |l| >= 1 && l[0] == 'm'
  {
    var digits := IntToString(maxAtonNo);
    assert LimitTail(maxAtonNo) == "maxAtonNo=" + (digits + "&emptyOnOverflow=true");
  }

  /**
   * Pieces that are each empty or "&"-led, followed by the limit: with the
   * first '&' skipped, the result does not start with '&' and ends with the
   * limit and the overflow flag.
   */
  lemma ParametersShape(m: string, t: string, c: string, a: string, maxAtonNo: int)
    requires Led(m) && Led(t) && Led(c) && Led(a)
    ensures var all := m + t + c + a + LimitPart(maxAtonNo);
      && |all| >= 2 && all[0] == '&'
      && RequestShaped(all[1..], LimitTail(maxAtonNo))
      && (m == t == c == a == "" ==> all[1..] == LimitTail(maxAtonNo))
  {
    var tail := LimitTail(maxAtonNo);
    LimitTailShape(maxAtonNo);
    LedAppend(m, t);
    LedAppend(m + t, c);
    LedAppend(m + t + c, a);
    LedThenTail(m + t + c + a, tail);
  }

  /** An "&"-led prefix, then '&' and a tail that does not start with '&' */
  lemma LedThenTail(pre: string, tail: string)
    requires Led(pre) && |tail| >= 1 && tail[0] != '&'
    ensures var all := pre + ("&" + tail);
      && |all| >= 2 && all[0] == '&'
      && RequestShaped(all[1..], tail)
      && (pre == "" ==> all[1..] == tail)
  {
    var all := pre + ("&" + tail);
    if pre == "" {
      assert all == "&" + tail;
      assert all[1..] == tail;
    } else {
      assert all[1..] == pre[1..] + "&" + tail;
      ConcatSuffix(pre[1..] + "&", tail);
    }
  }

  /** Text that does not start with '&' and ends with `tail` */
  predicate RequestShaped(p: string, tail: string) {
    |p| >= 1 && p[0] != '&' && |p| >= |tail| && p[|p| - |tail|..] == tail
  }

  lemma ConcatSuffix(x: string, y: string)
    ensures (x + y)[|x + y| - |y|..] == y
  {
  }

  /** The `forEach` appending one "&chart=" piece per chart */
  method AppendCharts(params: string, chartNumbers: seq<string>) returns (r: string)
    ensures r == params + ChartParts(chartNumbers)
  {
    r := params;
    var i := 0;
    while i < |chartNumbers|
      invariant 0 <= i <= |chartNumbers|
      invariant r == params + ChartParts(chartNumbers[..i])
    {
      assert chartNumbers[..i + 1][..i] == chartNumbers[..i];
      AppendAssoc(params, ChartParts(chartNumbers[..i]), "&chart=" + chartNumbers[i]);
      r := r + ("&chart=" + chartNumbers[i]);
      i := i + 1;
    }
    assert chartNumbers[..i] == chartNumbers;
  }

  /** The `forEach` appending one "&area=" piece per area */
  method AppendAreas(params: string, areaIds: seq<int>) returns (r: string)
    ensures r == params + AreaParts(areaIds)
  {
    r := params;
    var i := 0;
    while i < |areaIds|
      invariant 0 <= i <= |areaIds|
      invariant r == params + AreaParts(areaIds[..i])
    {
      assert areaIds[..i + 1][..i] == areaIds[..i];
      AppendAssoc(params, AreaParts(areaIds[..i]), "&area=" + IntToString(areaIds[i]));
      r := r + ("&area=" + IntToString(areaIds[i]));
      i := i + 1;
    }
    assert areaIds[..i] == areaIds;
  }

  /**
   * The search page: the filter state, the feature collection and the limit.
   * Map extent coordinates are held as the text JavaScript prints for them;
   * `encode` stands for `encodeURIComponent`.
   */
  /** The page's filter fields and limit: everything but the feature collection */
  datatype PageFilters = PageFilters(
    mapEnabled: bool, extent: Option<seq<string>>, textEnabled: bool, query: string,
    chartEnabled: bool, charts: seq<string>, areaEnabled: bool, areas: seq<int>,
    maxAtonNo: int)

  class AtonsPage {
    var mapEnabled: bool
    var extent: Option<seq<string>>
    var textEnabled: bool
    var query: string
    var chartEnabled: bool
    var charts: seq<string>
    var areaEnabled: bool
    var areas: seq<int>
    var maxAtonNo: int
    var features: seq<Feature>

    /** The initial scope state */
    constructor ()
      ensures mapEnabled && extent.None? && textEnabled && query == ""
      ensures !chartEnabled && charts == [] && !areaEnabled && areas == []
      ensures maxAtonNo == 1000 && features == []
    {
      mapEnabled, extent := true, None;
      textEnabled, query := true, "";
      chartEnabled, charts := false, [];
      areaEnabled, areas := false, [];
      maxAtonNo := 1000;
      features := [];
    }

    /** The filter fields and the limit, which the feature operations leave alone */
    function Filters(): PageFilters
      reads this
    {
      PageFilters(mapEnabled, extent, textEnabled, query, chartEnabled, charts, areaEnabled, areas, maxAtonNo)
    }

    /** The request parameters before the leading '&' is skipped */
    function AllParameters(encode: string -> string): string
      reads this
    {
      MapPart(mapEnabled, extent)
      + TextPart(textEnabled, query, encode)
      + (if chartEnabled then ChartParts(charts) else "")
      + (if areaEnabled then AreaParts(areas) else "")
      + LimitPart(maxAtonNo)
    }

    /**
     * The request parameters never start with '&', always end with the limit
     * and the overflow flag, and are only those two with every filter off.
     */
    lemma RequestParametersShape(encode: string -> string)
      ensures |AllParameters(encode)| >= 1
      ensures RequestShaped(AllParameters(encode)[1..], LimitTail(maxAtonNo))
      ensures !mapEnabled && !textEnabled && !chartEnabled && !areaEnabled ==>
        AllParameters(encode)[1..] == LimitTail(maxAtonNo)
    {
      var m, t := MapPart(mapEnabled, extent), TextPart(textEnabled, query, encode);
      var c := if chartEnabled then ChartParts(charts) else "";
      var a := if areaEnabled then AreaParts(areas) else "";
      PartsLed(mapEnabled, extent, textEnabled, query, encode);
      ChartPartsLed(charts);
      AreaPartsLed(areas);
      assert AllParameters(encode) == m + t + c + a + LimitPart(maxAtonNo);
      ParametersShape(m, t, c, a, maxAtonNo);
      if !mapEnabled && !textEnabled && !chartEnabled && !areaEnabled {
        assert m == t == c == a == "";
      }
    }

    /** `toRequestFilterParameters` */
    method ToRequestFilterParameters(encode: string -> string) returns (r: string)
      ensures r == AllParameters(encode)[1..]
    {
      var params := MapPart(mapEnabled, extent);
      if textEnabled {
        params := params + ("&name=" + encode(query));
      }
      ghost var expected := MapPart(mapEnabled, extent) + TextPart(textEnabled, query, encode);
      assert params == expected;
      if chartEnabled {
        params := AppendCharts(params, charts);
      }
      expected := expected + (if chartEnabled then ChartParts(charts) else "");
      assert params == expected;
      if areaEnabled {
        params := AppendAreas(params, areas);
      }
      expected := expected + (if areaEnabled then AreaParts(areas) else "");
      assert params == expected;
      params := params + LimitPart(maxAtonNo);
      expected := expected + LimitPart(maxAtonNo);
      assert expected == AllParameters(encode);
      assert |params| >= |LimitPart(maxAtonNo)| > 0;
      r := if |params| > 0 then params[1..] else "";
    }

    /** `clearFilter`: the filter is disabled and its criterion reset; the map filter has no criterion */
    method ClearFilter(name: FilterName)
      modifies this
      ensures features == old(features) && maxAtonNo == old(maxAtonNo) && extent == old(extent)
      ensures mapEnabled == (old(mapEnabled) && name != MapFilter)
      ensures textEnabled == (old(textEnabled) && name != TextFilter)
      ensures chartEnabled == (old(chartEnabled) && name != ChartFilter)
      ensures areaEnabled == (old(areaEnabled) && name != AreaFilter)
      ensures query == (if name == TextFilter then "" else old(query))
      ensures charts == (if name == ChartFilter then [] else old(charts))
      ensures areas == (if name == AreaFilter then [] else old(areas))
    {
      match name
      case MapFilter => mapEnabled := false;
      case TextFilter => textEnabled := false; query := "";
      case ChartFilter => chartEnabled := false; charts := [];
      case AreaFilter => areaEnabled := false; areas := [];
    }

    /** `clearAllFilters`: text, chart and area are cleared; the map filter stays as it is */
    method ClearAllFilters()
      modifies this
      ensures !textEnabled && query == "" && !chartEnabled && charts == [] && !areaEnabled && areas == []
      ensures mapEnabled == old(mapEnabled) && extent == old(extent)
      ensures features == old(features) && maxAtonNo == old(maxAtonNo)
    {
      var i := 0;
      while i < |FilterNames|
        invariant 0 <= i <= |FilterNames|
        invariant mapEnabled == old(mapEnabled) && extent == old(extent)
        invariant features == old(features) && maxAtonNo == old(maxAtonNo)
        invariant i > 0 ==> !textEnabled && query == ""
        invariant i > 1 ==> !chartEnabled && charts == []
        invariant i > 2 ==> !areaEnabled && areas == []
      {
        ClearFilter(FilterNames[i]);
        i := i + 1;
      }
    }

    /** `moveFeatureUp` */
    method MoveFeatureUp(f: Feature)
      modifies this
      ensures features == MovedUp(old(features), f)
      ensures Filters() == old(Filters())
    {
      var index := FirstIndex(features, f);
      if index != -1 {
        var arr := ToArray(features);
        SwapElements(arr, index, index - 1);
        features := arr[..];
      }
    }

    /** `moveFeatureDown` */
    method MoveFeatureDown(f: Feature)
      modifies this
      ensures features == MovedDown(old(features), f)
      ensures Filters() == old(Filters())
    {
      var index := FirstIndex(features, f);
      if index != -1 {
        var arr := ToArray(features);
        SwapElements(arr, index, index + 1);
        features := arr[..];
      }
    }

    /** `updateFeatureCollectionCoords`: drop empty features, then set each one's validity, then its coordinates */
    method UpdateFeatureCollectionCoords()
      modifies this
      ensures features == CoordsUpdated(old(features))
      ensures Filters() == old(Filters())
    {
      var kept := GrepNonEmpty(features);
      kept := SetValidity(kept);
      kept := SetCoordinates(kept);
      features := kept;
    }

    /** `updateFeatureCollection` */
    method UpdateFeatureCollection(keys: seq<string>, selection: map<string, Aton>)
      requires forall u :: u in keys ==> u in selection
      modifies this
      ensures features == SelectionUpdated(old(features), keys, selection)
      ensures Filters() == old(Filters())
    {
      var pruned: seq<Feature> := [];
      var i := 0;
      while i < |features|
        invariant 0 <= i <= |features|
        invariant pruned == Pruned(features[..i], selection)
      {
        pruned := pruned + [features[i].(atons := SelectedAtons(features[i].atons, selection))];
        i := i + 1;
      }
      assert features[..i] == features;
      var known := FeatureUids(pruned);
      var newUids := NewUids(keys, known);
      var added := pruned;
      i := 0;
      while i < |newUids|
        invariant 0 <= i <= |newUids|
        invariant added == pruned + NewFeatures(newUids[..i], selection)
      {
        added := added + [Feature("Point", [selection[newUids[i]]], false, Positions([]))];
        i := i + 1;
      }
      assert newUids[..i] == newUids;
      features := added;
      UpdateFeatureCollectionCoords();
    }
  }

  /** A fresh array holding `s` */
  method ToArray<T>(s: seq<T>) returns (arr: array<T>)
    ensures fresh(arr) && arr[..] == s
  {
    arr := new T[|s|](k requires 0 <= k < |s| => s[k]);
  }

  /** The `$.grep` of the non-empty features */
  method GrepNonEmpty(fs: seq<Feature>) returns (kept: seq<Feature>)
    ensures kept == NonEmpty(fs)
  {
    kept := [];
    var i := 0;
    while i < |fs|
      invariant 0 <= i <= |fs|
      invariant kept == NonEmpty(fs[..i])
    {
      assert fs[..i + 1][..i] == fs[..i];
      if |fs[i].atons| > 0 {
        kept := kept + [fs[i]];
      }
      i := i + 1;
    }
    assert fs[..i] == fs;
  }

  /** The features with their validity flags set */
  function WithValidity(fs: seq<Feature>): (r: seq<Feature>)
    ensures |r| == |fs|
    ensures forall k :: 0 <= k < |fs| ==> r[k] == fs[k].(valid := ValidGeometry(fs[k].geomType, |fs[k].atons|))
  {
    seq(|fs|, k requires 0 <= k < |fs| => fs[k].(valid := ValidGeometry(fs[k].geomType, |fs[k].atons|)))
  }

  /** The loop setting `feature.properties.valid` */
  method SetValidity(fs: seq<Feature>) returns (r: seq<Feature>)
    ensures r == WithValidity(fs)
  {
    r := fs;
    var j := 0;
    while j < |r|
      invariant 0 <= j <= |r| && |r| == |fs|
      invariant forall k :: j <= k < |r| ==> r[k] == fs[k]
      invariant forall k :: 0 <= k < j ==> r[k] == WithValidity(fs)[k]
    {
      r := r[j := r[j].(valid := ValidGeometry(r[j].geomType, |r[j].atons|))];
      j := j + 1;
    }
  }

  /** The loop setting `feature.geometry.coordinates` */
  method SetCoordinates(fs: seq<Feature>) returns (r: seq<Feature>)
    requires forall k :: 0 <= k < |fs| ==> |fs[k].atons| > 0
    ensures |r| == |fs| && forall k :: 0 <= k < |fs| ==> r[k] == fs[k].(coordinates := CoordsOf(fs[k]))
  {
    r := fs;
    var j := 0;
    while j < |r|
      invariant 0 <= j <= |r| && |r| == |fs|
      invariant forall k :: j <= k < |r| ==> r[k] == fs[k]
      invariant forall k :: 0 <= k < j ==> r[k] == fs[k].(coordinates := CoordsOf(fs[k]))
    {
      var coordinates := FeatureCoords(r[j]);
      r := r[j := r[j].(coordinates := coordinates)];
      j := j + 1;
    }
  }

  /** The coordinates of one feature, pushed position by position as the source does */
  method FeatureCoords(f: Feature) returns (c: Coords)
    requires |f.atons| > 0
    ensures c == CoordsOf(f)
  {
    var aton := f.atons[0];
    if f.geomType == "Point" {
      return Position(PosOf(aton));
    } else if f.geomType == "MultiPoint" || f.geomType == "LineString" || f.geomType == "Polygon" {
      var ps: seq<Pos> := [];
      var i := 0;
      while i < |f.atons|
        invariant 0 <= i <= |f.atons|
        invariant ps == PositionsOf(f.atons[..i])
      {
        ps := ps + [PosOf(f.atons[i])];
        i := i + 1;
      }
      assert f.atons[..i] == f.atons;
      if f.geomType == "Polygon" {
        return Rings([ps + [PosOf(aton)]]);
      }
      return Positions(ps);
    }
    return f.coordinates;
  }
}
