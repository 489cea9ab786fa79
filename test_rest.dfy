/**
 * The area and category endpoints of the test REST service. Areas and
 * categories have the same shape (an id, a sort order, localised names and
 * child nodes), so one `Node` type stands for both, and each operation below
 * models the area method and its category twin.
 *
 * A node object's parent pointer is modelled by the lineage it is placed
 * under: `Placed(node, ancestors)` is a node whose parent chain is
 * `ancestors`, root first. Loading the JSON files in `init` is outside the
 * model; the service is given the placed nodes it serves.
 */
module TestRest {
  import opened Wrappers
  import opened Strings
  import opened Sorting

  datatype NodeDesc = NodeDesc(lang: string, name: string)

  /**
   * An area or a category as read from JSON. A null `children` list is held
   * as the empty list: every operation here treats the two alike.
   */
  datatype Node = Node(id: int, sortOrder: real, descs: seq<NodeDesc>, children: seq<Node>)

  /** A node object together with its chain of parents, root first */
  datatype Placed = Placed(node: Node, ancestors: seq<Node>)

  // ---------------------------------------------------------------------
  // Building the lookup

  /** The nodes of a forest in the order the lookup visits them: each node, then its children */
  function FlattenAll(nodes: seq<Node>, ancestors: seq<Node>): seq<Placed>
    decreases nodes
  {
    if |nodes| == 0 then []
    else FlattenAll(nodes[..|nodes| - 1], ancestors) + FlattenOne(nodes[|nodes| - 1], ancestors)
  }

  function FlattenOne(n: Node, ancestors: seq<Node>): seq<Placed>
    decreases n
  {
    [Placed(n, ancestors)] + FlattenAll(n.children, ancestors + [n])
  }

  /** A null list has no nodes. */
  function Flatten(nodes: Option<seq<Node>>, ancestors: seq<Node>): seq<Placed> {
    if nodes.None? then [] else FlattenAll(nodes.value, ancestors)
  }

  /** `lookup.put(id, node)` for each placed node in turn */
  function PutAll(lookup: map<int, Placed>, ps: seq<Placed>): map<int, Placed> {
    if |ps| == 0 then lookup
    else
      var last := ps[|ps| - 1];
      PutAll(lookup, ps[..|ps| - 1])[last.node.id := last]
  }

  lemma {:induction false} PutAllAppend(lookup: map<int, Placed>, a: seq<Placed>, b: seq<Placed>)
    ensures PutAll(lookup, a + b) == PutAll(PutAll(lookup, a), b)
    decreases |b|
  {
    if |b| == 0 {
      assert a + b == a;
    } else {
      assert (a + b)[..|a + b| - 1] == a + b[..|b| - 1];
      PutAllAppend(lookup, a, b[..|b| - 1]);
    }
  }

  /**
   * After the puts, the lookup holds every id it held before and every id
   * visited, and nothing else; a visited id maps to the last node visited with
   * it, other ids keep their entry.
   */
  lemma {:induction false} PutAllContents(lookup: map<int, Placed>, ps: seq<Placed>)
    ensures PutAll(lookup, ps).Keys == lookup.Keys + set p | p in ps :: p.node.id
    ensures forall id :: id in PutAll(lookup, ps) ==> PutAll(lookup, ps)[id] in ps || (id in lookup && PutAll(lookup, ps)[id] == lookup[id])
    ensures forall p :: p in ps ==> PutAll(lookup, ps)[p.node.id].node.id == p.node.id
    decreases |ps|
  {
    if |ps| > 0 {
      var init := ps[..|ps| - 1];
      PutAllContents(lookup, init);
      assert ps == init + [ps[|ps| - 1]];
      forall p | p in ps ensures PutAll(lookup, ps)[p.node.id].node.id == p.node.id {
        if p != ps[|ps| - 1] {
          assert p in init;
        }
      }
    }
  }

  /** Every node the lookup visits is placed under the lineage of the node whose children hold it. */
  lemma {:induction false} FlattenAllParents(nodes: seq<Node>, ancestors: seq<Node>)
    ensures forall p :: p in FlattenAll(nodes, ancestors) ==>
      |p.ancestors| >= |ancestors| && p.ancestors[..|ancestors|] == ancestors
    ensures forall p :: p in FlattenAll(nodes, ancestors) && |p.ancestors| == |ancestors| ==> p.node in nodes
    ensures forall p :: p in FlattenAll(nodes, ancestors) && |p.ancestors| > |ancestors| ==>
      var parent := p.ancestors[|p.ancestors| - 1];
      p.node in parent.children
    decreases nodes
  {
    if |nodes| > 0 {
      var init := nodes[..|nodes| - 1];
      var n := nodes[|nodes| - 1];
      FlattenAllParents(init, ancestors);
      FlattenOneParents(n, ancestors);
      forall p | p in FlattenAll(init, ancestors) && |p.ancestors| == |ancestors| ensures p.node in nodes {
        assert p.node in init;
      }
    }
  }

  lemma {:induction false} FlattenOneParents(n: Node, ancestors: seq<Node>)
    ensures forall p :: p in FlattenOne(n, ancestors) ==>
      |p.ancestors| >= |ancestors| && p.ancestors[..|ancestors|] == ancestors
    ensures forall p :: p in FlattenOne(n, ancestors) && |p.ancestors| == |ancestors| ==> p.node == n
    ensures forall p :: p in FlattenOne(n, ancestors) && |p.ancestors| > |ancestors| ==>
      var parent := p.ancestors[|p.ancestors| - 1];
      p.node in parent.children
    decreases n
  {
    var lineage := ancestors + [n];
    FlattenAllParents(n.children, lineage);
    forall p | p in FlattenAll(n.children, lineage)
      ensures p.ancestors[..|ancestors|] == ancestors
      ensures |p.ancestors| > |ancestors|
      ensures var parent := p.ancestors[|p.ancestors| - 1]; p.node in parent.children
    {
      assert p.ancestors[..|lineage|][..|ancestors|] == ancestors;
      if |p.ancestors| == |lineage| {
        assert p.ancestors[|p.ancestors| - 1] == n;
      }
    }
  }

  /**
   * After loading a forest, every node of it is in the lookup under its id,
   * and every entry is either an old one or a node of the forest whose
   * parent is the node holding it (a root has no parent).
   */
  lemma LookupHoldsForest(lookup: map<int, Placed>, nodes: seq<Node>)
    ensures var ps := FlattenAll(nodes, []);
      var r := PutAll(lookup, ps);
      && (forall p :: p in ps ==> p.node.id in r)
      && (forall id :: id in r && id !in lookup ==> r[id] in ps)
      && (forall id :: id in r && r[id] in ps && r[id].ancestors == [] ==> r[id].node in nodes)
      && (forall id :: id in r && r[id] in ps && r[id].ancestors != [] ==>
            r[id].node in r[id].ancestors[|r[id].ancestors| - 1].children)
  {
    var ps := FlattenAll(nodes, []);
    PutAllContents(lookup, ps);
    FlattenAllParents(nodes, []);
  }

  /**
   * `updateAreaLookup` / `updateCategoryLookup`: every node of the forest,
   * recursively, is put into the lookup by id, each child placed under the
   * node that holds it; a null list changes nothing.
   */
  method UpdateLookup(lookup: map<int, Placed>, nodes: Option<seq<Node>>, ancestors: seq<Node>)
    returns (r: map<int, Placed>)
    ensures r == PutAll(lookup, Flatten(nodes, ancestors))
  {
    r := lookup;
    if nodes.Some? {
      r := PutForest(lookup, nodes.value, ancestors);
    }
  }

  /** The loop of `updateAreaLookup` over a non-null list, recursing into the children of each node */
  method PutForest(lookup: map<int, Placed>, list: seq<Node>, ancestors: seq<Node>)
    returns (r: map<int, Placed>)
    ensures r == PutAll(lookup, FlattenAll(list, ancestors))
    decreases list
  {
    r := lookup;
    var i := 0;
    while i < |list|
      invariant 0 <= i <= |list|
      invariant r == PutAll(lookup, FlattenAll(list[..i], ancestors))
    {
      var a := list[i];
      assert list[..i + 1][..i] == list[..i];
      PutAllAppend(lookup, FlattenAll(list[..i], ancestors), FlattenOne(a, ancestors));
      PutAllAppend(r, [Placed(a, ancestors)], FlattenAll(a.children, ancestors + [a]));
      assert PutAll(r, [Placed(a, ancestors)]) == r[a.id := Placed(a, ancestors)] by {
        assert [Placed(a, ancestors)][..0] == [];
      }
      r := r[a.id := Placed(a, ancestors)];
      r := PutForest(r, a.children, ancestors + [a]);
      i := i + 1;
    }
    assert list[..i] == list;
  }

  // ---------------------------------------------------------------------
  // Copies for the response

  /** A copy made by `parentCopy`: the node's fields and a copy of its parent, and no children */
  datatype NodeCopy = NodeCopy(id: int, sortOrder: real, descs: seq<NodeDesc>, parent: Option<NodeCopy>)

  /** `parentCopy` */
  function ParentCopy(p: Placed): (r: NodeCopy)
    ensures r.id == p.node.id && r.sortOrder == p.node.sortOrder && r.descs == p.node.descs
    ensures r.parent.None? <==> p.ancestors == []
    decreases |p.ancestors|
  {
    var parent := if |p.ancestors| == 0 then None
      else
        var k := |p.ancestors| - 1;
        Some(ParentCopy(Placed(p.ancestors[k], p.ancestors[..k])));
    NodeCopy(p.node.id, p.node.sortOrder, p.node.descs, parent)
  }

  /** The ids along a copy's parent chain, root first, ending with the copy's own id */
  function Lineage(c: NodeCopy): seq<int> {
    (if c.parent.None? then [] else Lineage(c.parent.value)) + [c.id]
  }

  function Ids(nodes: seq<Node>): (r: seq<int>)
    ensures |r| == |nodes| && forall k :: 0 <= k < |nodes| ==> r[k] == nodes[k].id
  {
    seq(|nodes|, k requires 0 <= k < |nodes| => nodes[k].id)
  }

  /** The copy holds the whole parent lineage of the node, in order. */
  lemma {:induction false} ParentCopyLineage(p: Placed)
    ensures Lineage(ParentCopy(p)) == Ids(p.ancestors) + [p.node.id]
    decreases |p.ancestors|
  {
    if |p.ancestors| > 0 {
      var k := |p.ancestors| - 1;
      ParentCopyLineage(Placed(p.ancestors[k], p.ancestors[..k]));
      assert Ids(p.ancestors) == Ids(p.ancestors[..k]) + [p.ancestors[k].id];
    }
  }

  function Copies(ps: seq<Placed>): (r: seq<NodeCopy>)
    ensures |r| == |ps| && forall k :: 0 <= k < |ps| ==> r[k] == ParentCopy(ps[k])
  {
    seq(|ps|, k requires 0 <= k < |ps| => ParentCopy(ps[k]))
  }

  // ---------------------------------------------------------------------
  // Searching

  /** `getDesc(lang)`: the first desc in that language, or null */
  function GetDesc(n: Node, lang: string): (r: Option<NodeDesc>)
    ensures r.None? <==> forall k :: 0 <= k < |n.descs| ==> n.descs[k].lang != lang
    ensures r.Some? ==> r.value.lang == lang
    ensures r.Some? ==> exists k :: 0 <= k < |n.descs| && n.descs[k] == r.value && (forall j :: 0 <= j < k ==> n.descs[j].lang != lang)
    decreases |n.descs|
  {
    if |n.descs| == 0 then None
    else if n.descs[0].lang == lang then Some(n.descs[0])
    else
      var r := GetDesc(n.(descs := n.descs[1..]), lang);
      if r.Some? then
        var k :| 0 <= k < |n.descs| - 1 && n.descs[1..][k] == r.value
          && (forall j :: 0 <= j < k ==> n.descs[1..][j].lang != lang);
        assert n.descs[k + 1] == r.value;
        r
      else r
  }

  /** The search filter: an empty name matches all, otherwise the name in `lang` must contain it, ignoring case */
  predicate NameMatches(p: Placed, lang: string, name: string) {
    name == "" || (GetDesc(p.node, lang).Some? && Contains(ToLower(GetDesc(p.node, lang).value.name), ToLower(name)))
  }

  function Matching(ps: seq<Placed>, lang: string, name: string): (r: seq<Placed>)
    ensures forall p :: p in r <==> p in ps && NameMatches(p, lang, name)
    ensures |r| <= |ps|
  {
    if |ps| == 0 then []
    else
      var last := ps[|ps| - 1];
      assert ps == ps[..|ps| - 1] + [last];
      Matching(ps[..|ps| - 1], lang, name) + (if NameMatches(last, lang, name) then [last] else [])
  }

  /** The comparator's key: the lower-cased name in `lang` */
  function SortKey(p: Placed, lang: string): string {
    var d := GetDesc(p.node, lang);
    if d.Some? then ToLower(d.value.name) else ""
  }

  function KeyLeq(lang: string): (Placed, Placed) -> bool {
    (p: Placed, q: Placed) => LexLeq(SortKey(p, lang), SortKey(q, lang))
  }

  lemma KeyLeqIsTotalPreorder(lang: string)
    ensures TotalPreorder(KeyLeq(lang))
  {
    LexIsTotalPreorder();
    var leq := KeyLeq(lang);
    forall x, y ensures leq(x, y) || leq(y, x) {
      assert LexLeq(SortKey(x, lang), SortKey(y, lang)) || LexLeq(SortKey(y, lang), SortKey(x, lang));
    }
    forall x, y, z | leq(x, y) && leq(y, z) ensures leq(x, z) {
      LexTransitive(SortKey(x, lang), SortKey(y, lang), SortKey(z, lang));
    }
  }

  /** The matching nodes in comparator order */
  function SearchOrder(ps: seq<Placed>, lang: string, name: string): (r: seq<Placed>)
    ensures multiset(r) == multiset(Matching(ps, lang, name))
    ensures forall i, j :: 0 <= i < j < |r| ==> LexLeq(SortKey(r[i], lang), SortKey(r[j], lang))
  {
    KeyLeqIsTotalPreorder(lang);
    SortBy(Matching(ps, lang, name), KeyLeq(lang))
  }

  /**
   * The comparator dereferences the desc in `lang` of the nodes it compares:
   * it throws once two or more nodes are sorted and one of them has none.
   */
  predicate SortThrows(ms: seq<Placed>, lang: string) {
    |ms| >= 2 && exists k :: 0 <= k < |ms| && GetDesc(ms[k].node, lang).None?
  }

  function Min(a: int, b: int): int {
    if a <= b then a else b
  }

  /** `searchAreas` / `searchCategories` */
  function Search(ps: seq<Placed>, lang: string, name: string, limit: int): Result<seq<NodeCopy>, string> {
    if limit < 0 then Err("IllegalArgumentException")
    else if SortThrows(Matching(ps, lang, name), lang) then Err("NullPointerException")
    else
      var order := SearchOrder(ps, lang, name);
      Ok(Copies(order[..Min(limit, |order|)]))
  }

  /**
   * A search returns the first `limit` matching nodes in order of their
   * lower-cased names, copied with their parents.
   */
  lemma SearchResult(ps: seq<Placed>, lang: string, name: string, limit: int)
    requires Search(ps, lang, name, limit).Ok?
    ensures var r := Search(ps, lang, name, limit).value;
      var order := SearchOrder(ps, lang, name);
      && 0 <= limit
      && |r| == Min(limit, |Matching(ps, lang, name)|)
      && (forall k :: 0 <= k < |r| ==> r[k] == ParentCopy(order[k]))
      && (forall k :: 0 <= k < |r| ==> order[k] in ps && NameMatches(order[k], lang, name))
  {
    OrderOfMatches(ps, lang, name);
  }

  lemma OrderOfMatches(ps: seq<Placed>, lang: string, name: string)
    ensures var order := SearchOrder(ps, lang, name);
      && |order| == |Matching(ps, lang, name)|
      && forall k :: 0 <= k < |order| ==> order[k] in ps && NameMatches(order[k], lang, name)
  {
    var order := SearchOrder(ps, lang, name);
    var ms := Matching(ps, lang, name);
    assert |order| == |ms| by {
      assert |multiset(order)| == |multiset(ms)|;
    }
    forall k | 0 <= k < |order| ensures order[k] in ps && NameMatches(order[k], lang, name) {
      assert order[k] in multiset(order);
      assert order[k] in ms;
    }
  }

  /**
   * With a non-empty name only the nodes whose name in `lang` contains it,
   * ignoring case, are candidates; with an empty name every node is.
   */
  lemma SearchCandidates(ps: seq<Placed>, lang: string, name: string)
    ensures name != "" ==> forall p :: p in Matching(ps, lang, name) <==>
      (p in ps && GetDesc(p.node, lang).Some? && Contains(ToLower(GetDesc(p.node, lang).value.name), ToLower(name)))
    ensures name == "" ==> multiset(SearchOrder(ps, lang, name)) == multiset(ps)
  {
    if name == "" {
      MatchAll(ps, lang);
    }
  }

  lemma {:induction false} MatchAll(ps: seq<Placed>, lang: string)
    ensures Matching(ps, lang, "") == ps
  {
    if |ps| > 0 {
      MatchAll(ps[..|ps| - 1], lang);
      assert ps == ps[..|ps| - 1] + [ps[|ps| - 1]];
    }
  }

  /** The search fails only on a negative limit, or on sorting a node without a name in `lang`. */
  lemma SearchFailures(ps: seq<Placed>, lang: string, name: string, limit: int)
    ensures Search(ps, lang, name, limit).Err? <==>
      limit < 0 || (|Matching(ps, lang, name)| >= 2 && exists p :: p in Matching(ps, lang, name) && GetDesc(p.node, lang).None?)
    ensures name != "" && limit >= 0 ==> Search(ps, lang, name, limit).Ok?
  {
    var ms := Matching(ps, lang, name);
    if exists p :: p in ms && GetDesc(p.node, lang).None? {
      var p :| p in ms && GetDesc(p.node, lang).None?;
      var k :| 0 <= k < |ms| && ms[k] == p;
    }
  }

  /** The nodes whose id, as decimal text, is in `ids`, in order */
  function WithIds(ps: seq<Placed>, ids: set<string>): (r: seq<Placed>)
    ensures forall p :: p in r <==> p in ps && IntToString(p.node.id) in ids
    ensures |r| <= |ps|
  {
    if |ps| == 0 then []
    else
      var last := ps[|ps| - 1];
      assert ps == ps[..|ps| - 1] + [last];
      WithIds(ps[..|ps| - 1], ids) + (if IntToString(last.node.id) in ids then [last] else [])
  }

  /** The ids of a comma-separated id list */
  function IdSet(idList: string): set<string> {
    var parts := JavaSplit(idList, ',');
    set k | 0 <= k < |parts| :: parts[k]
  }

  /** `getAreas` / `getCategories` */
  function GetById(ps: seq<Placed>, idList: string, limit: int): Result<seq<NodeCopy>, string> {
    if limit < 0 then Err("IllegalArgumentException")
    else
      var found := WithIds(ps, IdSet(idList));
      Ok(Copies(found[..Min(limit, |found|)]))
  }

  /**
   * At most `limit` nodes come back, in the order of the service's list, each
   * one whose id is among the listed ids, and no listed node is skipped
   * before the limit is reached.
   */
  lemma GetByIdResult(ps: seq<Placed>, idList: string, limit: int)
    ensures GetById(ps, idList, limit).Err? <==> limit < 0
    ensures GetById(ps, idList, limit).Ok? ==>
      var r := GetById(ps, idList, limit).value;
      var found := WithIds(ps, IdSet(idList));
      && |r| <= limit
      && |r| == Min(limit, |found|)
      && (forall k :: 0 <= k < |r| ==> found[k] in ps && r[k] == ParentCopy(found[k]))
      && (forall k :: 0 <= k < |r| ==> IntToString(r[k].id) in IdSet(idList))
  {
    if limit >= 0 {
      var found := WithIds(ps, IdSet(idList));
      forall k | 0 <= k < Min(limit, |found|) ensures found[k] in ps && IntToString(found[k].node.id) in IdSet(idList) {
        assert found[k] in found;
      }
    }
  }

  /** A single id, with no comma, selects exactly the nodes with that id. */
  lemma SingleId(ps: seq<Placed>, id: int)
    ensures forall p :: p in WithIds(ps, IdSet(IntToString(id))) <==> p in ps && IntToString(p.node.id) == IntToString(id)
  {
    var s := IntToString(id);
    assert ',' !in s by {
      if ',' in s {
        var k :| 0 <= k < |s| && s[k] == ',';
        NoCommaInNumber(id, k);
      }
    }
    assert JavaSplit(s, ',') == [s];
    forall x ensures x in IdSet(s) <==> x == s {
      if x == s {
        assert JavaSplit(s, ',')[0] == s;
      }
    }
  }

  lemma NoCommaInNumber(n: int, k: int)
    requires 0 <= k < |IntToString(n)|
    ensures IntToString(n)[k] != ','
  {
    if n < 0 {
      if k > 0 {
        assert IntToString(n)[k] == NatToString(-n)[k - 1];
      }
    }
  }
}
