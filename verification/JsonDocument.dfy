/** The nested object as the server builds it: mutable maps that point to one another. */
module JsonDocuments {
  import opened FlatStore
  import opened NestedJson

  class JsonMap {
    var entries: map<string, Value>

    constructor ()
      ensures entries == map[]
    {
      entries := map[];
    }
  }

  datatype Value = Scalar(x: string) | Nested(m: JsonMap)

  /** The entries of every map, keyed by the map itself. */
  type Heap = map<JsonMap, map<string, Value>>

  function With(h: Heap, n: JsonMap, entries: map<string, Value>): Heap { h[n := entries] }

  lemma TwoChanged(h: Heap, h': Heap, n: JsonMap, en: map<string, Value>, m: JsonMap, em: map<string, Value>)
    requires n in h && n != m && h'.Keys == h.Keys + {m} && h'[n] == en && h'[m] == em
    requires forall x | x in h && x != n && x != m :: h'[x] == h[x]
    ensures h' == With(With(h, n, en), m, em)
  {
  }

  // ---- the shape ----

  predicate Hangs(at: map<Path, JsonMap>, h: Heap, p: Path)
    requires p in at
  {
    at[p] in h &&
    (p == [] ||
     (Up(p) in at && at[Up(p)] in h && Last(p) in h[at[Up(p)]] && h[at[Up(p)]][Last(p)] == Nested(at[p])))
  }

  predicate PointsDown(at: map<Path, JsonMap>, h: Heap, p: Path, k: string)
    requires p in at && at[p] in h && k in h[at[p]]
  {
    h[at[p]][k].Nested? ==> p + [k] in at && at[p + [k]] == h[at[p]][k].m
  }

  predicate Apart(at: map<Path, JsonMap>, p: Path, q: Path) { p in at && q in at && at[p] == at[q] ==> p == q }

  /** A tree of maps: each hangs in exactly one place, and every pointer leads to one of them. */
  ghost predicate Tree(root: JsonMap, at: map<Path, JsonMap>, h: Heap) {
    && [] in at && at[[]] == root
    && (forall p {:trigger Hangs(at, h, p)} | p in at :: Hangs(at, h, p))
    && (forall p, k {:trigger PointsDown(at, h, p, k)} | p in at && at[p] in h && k in h[at[p]] :: PointsDown(at, h, p, k))
    && (forall p, q {:trigger Apart(at, p, q)} :: Apart(at, p, q))
  }

  function ItemAt(at: map<Path, JsonMap>, h: Heap, q: Path): Item {
    if q != [] && Up(q) in at && at[Up(q)] in h && Last(q) in h[at[Up(q)]] then
      match h[at[Up(q)]][Last(q)]
      case Scalar(x) => Prim(x)
      case Nested(_) => Object
    else Nothing
  }

  function ItemsOf(at: map<Path, JsonMap>, h: Heap): Doc { q => ItemAt(at, h, q) }

  // ---- one more map ----

  lemma AddedTree(
    root: JsonMap, at: map<Path, JsonMap>, h: Heap, cur: Path, k: string, m: JsonMap, inner: map<string, Value>)
    requires Tree(root, at, h) && cur in at && at[cur] in h && m !in h
    requires k in h[at[cur]] ==> h[at[cur]][k].Scalar?
    requires forall w | w in inner :: inner[w].Scalar?
    ensures cur + [k] !in at
    ensures Tree(root, at[cur + [k] := m], With(With(h, at[cur], h[at[cur]][k := Nested(m)]), m, inner))
  {
    var p, n := cur + [k], at[cur];
    assert Up(p) == cur && Last(p) == k;
    var at', h' := at[p := m], With(With(h, n, h[n][k := Nested(m)]), m, inner);
    assert p in at ==> Hangs(at, h, p);
    forall q | q in at' ensures Hangs(at', h', q) {
      if q != p {
        assert Hangs(at, h, q);
        assert q != [] ==> q == Up(q) + [Last(q)] && Hangs(at, h, Up(q));
        assert q != [] ==> Apart(at, Up(q), cur);
      }
    }
    forall q, w | q in at' && w in h'[at'[q]] ensures PointsDown(at', h', q, w) {
      if q != p {
        assert Hangs(at, h, q) && Apart(at, q, cur);
        if q != cur || w != k {
          assert PointsDown(at, h, q, w);
        }
      }
    }
    forall q, r ensures Apart(at', q, r) {
      assert q in at ==> Hangs(at, h, q);
      assert r in at ==> Hangs(at, h, r);
      assert Apart(at, q, r);
    }
  }

  lemma AddedItems(
    root: JsonMap, at: map<Path, JsonMap>, h: Heap, cur: Path, k: string, m: JsonMap, inner: map<string, Value>)
    requires Tree(root, at, h) && cur in at && at[cur] in h && m !in h && cur + [k] !in at
    requires k in h[at[cur]] ==> h[at[cur]][k].Scalar?
    requires inner == if k in h[at[cur]] then map[OWN := h[at[cur]][k]] else map[]
    ensures var at', h' := at[cur + [k] := m], With(With(h, at[cur], h[at[cur]][k := Nested(m)]), m, inner);
            Same(ItemsOf(at', h'), Opened(ItemsOf(at, h), cur + [k]))
  {
    var p, n := cur + [k], at[cur];
    var at', h' := at[p := m], With(With(h, n, h[n][k := Nested(m)]), m, inner);
    EntryAt(at, h, cur, k);
    EntryAt(at, h, p, OWN);
    forall q ensures ItemAt(at', h', q) == Opened(ItemsOf(at, h), p)(q) {
      if q != [] {
        AddedAt(root, at, h, cur, k, m, inner, q);
        EntryAt(at, h, Up(q), Last(q));
        assert q == Up(q) + [Last(q)];
      }
    }
  }

  lemma EntryAt(at: map<Path, JsonMap>, h: Heap, p: Path, k: string)
    ensures Up(p + [k]) == p && Last(p + [k]) == k
    ensures ItemAt(at, h, p + [k]) ==
              if p in at && at[p] in h && k in h[at[p]] then
                (if h[at[p]][k].Scalar? then Prim(h[at[p]][k].x) else Object)
              else Nothing
  {
    assert Up(p + [k]) == p && Last(p + [k]) == k;
  }

  /** What the new map shows: itself as an object, its entries, and everything else as it was. */
  lemma AddedAt(
    root: JsonMap, at: map<Path, JsonMap>, h: Heap, cur: Path, k: string, m: JsonMap, inner: map<string, Value>, q: Path)
    requires Tree(root, at, h) && cur in at && at[cur] in h && m !in h && cur + [k] !in at && q != []
    requires forall w | w in inner :: inner[w].Scalar?
    ensures var at', h' := at[cur + [k] := m], With(With(h, at[cur], h[at[cur]][k := Nested(m)]), m, inner);
            ItemAt(at', h', q) ==
              if q == cur + [k] then Object
              else if Up(q) == cur + [k] then (if Last(q) in inner then Prim(inner[Last(q)].x) else Nothing)
              else ItemAt(at, h, q)
  {
    assert Up(q) in at ==> Hangs(at, h, Up(q));
    assert q == Up(q) + [Last(q)];
    assert Apart(at, Up(q), cur);
  }

  // ---- one value stored ----

  lemma PrefixOfUp(t: Path, q: Path)
    requires q != []
    ensures t <= q <==> t == q || t <= Up(q)
  {
    if t <= q && t != q {
      assert t == q[..|t|] == Up(q)[..|t|];
    }
    if t <= Up(q) {
      assert t == Up(q)[..|t|] == q[..|t|];
    }
  }

  lemma StoredTree(root: JsonMap, at: map<Path, JsonMap>, h: Heap, cur: Path, k: string, v: string)
    requires Tree(root, at, h) && cur in at && at[cur] in h
    ensures Tree(root, Pruned(at, cur + [k]), With(h, at[cur], h[at[cur]][k := Scalar(v)]))
  {
    var t, n := cur + [k], at[cur];
    assert Up(t) == cur && Last(t) == k && !(t <= cur);
    var at', h' := Pruned(at, t), With(h, n, h[n][k := Scalar(v)]);
    forall q | q in at' ensures Hangs(at', h', q) {
      assert Hangs(at, h, q);
      if q != [] {
        PrefixOfUp(t, q);
        assert q == Up(q) + [Last(q)];
        assert Apart(at, Up(q), cur);
      }
    }
    forall q, r ensures Apart(at', q, r) {
      assert Apart(at, q, r);
    }
    forall q, w | q in at' && w in h'[at'[q]] ensures PointsDown(at', h', q, w) {
      assert Hangs(at, h, q) && Apart(at, q, cur);
      if q != cur || w != k {
        assert PointsDown(at, h, q, w);
        PrefixOfUp(t, q + [w]);
        assert Up(q + [w]) == q && Last(q + [w]) == w;
      }
    }
  }

  lemma StoredItems(root: JsonMap, at: map<Path, JsonMap>, h: Heap, cur: Path, k: string, v: string)
    requires Tree(root, at, h) && cur in at && at[cur] in h
    ensures Same(ItemsOf(Pruned(at, cur + [k]), With(h, at[cur], h[at[cur]][k := Scalar(v)])),
                 SetItem(ItemsOf(at, h), cur + [k], v))
  {
    var t := cur + [k];
    var at', h' := Pruned(at, t), With(h, at[cur], h[at[cur]][k := Scalar(v)]);
    forall q ensures ItemAt(at', h', q) == SetItem(ItemsOf(at, h), t, v)(q) {
      if q != [] {
        StoredAt(root, at, h, cur, k, v, q);
      } else {
        assert t != [] && !(t <= q);
      }
    }
  }

  lemma StoredAt(root: JsonMap, at: map<Path, JsonMap>, h: Heap, cur: Path, k: string, v: string, q: Path)
    requires Tree(root, at, h) && cur in at && at[cur] in h && q != []
    ensures ItemAt(Pruned(at, cur + [k]), With(h, at[cur], h[at[cur]][k := Scalar(v)]), q) ==
              if q == cur + [k] then Prim(v) else if cur + [k] <= q then Nothing else ItemAt(at, h, q)
  {
    var t := cur + [k];
    assert Up(t) == cur && Last(t) == k && !(t <= cur);
    PrefixOfUp(t, q);
    assert q == Up(q) + [Last(q)];
    assert Apart(at, Up(q), cur);
  }

  // ---- the definitions the walk rests on ----

  lemma SameRefl(f: Doc)
    ensures Same(f, f)
  {
  }

  lemma SameTrans(f: Doc, g: Doc, h: Doc)
    requires Same(f, g) && Same(g, h)
    ensures Same(f, h)
  {
  }

  lemma SameHolds(f: Doc, g: Doc, s: map<Path, string>)
    requires Same(f, g) && Holds(g, s, [])
    ensures Holds(f, s, [])
  {
  }

  lemma RootIs(root: JsonMap, at: map<Path, JsonMap>, h: Heap)
    requires Tree(root, at, h)
    ensures [] in at && at[[]] == root && root in h
  {
    assert Hangs(at, h, []);
  }

  /** Following a pointer: the map it leads to is the one at the longer path, and passing through changes nothing. */
  lemma DownIs(root: JsonMap, at: map<Path, JsonMap>, h: Heap, cur: Path, k: string)
    requires Tree(root, at, h) && cur in at && at[cur] in h && k in h[at[cur]] && h[at[cur]][k].Nested?
    ensures cur + [k] in at && at[cur + [k]] == h[at[cur]][k].m && h[at[cur]][k].m in h
    ensures Same(ItemsOf(at, h), Opened(ItemsOf(at, h), cur + [k]))
  {
    assert PointsDown(at, h, cur, k);
    assert Hangs(at, h, cur + [k]);
    assert Up(cur + [k]) == cur && Last(cur + [k]) == k;
  }

  lemma InsertedStep(f: Doc, cur: Path, parts: seq<string>, v: string)
    requires |parts| > 1
    ensures Inserted(f, cur, parts, v) ==
              if parts[0] == "" then Inserted(f, cur, parts[1..], v)
              else Inserted(Opened(f, cur + [parts[0]]), cur + [parts[0]], parts[1..], v)
  {
  }

  lemma InsertedLast(f: Doc, cur: Path, w: string, v: string)
    ensures Inserted(f, cur, [w], v) == if w == "" then f else PutLeaf(f, cur + [w], v)
  {
  }

  lemma LeafIs(root: JsonMap, at: map<Path, JsonMap>, h: Heap, cur: Path, k: string, v: string)
    requires Tree(root, at, h) && cur in at && at[cur] in h
    ensures var f := ItemsOf(at, h);
            PutLeaf(f, cur + [k], v) ==
              if k in h[at[cur]] && h[at[cur]][k].Nested? then SetItem(f, cur + [k] + [OWN], v)
              else SetItem(f, cur + [k], v)
  {
    assert Up(cur + [k]) == cur && Last(cur + [k]) == k;
  }

  lemma GoodParts(vars: seq<Variable>, i: nat)
    requires AllGood(vars) && i < |vars|
    ensures |vars[i].path| > 0 && AllGood(vars[..i]) && AllGood(vars[..i + 1])
  {
  }

  lemma MoreInserted(vars: seq<Variable>, i: nat)
    requires AllGood(vars) && i < |vars|
    ensures InsertAll(vars[..i + 1]) == Inserted(InsertAll(vars[..i]), [], vars[i].path, vars[i].value)
  {
    assert vars[..i + 1][..i] == vars[..i];
  }

  // ---- the document ----

  class JsonDocument {
    const root: JsonMap
    ghost var at: map<Path, JsonMap>
    ghost var nodes: set<JsonMap>

    ghost function Snapshot(): Heap
      reads this, nodes
    {
      map n | n in nodes :: n.entries
    }

    ghost predicate Valid()
      reads this, nodes
    {
      Tree(root, at, Snapshot())
    }

    ghost function Items(): Doc
      reads this, nodes
    {
      ItemsOf(at, Snapshot())
    }

    constructor ()
      ensures Valid() && fresh(nodes) && Same(Items(), NO_ITEMS)
    {
      root := new JsonMap();
      new;
      at, nodes := map[[] := root], {root};
    }

    /** Puts a new map under `key`, taking a plain value that was there along under its own-value key. */
    method AddMap(node: JsonMap, key: string, ghost cur: Path) returns (newmap: JsonMap)
      requires Valid() && cur in at && at[cur] == node && node in nodes
      requires key in node.entries ==> node.entries[key].Scalar?
      modifies `at, `nodes, node
      ensures Valid() && fresh(nodes - old(nodes)) && nodes >= old(nodes) && newmap in nodes
      ensures at == old(at)[cur + [key] := newmap]
      ensures Same(Items(), Opened(old(Items()), cur + [key]))
    {
      hide Tree, Same, ItemsOf, Opened, With;
      ghost var h := Snapshot();
      newmap := new JsonMap();
      if key in node.entries {
        newmap.entries := map["_value" := node.entries[key]];
      }
      ghost var inner := newmap.entries;
      AddedTree(root, at, h, cur, key, newmap, inner);
      AddedItems(root, at, h, cur, key, newmap, inner);
      node.entries := node.entries[key := Nested(newmap)];
      nodes := nodes + {newmap};
      at := at[cur + [key] := newmap];
      TwoChanged(h, Snapshot(), node, h[node][key := Nested(newmap)], newmap, inner);
    }

    /** Stores a plain value under `key`, dropping whatever was there. */
    method Store(node: JsonMap, key: string, value: string, ghost cur: Path)
      requires Valid() && cur in at && at[cur] == node && node in nodes
      modifies `at, node
      ensures Valid() && Same(Items(), SetItem(old(Items()), cur + [key], value))
    {
      hide Tree, Same, ItemsOf, SetItem;
      ghost var h := Snapshot();
      StoredTree(root, at, h, cur, key, value);
      StoredItems(root, at, h, cur, key, value);
      node.entries := node.entries[key := Scalar(value)];
      at := Pruned(at, cur + [key]);
      assert Snapshot() == With(h, node, h[node][key := Scalar(value)]);
    }

    /** Walks down the words of a name, making maps on the way, and stores the value at the last one. */
    method InsertNested(parts: seq<string>, value: string)
      requires Valid() && |parts| > 0
      modifies this, nodes
      ensures Valid() && fresh(nodes - old(nodes))
      ensures Same(Items(), Inserted(old(Items()), [], parts, value))
    {
      hide Tree, Same, ItemsOf, Opened, Inserted, SetItem, PutLeaf;
      ghost var goal := Inserted(Items(), [], parts, value);
      var node := root;
      ghost var cur: Path := [];
      RootIs(root, at, Snapshot());
      SameRefl(goal);
      assert parts[0..] == parts;
      for i := 0 to |parts| - 1
        invariant Valid() && fresh(nodes - old(nodes))
        invariant cur in at && at[cur] == node && node in nodes
        invariant Same(Inserted(Items(), cur, parts[i..], value), goal)
      {
        var key := parts[i];
        assert parts[i..][1..] == parts[i + 1..];
        InsertedStep(Items(), cur, parts[i..], value);
        if key == "" {
          continue;
        }
        ghost var f, p := Items(), cur + [key];
        if key !in node.entries {
          node := AddMap(node, key, cur);
        } else {
          match node.entries[key]
          case Nested(typed) =>
            DownIs(root, at, Snapshot(), cur, key);
            node := typed;
          case Scalar(_) =>
            node := AddMap(node, key, cur);
        }
        cur := p;
        InsertedSame(Items(), Opened(f, p), p, parts[i + 1..], value);
        SameTrans(Inserted(Items(), p, parts[i + 1..], value), Inserted(Opened(f, p), p, parts[i + 1..], value), goal);
      }

      var last := parts[|parts| - 1];
      assert parts[|parts| - 1..] == [last];
      InsertedLast(Items(), cur, last, value);
      if last == "" {
        return;
      }
      ghost var f := Items();
      LeafIs(root, at, Snapshot(), cur, last, value);
      if last in node.entries && node.entries[last].Nested? {
        var m := node.entries[last].m;
        DownIs(root, at, Snapshot(), cur, last);
        Store(m, "_value", value, cur + [last]);
      } else {
        Store(node, last, value, cur);
      }
      SameTrans(Items(), PutLeaf(f, cur + [last], value), goal);
    }

    /** Builds the object of a list of variables, one insertion each. */
    method InsertEach(vars: seq<Variable>)
      requires Valid() && Same(Items(), NO_ITEMS) && AllGood(vars)
      modifies this, nodes
      ensures Valid() && Holds(Items(), SetOf(vars), [])
    {
      hide Tree, Same, ItemsOf, Inserted, GoodPath, Holds, SetOf;
      for i := 0 to |vars|
        invariant Valid() && fresh(nodes - old(nodes))
        invariant Same(Items(), InsertAll(vars[..i]))
      {
        ghost var f := Items();
        GoodParts(vars, i);
        InsertNested(vars[i].path, vars[i].value);
        InsertedSame(f, InsertAll(vars[..i]), [], vars[i].path, vars[i].value);
        MoreInserted(vars, i);
        SameTrans(Items(), Inserted(f, [], vars[i].path, vars[i].value), InsertAll(vars[..i + 1]));
      }
      assert vars[..|vars|] == vars;
      AllBuilt(vars);
      SameHolds(Items(), InsertAll(vars), SetOf(vars));
    }
  }
}
