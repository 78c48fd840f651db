/** The nodes of the storage tree and what it means for their links to form one. */
module NodeTree {
  import opened FlatStore

  class RamNode {
    var imediateName: string
    var parent: RamNode?
    var childs: map<string, RamNode>
    var value: string

    /** Where the node was created; it never moves. */
    ghost const path: Path

    constructor (imediateName: string, parent: RamNode?, ghost path: Path)
      ensures this.imediateName == imediateName && this.parent == parent && this.path == path
      ensures childs == map[] && value == ""
    {
      this.imediateName := imediateName;
      this.parent := parent;
      this.path := path;
      childs := map[];
      value := "";
    }
  }

  lemma Rejoin(p: Path)
    requires p != []
    ensures p == Up(p) + [Last(p)]
  {
  }

  /** The paths of a tree: the root's empty path and every shorter path of each path. */
  ghost predicate PathSet(ps: set<Path>) {
    [] in ps && forall p {:trigger OnTree(ps, p)} | p in ps :: OnTree(ps, p)
  }

  ghost predicate OnTree(ps: set<Path>, p: Path) {
    && (forall k | 0 <= k < |p| :: p[..k] in ps)
    && (forall w | w in p :: '.' !in w)
  }

  ghost function Words(ps: set<Path>, p: Path): set<string> {
    set q | q in ps && q != [] && Up(q) == p :: Last(q)
  }

  lemma WordsIn(ps: set<Path>, p: Path, w: string)
    ensures w in Words(ps, p) <==> p + [w] in ps
  {
    if p + [w] in ps {
      assert Up(p + [w]) == p && Last(p + [w]) == w;
    }
    if w in Words(ps, p) {
      var q :| q in ps && q != [] && Up(q) == p && Last(q) == w;
      assert q == p + [w];
    }
  }

  lemma WordsAfterAdd(ps: set<Path>, cp: Path, w: string)
    ensures forall p | p != cp :: Words(ps + {cp + [w]}, p) == Words(ps, p)
    ensures Words(ps + {cp + [w]}, cp) == Words(ps, cp) + {w}
  {
    var np := cp + [w];
    assert Up(np) == cp && Last(np) == w;
    forall p, x ensures x in Words(ps + {np}, p) <==> x in Words(ps, p) || (p == cp && x == w) {
      WordsIn(ps, p, x);
      WordsIn(ps + {np}, p, x);
      assert p + [x] == np ==> Up(p + [x]) == cp && Last(p + [x]) == w;
    }
  }

  lemma PathSetAfterAdd(ps: set<Path>, cp: Path, w: string)
    requires PathSet(ps) && cp in ps && '.' !in w
    ensures PathSet(ps + {cp + [w]})
  {
    var np := cp + [w];
    forall p | p in ps + {np} ensures OnTree(ps + {np}, p) {
      assert OnTree(ps, cp);
      if p == np {
        forall k | 0 <= k < |p| ensures p[..k] in ps {
          assert p[..k] == cp[..k];
          assert k == |cp| ==> cp[..k] == cp;
        }
      } else {
        assert OnTree(ps, p);
      }
    }
  }

  lemma WordsNone(ps: set<Path>, p: Path)
    requires PathSet(ps) && p !in ps
    ensures Words(ps, p) == {}
  {
    forall x ensures x !in Words(ps, p) {
      WordsIn(ps, p, x);
      assert (p + [x])[..|p|] == p;
      assert p + [x] in ps ==> OnTree(ps, p + [x]);
    }
  }

  /** What the fields of one node hold. */
  datatype Fields = Fields(childs: map<string, RamNode>, parent: RamNode?, name: string, value: string)

  type Heap = map<RamNode, Fields>

  /** A node's children, name and parent link are those its path asks for, and its parent leads to it. */
  ghost predicate LinksOk(at: map<Path, RamNode>, h: Heap, p: Path)
    requires p in at
  {
    && at[p] in h && at[p].path == p
    && h[at[p]].childs.Keys == Words(at.Keys, p)
    && if p == [] then h[at[p]].parent == null
       else
         && Up(p) in at && at[Up(p)] in h
         && h[at[p]].parent == at[Up(p)]
         && h[at[p]].name == Last(p)
         && Last(p) in h[at[Up(p)]].childs
         && h[at[Up(p)]].childs[Last(p)] == at[p]
  }

  /**
   A proper tree: `at` says which node every path leads to. No node is reached by two paths, because
   each knows its path, and no link disagrees with another.
   */
  ghost predicate Tree(at: map<Path, RamNode>, h: Heap) {
    PathSet(at.Keys) && forall p {:trigger LinksOk(at, h, p)} | p in at :: LinksOk(at, h, p)
  }

  /** The flat store a tree stands for; the root has no name and no value of its own. */
  ghost function Values(at: map<Path, RamNode>, h: Heap): Store {
    map p | p in at && p != [] :: if at[p] in h then h[at[p]].value else ""
  }

  lemma EmptyTree(root: RamNode)
    requires root.path == []
    ensures Tree(map[[] := root], map[root := Fields(map[], null, "", "")])
    ensures Values(map[[] := root], map[root := Fields(map[], null, "", "")]) == EMPTY
  {
  }

  lemma TreeClosed(at: map<Path, RamNode>, h: Heap)
    requires Tree(at, h)
    ensures Closed(Values(at, h))
    ensures forall p :: p in Values(at, h) <==> p in at && p != []
    ensures [] in at
  {
    forall p | p in Values(at, h) ensures Rooted(Values(at, h), p) {
      assert OnTree(at.Keys, p);
    }
  }

  lemma NodeAt(at: map<Path, RamNode>, h: Heap, p: Path)
    requires Tree(at, h) && p in at
    ensures at[p] in h && at[p].path == p
    ensures p != [] ==> Values(at, h)[p] == h[at[p]].value
  {
    assert LinksOk(at, h, p);
  }

  lemma ParentOf(at: map<Path, RamNode>, h: Heap, p: Path)
    requires Tree(at, h) && p in at && p != []
    ensures at[p] in h && Up(p) in at && at[Up(p)] in h && at[Up(p)] != at[p] && at[Up(p)].path == Up(p)
    ensures h[at[p]].parent == at[Up(p)] && h[at[p]].name == Last(p)
  {
    assert LinksOk(at, h, p) && LinksOk(at, h, Up(p));
  }

  lemma PrefixOnTree(at: map<Path, RamNode>, h: Heap, p: Path, q: Path)
    requires Tree(at, h) && p <= q
    ensures q in at ==> p in at
  {
    assert p == q[..|p|] && (|p| == |q| ==> p == q);
    if q in at && |p| < |q| {
      assert OnTree(at.Keys, q);
    }
  }

  lemma WordOfChild(at: map<Path, RamNode>, h: Heap, p: Path, w: string)
    requires Tree(at, h) && p in at
    ensures at[p] in h
    ensures w in h[at[p]].childs <==> p + [w] in at
    ensures w in h[at[p]].childs ==> h[at[p]].childs[w] == at[p + [w]]
  {
    assert LinksOk(at, h, p);
    WordsIn(at.Keys, p, w);
    if w in h[at[p]].childs {
      assert LinksOk(at, h, p + [w]);
      assert Up(p + [w]) == p && Last(p + [w]) == w;
    }
  }

  ghost function Subtree(at: map<Path, RamNode>, p: Path): set<Path> { set q | q in at && p <= q }

  lemma SubtreeShrinks(at: map<Path, RamNode>, p: Path, w: string)
    requires p in at
    ensures Subtree(at, p + [w]) < Subtree(at, p)
  {
    forall q | q in Subtree(at, p + [w]) ensures q in Subtree(at, p) {
      assert p <= p + [w] <= q;
    }
    assert p in Subtree(at, p) && p !in Subtree(at, p + [w]);
  }

  // ---- the three ways the fields change ----

  function Assigned(h: Heap, n: RamNode, v: string): Heap
    requires n in h
  {
    h[n := h[n].(value := v)]
  }

  lemma TreeAfterAssign(at: map<Path, RamNode>, h: Heap, p: Path, v: string)
    requires Tree(at, h) && p in at && at[p] in h
    ensures Tree(at, Assigned(h, at[p], v))
  {
    forall q | q in at ensures LinksOk(at, Assigned(h, at[p], v), q) {
      assert LinksOk(at, h, q);
    }
  }

  lemma ValuesAfterAssign(at: map<Path, RamNode>, h: Heap, p: Path, v: string)
    requires Tree(at, h) && p in at && p != [] && at[p] in h
    ensures Values(at, Assigned(h, at[p], v)) == Values(at, h)[p := v]
  {
    forall q | q in at && q != p ensures at[q] != at[p] {
      assert LinksOk(at, h, q) && LinksOk(at, h, p);
    }
  }

  function Hung(h: Heap, curr: RamNode, w: string, child: RamNode): Heap
    requires curr in h
  {
    h[curr := h[curr].(childs := h[curr].childs[w := child])][child := Fields(map[], curr, w, "")]
  }

  lemma TreeAfterAdd(at: map<Path, RamNode>, h: Heap, cp: Path, w: string, child: RamNode)
    requires Tree(at, h) && cp in at && at[cp] in h && cp + [w] !in at && '.' !in w
    requires child !in h && child.path == cp + [w]
    ensures Tree(at[cp + [w] := child], Hung(h, at[cp], w, child))
  {
    var np := cp + [w];
    var at', h' := at[np := child], Hung(h, at[cp], w, child);
    PathSetAfterAdd(at.Keys, cp, w);
    WordsAfterAdd(at.Keys, cp, w);
    WordsNone(at.Keys, np);
    assert at'.Keys == at.Keys + {np};
    assert Up(np) == cp && Last(np) == w;
    assert LinksOk(at, h, cp);
    forall p | p in at' ensures LinksOk(at', h', p) {
      if p != np {
        assert LinksOk(at, h, p);
        if p != [] {
          assert LinksOk(at, h, Up(p));
          Rejoin(p);
        }
      }
    }
  }

  lemma ValuesAfterAdd(at: map<Path, RamNode>, h: Heap, cp: Path, w: string, child: RamNode)
    requires Tree(at, h) && cp in at && at[cp] in h && cp + [w] !in at && child !in h
    ensures Values(at[cp + [w] := child], Hung(h, at[cp], w, child)) == Values(at, h)[cp + [w] := ""]
  {
    assert cp + [w] != [];
    forall p | p in at ensures at[p] != child {
      assert LinksOk(at, h, p);
    }
  }

  function Cut(h: Heap, parent: RamNode, w: string): Heap
    requires parent in h
  {
    h[parent := h[parent].(childs := h[parent].childs - {w})]
  }

  lemma BelowUp(p: Path, q: Path)
    requires p != [] && q != [] && !(p <= q)
    ensures !(p <= Up(q)) && !(Up(q) == Up(p) && Last(q) == Last(p))
  {
    Rejoin(p);
    Rejoin(q);
    assert p <= Up(q) ==> p <= q;
  }

  /** Cutting off the node at `p` keeps a tree, whatever the node itself now holds. */
  lemma TreeAfterCut(at: map<Path, RamNode>, h: Heap, p: Path, f: Fields)
    requires Tree(at, h) && p in at && p != [] && Up(p) in at && at[Up(p)] in h && at[Up(p)] != at[p]
    requires at[Up(p)].path == Up(p)
    ensures Tree(Pruned(at, p), Cut(h[at[p] := f], at[Up(p)], Last(p)))
  {
    hide Words, PathSet;
    var at', h' := Pruned(at, p), Cut(h[at[p] := f], at[Up(p)], Last(p));
    PathSetAfterCut(at.Keys, p, at'.Keys);
    WordsAfterCut(at.Keys, p, at'.Keys);
    assert LinksOk(at, h, p);
    forall q | q in at' ensures LinksOk(at', h', q) {
      assert LinksOk(at, h, q);
      if q != [] {
        assert LinksOk(at, h, Up(q));
      }
      LinksAfterCut(at, h, p, f, q);
    }
  }

  lemma LinksAfterCut(at: map<Path, RamNode>, h: Heap, p: Path, f: Fields, q: Path)
    requires p in at && p != [] && LinksOk(at, h, p) && at[Up(p)] != at[p] && at[Up(p)].path == Up(p)
    requires q in Pruned(at, p) && LinksOk(at, h, q) && (q != [] ==> LinksOk(at, h, Up(q)))
    requires Words(Pruned(at, p).Keys, q) == if q == Up(p) then Words(at.Keys, q) - {Last(p)} else Words(at.Keys, q)
    ensures LinksOk(Pruned(at, p), Cut(h[at[p] := f], at[Up(p)], Last(p)), q)
  {
    hide Words;
    if q != [] {
      BelowUp(p, q);
    }
  }

  lemma ValuesAfterCut(at: map<Path, RamNode>, h: Heap, p: Path, f: Fields)
    requires Tree(at, h) && p in at && p != [] && Up(p) in at && at[Up(p)] in h && at[Up(p)] != at[p]
    ensures Values(Pruned(at, p), Cut(h[at[p] := f], at[Up(p)], Last(p))) == Pruned(Values(at, h), p)
  {
    forall q | q in at ensures at[q] in h && (!(p <= q) ==> at[q] != at[p]) {
      assert LinksOk(at, h, q) && LinksOk(at, h, p);
    }
  }
  lemma PathSetAfterCut(ps: set<Path>, p: Path, cut: set<Path>)
    requires PathSet(ps) && p != []
    requires forall q :: q in cut <==> q in ps && !(p <= q)
    ensures PathSet(cut)
  {
    forall q | q in cut ensures OnTree(cut, q) {
      assert OnTree(ps, q);
      forall k | 0 <= k < |q| ensures q[..k] in cut {
        assert p <= q[..k] ==> p <= q;
      }
    }
  }

  lemma WordsAfterCut(ps: set<Path>, p: Path, cut: set<Path>)
    requires PathSet(ps) && p != []
    requires forall q :: q in cut <==> q in ps && !(p <= q)
    ensures forall q | q in cut :: Words(cut, q) == if q == Up(p) then Words(ps, q) - {Last(p)} else Words(ps, q)
  {
    assert Up(p) + [Last(p)] == p;
    forall q, w | q in cut
      ensures w in Words(cut, q) <==> w in Words(ps, q) && !(q == Up(p) && w == Last(p))
    {
      WordsIn(ps, q, w);
      WordsIn(cut, q, w);
      var c := q + [w];
      if p <= c {
        assert |p| <= |q| ==> p <= q;
        assert p == c;
      }
    }
  }

}
