/** Reading and deleting a variable together with everything below it. */
module Wildcard {
  import opened Text
  import opened FlatStore
  import opened Keys
  import opened ObserverNodes
  import opened Subscriptions
  import opened Bookkeeping

  datatype Pair = Pair(name: string, value: string)

  /** The node a variable helper reads and writes under a client's name. */
  function NodeOf(n: string): Path { NodePath(Controlled(n)) }

  // ---- names a wildcard can be put behind ----

  /** A child as clients spell it. */
  function ChildName(n: string, w: string): string { if n == "" then w else Dot(n, w) }

  /** Names whose children, so spelled, denote the nodes below theirs. */
  predicate Steady(n: string) { n != "vars" && (n == "" || n[|n| - 1] != '.') }

  /** Nothing lies below the node of the name `vars`, where the names of children would denote other nodes. */
  predicate NoAliases(d: Store) { Childless(d, ["vars", "vars"]) }

  /** Names below which a whole read can be spelled. */
  predicate Spellable(d: Store, n: string) { (Steady(n) && n != "") || ((n == "" || n == "vars") && NoAliases(d)) }

  lemma ControlledChild(n: string, w: string)
    requires n != "" && n != "vars"
    ensures Controlled(Dot(n, w)) == Dot(Controlled(n), w)
  {
    var m := Dot(n, w);
    assert HasPrefix(m, "vars.") <==> HasPrefix(n, "vars.") by {
      if |n| >= 5 {
        assert m[..5] == n[..5];
      } else if |n| == 4 {
        assert m[..5] == n + ".";
        assert (n + ".")[..4] == n && "vars."[..4] == "vars";
      } else {
        EarlyDot(m, |n|);
      }
    }
  }

  lemma EarlyDot(m: string, i: nat)
    requires i < 4 && i < |m| && m[i] == '.'
    ensures !HasPrefix(m, "vars.")
  {
    assert "vars."[i] != '.';
    if |m| >= 5 {
      assert m[..5][i] == '.';
    }
  }

  /** Every controlled name lies under `vars`. */
  lemma VarsFirst(n: string)
    ensures Split(Controlled(n), '.')[0] == "vars" == NodeOf(n)[0]
  {
    var m := Controlled(n);
    assert m[..5] == "vars.";
    assert m == "vars" + ['.'] + m[5..];
    hide Split;
    SplitConcat("vars", m[5..], '.');
    SplitPiece("vars", '.');
  }

  lemma SteadyChild(n: string, w: string)
    requires Steady(n) && w != "" && '.' !in w
    ensures NodeOf(ChildName(n, w)) == NodeOf(n) + [w]
    ensures Steady(ChildName(n, w)) <==> !(n == "" && w == "vars")
  {
    hide NodePath, Split;
    WordPath(w);
    if n == "" {
      NodePathExtend("vars", "");
      NodePathExtend("vars", w);
      assert Controlled("") == "vars" + "." + "";
      assert Controlled(w) == "vars" + "." + w by { DotInPrefix(w); }
      WordPath("vars");
    } else {
      ControlledChild(n, w);
      NodePathIsSplit(Controlled(n));
      NodePathExtend(Controlled(n), w);
      assert '.' in Dot(n, w);
    }
  }

  lemma DotInPrefix(w: string)
    ensures HasPrefix(w, "vars.") ==> '.' in w
  {
    assert "vars."[4] == '.';
    assert HasPrefix(w, "vars.") ==> w[4] == w[..5][4];
  }

  /** A child's node lies properly below the node whose children were listed. */
  lemma ChildNodeBelow(n: string, w: string)
    requires n != "" && n != "vars" && w != "" && '.' !in w
    ensures NodeOf(n) < NodeOf(Dot(n, w))
  {
    hide Split;
    ControlledChild(n, w);
    NodePathExtend(Controlled(n), w);
    WordPath(w);
  }

  function Spelled(n: string, rel: seq<string>): string {
    if rel == [] then n else ChildName(Spelled(n, rel[..|rel| - 1]), rel[|rel| - 1])
  }

  lemma {:induction false} SpelledStep(n: string, w: string, rel: seq<string>)
    ensures Spelled(ChildName(n, w), rel) == Spelled(n, [w] + rel)
  {
    var all := [w] + rel;
    if rel == [] {
      assert all[..0] == [];
    } else {
      assert all[..|all| - 1] == [w] + rel[..|rel| - 1];
      SpelledStep(n, w, rel[..|rel| - 1]);
    }
  }

  /** The name of what lies below is the name itself, a dot, and the words, dotted; below the empty name the words alone. */
  lemma {:induction false} SpelledExactly(n: string, rel: seq<string>)
    requires rel != [] && forall w | w in rel :: w != ""
    ensures Spelled(n, rel) == if n == "" then Join(rel, '.') else n + "." + Join(rel, '.')
    ensures Join(rel, '.') != ""
  {
    var front, w := rel[..|rel| - 1], rel[|rel| - 1];
    assert rel == front + [w] && w in rel;
    if front != [] {
      assert forall x | x in front :: x in rel;
      SpelledExactly(n, front);
      JoinConcat(front, [w], '.');
      assert Join([w], '.') == w;
      DotDot(n, Join(front, '.'), w);
    }
  }

  lemma DotDot(n: string, a: string, w: string)
    ensures Dot(n + "." + a, w) == n + "." + (a + ['.'] + w) && Dot(a, w) == a + ['.'] + w
  {
  }

  // ---- what a wildcard read returns ----

  /** Words a read descends into. */
  predicate Plain(w: string) { w != "" && w[0] != '_' }

  /** A valued node at or below `p`, reached through plain words only. */
  predicate InReach(d: Store, p: Path, q: Path) {
    p <= q && q in d && d[q] != "" && forall w | w in q[|p|..] :: Plain(w)
  }

  /** Everything within reach, once, descendants before ancestors. */
  ghost predicate Reads(d: Store, p: Path, order: seq<Path>) {
    && (forall q :: q in order <==> InReach(d, p, q))
    && DeepestFirst(order)
  }

  predicate DeepestFirst(order: seq<Path>) { forall i, j | 0 <= i < j < |order| :: !(order[i] <= order[j]) }

  predicate AllBelow(p: Path, order: seq<Path>) { forall i | 0 <= i < |order| :: p <= order[i] }

  function Pairs(d: Store, n: string, p: Path, order: seq<Path>): (ps: seq<Pair>)
    requires AllBelow(p, order)
    ensures |ps| == |order|
  {
    seq(|order|, i requires 0 <= i < |order| => Pair(Spelled(n, order[i][|p|..]), Val(d, order[i])))
  }

  // ---- the walk ----

  /** The nodes below `p`, as a bound on how deep a read can go. */
  function Below(d: Store, p: Path): set<Path> { set q | q in d && p <= q }

  lemma DeeperIsSmaller(d: Store, p: Path, q: Path)
    requires p in d && p < q
    ensures Below(d, q) < Below(d, p)
  {
    assert p in Below(d, p) && p !in Below(d, q);
  }

  lemma FirstThen(a: seq<Path>, b: seq<Path>)
    requires DeepestFirst(a) && DeepestFirst(b)
    requires forall i, j | 0 <= i < |a| && 0 <= j < |b| :: !(a[i] <= b[j])
    ensures DeepestFirst(a + b)
  {
  }

  // ---- deleting what was read ----

  /** Deleting a list of paths one after the other, without cascade. */
  function Cleared(d: Store, ps: seq<Path>): Store {
    if ps == [] then d else Remove(Cleared(d, ps[..|ps| - 1]), ps[|ps| - 1], false)
  }

  /** A node that something outside the list still hangs below. */
  ghost predicate Carries(d: Store, ps: seq<Path>, q: Path) { exists r :: r in d && q < r && r !in ps }

  predicate ClearedAt(d: Store, d': Store, q: Path, carries: bool) {
    Val(d', q) == "" && (q in d' <==> q in d && carries)
  }

  /**
   Deleting deepest first empties every path of the list, drops it unless something that is not on the
   list hangs below it, and touches nothing else.
   */
  lemma {:induction false} ClearedEffect(d: Store, ps: seq<Path>)
    requires Closed(d) && DeepestFirst(ps)
    ensures Closed(Cleared(d, ps))
    ensures forall q {:trigger SameAt(d, Cleared(d, ps), q)} | q !in ps :: SameAt(d, Cleared(d, ps), q)
    ensures forall q | q in ps :: ClearedAt(d, Cleared(d, ps), q, Carries(d, ps, q))
    decreases |ps|
  {
    if ps != [] {
      var n := |ps| - 1;
      var front, p := ps[..n], ps[n];
      var d1, d' := Cleared(d, front), Cleared(d, ps);
      assert ps == front + [p];
      ClearedEffect(d, front);
      RemoveClosed(d1, p, false);
      hide Cleared, Closed;
      assert d' == Remove(d1, p, false) by { ClearedLast(d, ps); }
      LastCarries(d, d1, front, p);
      LastRemoved(d1, p);
      hide Remove;
      assert p !in front;
      forall q ensures if q in ps then ClearedAt(d, d', q, Carries(d, ps, q)) else SameAt(d, d', q) {
        if q == p {
          assert Carries(d, ps, p) <==> Carries(d, front, p);
        } else {
          assert SameAt(d1, d', q);
          if q in front {
            var i :| 0 <= i < n && front[i] == q;
            assert !(ps[i] <= ps[n]);
            assert Carries(d, ps, q) <==> Carries(d, front, q);
          } else {
            assert SameAt(d, d1, q);
          }
        }
      }
    }
  }

  lemma ClearedLast(d: Store, ps: seq<Path>)
    requires ps != []
    ensures Cleared(d, ps) == Remove(Cleared(d, ps[..|ps| - 1]), ps[|ps| - 1], false)
  {
  }

  lemma LastRemoved(d: Store, p: Path)
    ensures ClearedAt(d, Remove(d, p, false), p, !Childless(d, p))
    ensures forall q {:trigger SameAt(d, Remove(d, p, false), q)} | q != p :: SameAt(d, Remove(d, p, false), q)
  {
  }

  /** By the time a path is deleted, what hangs below it is exactly what the list does not cover. */
  lemma LastCarries(d: Store, d1: Store, front: seq<Path>, p: Path)
    requires forall q {:trigger SameAt(d, d1, q)} | q !in front :: SameAt(d, d1, q)
    requires forall q | q in front :: ClearedAt(d, d1, q, Carries(d, front, q))
    requires p !in front
    ensures (p in d1 <==> p in d)
    ensures p in d ==> (!Childless(d1, p) <==> Carries(d, front, p))
  {
    assert SameAt(d, d1, p);
    if Carries(d, front, p) {
      var r :| r in d && p < r && r !in front;
      assert SameAt(d, d1, r);
      assert p <= r && r != p;
    }
    if !Childless(d1, p) {
      var r :| r in d1 && p <= r && r != p;
      if r in front {
        assert ClearedAt(d, d1, r, Carries(d, front, r));
        var s :| s in d && r < s && s !in front;
        assert p < s;
      } else {
        assert SameAt(d, d1, r);
      }
    }
  }

  // ---- what deleting does to the bookkeeping ----

  lemma {:induction false} ClearedClosed(d: Store, ps: seq<Path>)
    requires Closed(d)
    ensures Closed(Cleared(d, ps))
  {
    hide Closed, Remove;
    if ps != [] {
      var n := |ps| - 1;
      ClearedClosed(d, ps[..n]);
      RemoveClosed(Cleared(d, ps[..n]), ps[n], false);
    }
  }

  lemma {:induction false} ClearedSparesMeta(d: Store, ps: seq<Path>)
    requires forall i | 0 <= i < |ps| :: !Meta(ps[i])
    ensures MetaSame(d, Cleared(d, ps))
  {
    hide Meta, Remove;
    if ps != [] {
      var n := |ps| - 1;
      var d1 := Cleared(d, ps[..n]);
      ClearedSparesMeta(d, ps[..n]);
      LastRemoved(d1, ps[n]);
      forall m | Meta(m) ensures SameAt(d, Cleared(d, ps), m) {
        assert SameAt(d, d1, m);
        assert SameAt(d1, Remove(d1, ps[n], false), m);
      }
    }
  }

  /** A plain delete of this node changes nothing at all. */
  predicate NothingToDelete(d: Store, p: Path) { p in d ==> d[p] == "" && !Childless(d, p) }

  /** Deleting one node spares the bookkeeping exactly when the node is not part of it or the delete does nothing. */
  lemma RemoveSparesExactly(d: Store, p: Path)
    ensures MetaSame(d, Remove(d, p, false)) <==> !Meta(p) || NothingToDelete(d, p)
  {
    var d' := Remove(d, p, false);
    LastRemoved(d, p);
    hide Meta, Childless;
    if !Meta(p) {
      forall m | Meta(m) ensures SameAt(d, d', m) {
        assert m != p;
      }
    } else if !NothingToDelete(d, p) {
      assert !SameAt(d, d', p);
    } else {
      forall m | Meta(m) ensures SameAt(d, d', m) {
        assert m != p ==> SameAt(d, d', m);
      }
    }
  }

  lemma OneLessCleared(d: Store, p: Path)
    ensures Cleared(d, [p]) == Remove(d, p, false)
  {
    assert [p][..0] == [];
  }
}
