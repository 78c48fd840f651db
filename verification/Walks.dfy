/** Whole reads by name: which names a read visits, whatever nodes they denote, and when those are the nodes below. */
module Walks {
  import opened Text
  import opened FlatStore
  import opened Keys
  import opened ObserverNodes
  import opened Subscriptions
  import opened Bookkeeping
  import opened Wildcard
  import opened Writes

  // ---- the names a read visits ----

  /** From `n` the read goes to visible children, by the names it spells for them. */
  predicate Walked(d: Store, n: string, rel: Path)
    decreases |rel|
  {
    rel == [] || (Plain(rel[0]) && rel[0] in ChildWords(d, NodeOf(n)) && Walked(d, ChildName(n, rel[0]), rel[1..]))
  }

  /** And tells the names that have a value. */
  predicate InWalk(d: Store, n: string, rel: Path) { Walked(d, n, rel) && Val(d, NodeOf(Spelled(n, rel))) != "" }

  /** Every such name, once, descendants before ancestors. */
  ghost predicate Walk(d: Store, n: string, rels: seq<Path>) {
    (forall rel :: rel in rels <==> InWalk(d, n, rel)) && DeepestFirst(rels)
  }

  /** The part of it that goes through the children `ks`. */
  ghost predicate WalkSome(d: Store, n: string, ks: seq<string>, rels: seq<Path>) {
    (forall rel :: rel in rels <==> InWalkVia(d, n, ks, rel)) && DeepestFirst(rels)
  }

  predicate InWalkVia(d: Store, n: string, ks: seq<string>, rel: Path) { InWalk(d, n, rel) && (rel == [] || rel[0] in ks) }

  function WalkPair(d: Store, n: string, rel: Path): Pair { Pair(Spelled(n, rel), Val(d, NodeOf(Spelled(n, rel)))) }

  function WalkPairs(d: Store, n: string, rels: seq<Path>): (ps: seq<Pair>)
    ensures |ps| == |rels| && forall i | 0 <= i < |rels| :: ps[i] == WalkPair(d, n, rels[i])
  {
    seq(|rels|, i requires 0 <= i < |rels| => WalkPair(d, n, rels[i]))
  }

  function Under(k: string, rels: seq<Path>): (r: seq<Path>)
    ensures |r| == |rels| && forall i | 0 <= i < |rels| :: r[i] == [k] + rels[i]
  {
    seq(|rels|, i requires 0 <= i < |rels| => [k] + rels[i])
  }

  lemma OwnWalk(d: Store, n: string)
    ensures var own := if Val(d, NodeOf(n)) != "" then [[]] else [];
            && WalkSome(d, n, [], own)
            && WalkPairs(d, n, own) == if Val(d, NodeOf(n)) != "" then [Pair(n, Val(d, NodeOf(n)))] else []
  {
    hide NodeOf, ChildName;
  }

  lemma ToldBelow(d: Store, n: string, k: string, rel: Path)
    ensures InWalk(d, n, [k] + rel) <==> Plain(k) && k in ChildWords(d, NodeOf(n)) && InWalk(d, ChildName(n, k), rel)
    ensures WalkPair(d, n, [k] + rel) == WalkPair(d, ChildName(n, k), rel)
  {
    hide NodeOf, ChildName, ChildWords, Plain;
    SpelledStep(n, k, rel);
    assert ([k] + rel)[1..] == rel;
  }

  lemma UnderIn(k: string, rels: seq<Path>, rel: Path)
    ensures rel in Under(k, rels) <==> rel != [] && rel[0] == k && rel[1..] in rels
  {
    var r := Under(k, rels);
    if rel in r {
      var i :| 0 <= i < |r| && r[i] == rel;
      assert rel[1..] == rels[i];
    }
    if rel != [] && rel[0] == k && rel[1..] in rels {
      var i :| 0 <= i < |rels| && rels[i] == rel[1..];
      assert rel == [k] + rel[1..] == r[i];
    }
  }

  lemma UnderDeepest(k: string, rels: seq<Path>)
    requires DeepestFirst(rels)
    ensures DeepestFirst(Under(k, rels))
  {
    var r := Under(k, rels);
    forall i, j | 0 <= i < j < |r| ensures !(r[i] <= r[j]) {
      assert r[i][1..] == rels[i] && r[j][1..] == rels[j];
    }
  }

  /** One more child's names go to the front. */
  lemma WalkStep(d: Store, n: string, ks: seq<string>, rels: seq<Path>, k: string, below: seq<Path>)
    requires WalkSome(d, n, ks, rels) && k !in ks && Plain(k) && k in ChildWords(d, NodeOf(n))
    requires Walk(d, ChildName(n, k), below)
    ensures WalkSome(d, n, ks + [k], Under(k, below) + rels)
    ensures WalkPairs(d, n, Under(k, below) + rels) == WalkPairs(d, ChildName(n, k), below) + WalkPairs(d, n, rels)
  {
    hide InWalk, NodeOf, ChildName, ChildWords, Plain, WalkPair;
    var front := Under(k, below);
    forall rel ensures rel in front + rels <==> InWalkVia(d, n, ks + [k], rel) {
      UnderIn(k, below, rel);
      if rel != [] && rel[0] == k {
        ToldBelow(d, n, k, rel[1..]);
        assert rel == [k] + rel[1..];
      }
    }
    UnderDeepest(k, below);
    forall i, j | 0 <= i < |front| && 0 <= j < |rels| ensures !(front[i] <= rels[j]) {
      assert rels[j] in rels && front[i][0] == k;
    }
    FirstThen(front, rels);
    forall i | 0 <= i < |below| ensures WalkPair(d, n, front[i]) == WalkPair(d, ChildName(n, k), below[i]) {
      ToldBelow(d, n, k, below[i]);
    }
  }

  lemma WalkAll(d: Store, n: string, ks: seq<string>, rels: seq<Path>)
    requires WalkSome(d, n, ks, rels) && forall w :: w in ks <==> w in ChildWords(d, NodeOf(n)) && Plain(w)
    ensures Walk(d, n, rels)
  {
    hide NodeOf, ChildName, ChildWords, Plain, DeepestFirst;
    forall rel ensures rel in rels <==> InWalk(d, n, rel) {
      assert rel in rels <==> InWalkVia(d, n, ks, rel);
    }
  }

  // ---- where the names are those of the nodes below ----

  function PathsOf(p: Path, rels: seq<Path>): (ps: seq<Path>)
    ensures |ps| == |rels| && forall i | 0 <= i < |rels| :: ps[i] == p + rels[i]
  {
    seq(|rels|, i requires 0 <= i < |rels| => p + rels[i])
  }

  lemma ChildThere(d: Store, p: Path, k: string)
    requires Closed(d) && p != [] && k in ChildWords(d, p)
    ensures p in d && p + [k] in d && !Childless(d, p) && '.' !in k
  {
    ChildWordsIn(d, p, k);
    hide ChildWords;
    assert Rooted(d, p + [k]);
    assert k in p + [k] && p <= p + [k];
    PrefixIn(d, p + [k], p);
  }

  lemma NodeNotEmpty(n: string)
    ensures NodeOf(n) != []
  {
  }

  lemma VarsNode()
    ensures NodeOf("vars") == ["vars", "vars"] && NodeOf("") == ["vars"]
  {
    hide NodePath, Split;
    assert Controlled("vars") == "vars" + "." + "vars";
    assert Controlled("") == "vars" + "." + "";
    NodePathExtend("vars", "vars");
    NodePathExtend("vars", "");
    WordPath("vars");
  }

  lemma SpellableChild(d: Store, n: string, k: string)
    requires Closed(d) && k in ChildWords(d, NodeOf(n)) && Plain(k) && Spellable(d, n)
    ensures Steady(n) && Spellable(d, ChildName(n, k)) && NodeOf(ChildName(n, k)) == NodeOf(n) + [k] && '.' !in k
  {
    VarsNode();
    NodeNotEmpty(n);
    ChildThere(d, NodeOf(n), k);
    PlainIs(k);
    hide NodeOf, Childless, ChildWords, Plain, Closed;
    if n != "vars" {
      SteadyChild(n, k);
    }
  }

  lemma PlainIs(k: string)
    requires Plain(k)
    ensures k != ""
  {
  }

  /** Below a spellable name the visited names denote the nodes below, one by one. */
  lemma {:induction false} WalkedBelow(d: Store, n: string, rel: Path)
    requires Closed(d) && Spellable(d, n)
    ensures Walked(d, n, rel) <==> (rel == [] || NodeOf(n) + rel in d) && forall w | w in rel :: Plain(w)
    ensures Walked(d, n, rel) ==> NodeOf(Spelled(n, rel)) == NodeOf(n) + rel
    decreases |rel|
  {
    var p := NodeOf(n);
    if rel == [] {
      assert p + [] == p;
    } else {
      var k, rest := rel[0], rel[1..];
      assert rel == [k] + rest && p + rel == p + [k] + rest;
      NodeNotEmpty(n);
      hide NodeOf, ChildWords, Plain, Closed, Spellable, ChildName, Spelled, Steady;
      SpelledStep(n, k, rest);
      ChildWordsIn(d, p, k);
      if p + rel in d {
        PrefixIn(d, p + rel, p + [k]);
      }
      if Plain(k) && p + [k] in d {
        SpellableChild(d, n, k);
        WalkedBelow(d, ChildName(n, k), rest);
        assert p + [k] + [] == p + [k];
      }
    }
  }

  lemma ToldReach(d: Store, n: string, rel: Path)
    requires Closed(d) && Spellable(d, n)
    ensures InWalk(d, n, rel) <==> InReach(d, NodeOf(n), NodeOf(n) + rel)
    ensures InWalk(d, n, rel) ==> NodeOf(Spelled(n, rel)) == NodeOf(n) + rel
  {
    WalkedBelow(d, n, rel);
    hide NodeOf, Walked, Spelled, Closed, Spellable, Plain;
    var p := NodeOf(n);
    assert (p + rel)[|p|..] == rel && p + [] == p;
  }

  /** So there a read returns everything within reach below, under the names of the nodes. */
  lemma WalkReads(d: Store, n: string, rels: seq<Path>)
    requires Closed(d) && Spellable(d, n) && Walk(d, n, rels)
    ensures Reads(d, NodeOf(n), PathsOf(NodeOf(n), rels)) && AllBelow(NodeOf(n), PathsOf(NodeOf(n), rels))
    ensures Pairs(d, n, NodeOf(n), PathsOf(NodeOf(n), rels)) == WalkPairs(d, n, rels)
    ensures NamedNodes(n, rels) == PathsOf(NodeOf(n), rels)
  {
    var p := NodeOf(n);
    var order := PathsOf(p, rels);
    hide NodeOf, InWalk, Spelled, Closed, Spellable;
    forall i | 0 <= i < |rels|
      ensures order[i] == p + rels[i] && order[i][|p|..] == rels[i] && NodeOf(Spelled(n, rels[i])) == order[i]
    {
      assert rels[i] in rels;
      ToldReach(d, n, rels[i]);
    }
    forall q ensures q in order <==> InReach(d, p, q) {
      if p <= q {
        assert q == p + q[|p|..];
        ToldReach(d, n, q[|p|..]);
        if q[|p|..] in rels {
          var i :| 0 <= i < |rels| && rels[i] == q[|p|..];
          assert order[i] == q;
        }
      }
      if q in order {
        var i :| 0 <= i < |order| && order[i] == q;
        assert rels[i] in rels && q[|p|..] == rels[i];
      }
    }
    PathsDeepest(p, rels);
  }

  lemma PrefixTail(p: Path, a: Path, b: Path)
    ensures p + a <= p + b <==> a <= b
  {
    assert (p + a)[|p|..] == a && (p + b)[|p|..] == b;
    if p + a <= p + b {
      assert (p + b)[..|p + a|] == p + a;
      assert b[..|a|] == (p + b)[|p|..|p + a|] == a;
    }
  }

  lemma PathsDeepest(p: Path, rels: seq<Path>)
    requires DeepestFirst(rels)
    ensures DeepestFirst(PathsOf(p, rels))
  {
    forall i, j | 0 <= i < j < |rels| ensures !(PathsOf(p, rels)[i] <= PathsOf(p, rels)[j]) {
      PrefixTail(p, rels[i], rels[j]);
    }
  }

  /** The nodes the visited names denote. */
  function NamedNodes(n: string, rels: seq<Path>): (ps: seq<Path>)
    ensures |ps| == |rels| && forall i | 0 <= i < |rels| :: ps[i] == NodeOf(Spelled(n, rels[i]))
  {
    seq(|rels|, i requires 0 <= i < |rels| => NodeOf(Spelled(n, rels[i])))
  }

  // ---- deleting what was read ----

  /** What a whole delete removes: what its read tells, or the node itself when that is nothing. */
  function Deletes(n: string, rels: seq<Path>): seq<Path> { if rels == [] then [NodeOf(n)] else NamedNodes(n, rels) }

  /** Deleting nodes gives no node a value and takes it from those on the list. */
  lemma {:induction false} ClearedLess(d: Store, ps: seq<Path>, q: Path)
    ensures q in Cleared(d, ps) ==> q in d
    ensures Val(Cleared(d, ps), q) == if q in ps then "" else Val(d, q)
  {
    hide Remove;
    if ps != [] {
      var n := |ps| - 1;
      ClearedLess(d, ps[..n], q);
      LastRemoved(Cleared(d, ps[..n]), ps[n]);
      assert ps == ps[..n] + [ps[n]];
      assert q != ps[n] ==> SameAt(Cleared(d, ps[..n]), Cleared(d, ps), q);
    }
  }

  lemma {:induction false} WalkedLess(d: Store, d': Store, n: string, rel: Path)
    requires Walked(d', n, rel) && forall q :: q in d' ==> q in d
    ensures Walked(d, n, rel)
    decreases |rel|
  {
    if rel != [] {
      hide NodeOf, ChildWords, Plain, ChildName;
      ChildWordsIn(d, NodeOf(n), rel[0]);
      ChildWordsIn(d', NodeOf(n), rel[0]);
      WalkedLess(d, d', ChildName(n, rel[0]), rel[1..]);
    }
  }

  lemma ToldIsDeleted(d: Store, n: string, rels: seq<Path>, rel: Path)
    requires Walk(d, n, rels) && InWalk(d, n, rel)
    ensures NodeOf(Spelled(n, rel)) in Deletes(n, rels)
  {
    hide NodeOf, InWalk, Spelled, DeepestFirst;
    assert rel in rels;
    var i :| 0 <= i < |rels| && rels[i] == rel;
    assert NamedNodes(n, rels)[i] == NodeOf(Spelled(n, rel));
  }

  /** After deleting what a whole read tells, the same read tells nothing, whatever the name. */
  lemma NothingTold(d: Store, n: string, rels: seq<Path>)
    requires Walk(d, n, rels)
    ensures Walk(Cleared(d, Deletes(n, rels)), n, [])
  {
    var ps := Deletes(n, rels);
    var d' := Cleared(d, ps);
    assert DeepestFirst([]);
    hide NodeOf, Cleared, Walked, Spelled, DeepestFirst, Deletes;
    forall q ensures q in d' ==> q in d {
      ClearedLess(d, ps, q);
    }
    forall rel ensures !InWalk(d', n, rel) {
      ClearedLess(d, ps, NodeOf(Spelled(n, rel)));
      if Walked(d', n, rel) {
        WalkedLess(d, d', n, rel);
      }
      if InWalk(d, n, rel) {
        ToldIsDeleted(d, n, rels, rel);
      }
    }
  }

  lemma NothingSpelled(n: string)
    ensures Spelled(n, []) == n
  {
  }

  lemma WalkedOn(d: Store, n: string, rel: Path)
    requires Closed(d) && Walked(d, n, rel) && rel != []
    ensures Plain(rel[0]) && '.' !in rel[0] && Walked(d, ChildName(n, rel[0]), rel[1..])
    ensures Spelled(ChildName(n, rel[0]), rel[1..]) == Spelled(n, rel)
  {
    hide NodeOf, ChildWords, Plain, ChildName, Spelled, Closed;
    NodeNotEmpty(n);
    ChildThere(d, NodeOf(n), rel[0]);
    SpelledStep(n, rel[0], rel[1..]);
    assert rel == [rel[0]] + rel[1..];
  }

  lemma OneChildHidden(n: string, k: string)
    requires '.' !in k && Plain(k)
    ensures HasHiddenWord(ChildName(n, k)) <==> HasHiddenWord(n)
  {
    hide Split;
    SplitPiece(k, '.');
    SplitPiece("", '.');
    DotSplit(n, k);
  }

  /** A visited name has a hidden word exactly when the name of the read has one. */
  lemma {:induction false} WalkedHidden(d: Store, n: string, rel: Path)
    requires Closed(d) && Walked(d, n, rel)
    ensures HasHiddenWord(Spelled(n, rel)) <==> HasHiddenWord(n)
    decreases |rel|
  {
    hide *;
    if rel == [] {
      NothingSpelled(n);
    } else {
      WalkedOn(d, n, rel);
      OneChildHidden(n, rel[0]);
      WalkedHidden(d, ChildName(n, rel[0]), rel[1..]);
    }
  }

  /** When a delete of everything a read of `n` tells spares the bookkeeping. */
  ghost predicate Spares(d: Store, n: string, rels: seq<Path>) {
    !HasHiddenWord(n) || (rels == [] && NothingToDelete(d, NodeOf(n)))
  }

  /** Exactly when the name has no hidden word, or the delete does nothing at all. */
  lemma SparesExactly(d: Store, n: string, rels: seq<Path>)
    requires Closed(d) && Walk(d, n, rels)
    ensures MetaSame(d, Cleared(d, Deletes(n, rels))) <==> Spares(d, n, rels)
  {
    hide NodeOf, HasHiddenWord, Meta, Cleared, Closed, Walked, Spelled, NothingToDelete, Remove;
    if rels == [] {
      NodeIsMeta(n);
      OneLessCleared(d, NodeOf(n));
      RemoveSparesExactly(d, NodeOf(n));
    } else {
      var ps := NamedNodes(n, rels);
      forall i | 0 <= i < |ps| ensures Meta(ps[i]) <==> HasHiddenWord(n) {
        assert rels[i] in rels;
        WalkedHidden(d, n, rels[i]);
        NodeIsMeta(Spelled(n, rels[i]));
      }
      if !HasHiddenWord(n) {
        ClearedSparesMeta(d, ps);
      } else {
        assert rels[0] in rels && Val(d, ps[0]) != "";
        ClearedLess(d, ps, ps[0]);
        assert ps[0] in ps;
        assert !SameAt(d, Cleared(d, ps), ps[0]);
      }
    }
  }

  // ---- and the records of subscriptions ----

  predicate NamesObservers(n: string) { "_observers" in Split(n, '.') }

  lemma NodeIsOfRecords(n: string)
    ensures OfRecords(NodeOf(n)) <==> NamesObservers(n)
  {
    hide Split, NodePath;
    VarsFirst(n);
    ControlledWords(n);
    if NamesObservers(n) {
      WordIsThere(n, "_observers");
    }
  }

  lemma OneChildOfRecords(n: string, k: string)
    requires '.' !in k && Plain(k)
    ensures NamesObservers(ChildName(n, k)) <==> NamesObservers(n)
  {
    hide Split;
    SplitPiece(k, '.');
    SplitPiece("", '.');
    DotSplit(n, k);
  }

  lemma {:induction false} WalkedOfRecords(d: Store, n: string, rel: Path)
    requires Closed(d) && Walked(d, n, rel)
    ensures NamesObservers(Spelled(n, rel)) <==> NamesObservers(n)
    decreases |rel|
  {
    hide *;
    if rel == [] {
      NothingSpelled(n);
    } else {
      WalkedOn(d, n, rel);
      OneChildOfRecords(n, rel[0]);
      WalkedOfRecords(d, ChildName(n, rel[0]), rel[1..]);
    }
  }

  /** When a delete spares the records: the name has no word `_observers`, or the delete does nothing at all. */
  ghost predicate SparesRecords(d: Store, n: string, rels: seq<Path>) {
    !NamesObservers(n) || (rels == [] && NothingToDelete(d, NodeOf(n)))
  }

  lemma {:induction false} ClearedSparesRecords(d: Store, ps: seq<Path>)
    requires forall i | 0 <= i < |ps| :: !OfRecords(ps[i])
    ensures RecordsSame(d, Cleared(d, ps))
  {
    hide OfRecords, Remove;
    if ps != [] {
      var n := |ps| - 1;
      var d1 := Cleared(d, ps[..n]);
      ClearedSparesRecords(d, ps[..n]);
      LastRemoved(d1, ps[n]);
      forall m | OfRecords(m) ensures SameAt(d, Cleared(d, ps), m) {
        assert SameAt(d, d1, m);
        assert SameAt(d1, Remove(d1, ps[n], false), m);
      }
    }
  }

  lemma RemoveSparesRecords(d: Store, p: Path)
    ensures RecordsSame(d, Remove(d, p, false)) <==> !OfRecords(p) || NothingToDelete(d, p)
  {
    var d' := Remove(d, p, false);
    LastRemoved(d, p);
    hide OfRecords, Childless;
    if OfRecords(p) && !NothingToDelete(d, p) {
      assert !SameAt(d, d', p);
    } else {
      forall m | OfRecords(m) ensures SameAt(d, d', m) {
        assert m != p ==> SameAt(d, d', m);
      }
    }
  }

  lemma SparesRecordsExactly(d: Store, n: string, rels: seq<Path>)
    requires Closed(d) && Walk(d, n, rels)
    ensures RecordsSame(d, Cleared(d, Deletes(n, rels))) <==> SparesRecords(d, n, rels)
  {
    hide NodeOf, NamesObservers, OfRecords, Cleared, Closed, Walked, Spelled, NothingToDelete, Remove;
    if rels == [] {
      NodeIsOfRecords(n);
      OneLessCleared(d, NodeOf(n));
      RemoveSparesRecords(d, NodeOf(n));
    } else {
      var ps := NamedNodes(n, rels);
      forall i | 0 <= i < |ps| ensures OfRecords(ps[i]) <==> NamesObservers(n) {
        assert rels[i] in rels;
        WalkedOfRecords(d, n, rels[i]);
        NodeIsOfRecords(Spelled(n, rels[i]));
      }
      if !NamesObservers(n) {
        ClearedSparesRecords(d, ps);
      } else {
        assert rels[0] in rels && Val(d, ps[0]) != "";
        ClearedLess(d, ps, ps[0]);
        assert ps[0] in ps;
        assert !SameAt(d, Cleared(d, ps), ps[0]);
      }
    }
  }
}
