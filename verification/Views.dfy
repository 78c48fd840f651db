/** What each change to the store does to the entries: one entry written, one subtree dropped, all others as before. */
module Views {
  import opened Text
  import opened Decimal
  import opened FlatStore
  import opened Keys

  function View(d: Store, k: Key): string { Val(d, PathOf(k)) }

  function PutKey(d: Store, k: Key, x: string): Store { Put(d, PathOf(k), x) }
  function DropKey(d: Store, k: Key): Store { Remove(d, PathOf(k), false) }
  function CutSlot(d: Store, v: Path, i: nat): Store { Remove(d, SlotPath(v, i), true) }
  function CutById(d: Store, v: Path, c: string): Store { Remove(d, ByIdPath(v, c), true) }
  function CutRecord(d: Store, c: string): Store { Remove(d, PathOf(RegPos(c)), true) }

  predicate HasSlot(d: Store, v: Path, i: nat) { SlotPath(v, i) in d }
  predicate Has(d: Store, k: Key) { PathOf(k) in d }

  predicate OfSlot(k: Key, v: Path, i: nat) { k == ObsClient(v, i) || k == ObsTag(v, i) }
  predicate OfIndex(k: Key, v: Path, c: string) { k.ObsIndex? && k.v == v && k.c == c }
  predicate OfRecord(k: Key, c: string) {
    (k.RegPos? || k.RegApi? || k.RegLive? || k.SubCount? || k.SubSlot?) && k.c == c
  }

  // ---- which entries lie below a node ----

  lemma PrefixAtObservers(v: Path, r: Path, v': Path, r': Path)
    requires "_observers" !in v && "_observers" !in v'
    ensures v + ["_observers"] + r <= v' + ["_observers"] + r' <==> v == v' && r <= r'
  {
    var p, p' := v + ["_observers"] + r, v' + ["_observers"] + r';
    if p <= p' {
      var z := p'[|p|..];
      assert p' == v + ["_observers"] + (r + z);
      SplitAtObservers(v, r + z, v', r');
      assert r <= r + z;
    }
    if v == v' && r <= r' {
      assert p' == p + r'[|r|..];
    }
  }

  /** Nothing outside a variable's observer subtree starts with a path inside it. */
  lemma OnlyObserversBelow(v: Path, r: Path, k: Key)
    requires VarOk(v) && KeyOk(k) && v + ["_observers"] + r <= PathOf(k)
    ensures OfVariable(k) && !k.LockFlag?
  {
    hide Rel;
    var p := PathOf(k);
    assert p[|v|] == "_observers" && p[0] == "vars";
    LockPath(k);
  }

  /** A short prefix, word by word. */
  lemma StartsWith(r: Path, s: Path)
    requires 2 <= |r| <= 4
    ensures r <= s <==>
              && |r| <= |s| && r[0] == s[0] && r[1] == s[1]
              && (|r| > 2 ==> r[2] == s[2])
              && (|r| > 3 ==> r[3] == s[3])
  {
    if |r| <= |s| && r[0] == s[0] && r[1] == s[1] && (|r| > 2 ==> r[2] == s[2]) && (|r| > 3 ==> r[3] == s[3]) {
      assert r == s[..|r|];
    }
  }

  lemma UnderSlot(v: Path, i: nat, k: Key)
    requires VarOk(v) && KeyOk(k)
    ensures SlotPath(v, i) <= PathOf(k) <==> OfSlot(k, v, i)
  {
    hide Itoa;
    var r := ["list", Itoa(i)];
    if OfVariable(k) && !k.LockFlag? {
      PrefixAtObservers(v, r, k.v, Rel(k));
      StartsWith(r, Rel(k));
      RelOf(k);
      DigitsAreNoName(i);
      if (k.ObsClient? || k.ObsTag?) && Itoa(i) == Itoa(k.i) {
        ItoaInjective(i, k.i);
      }
    } else if SlotPath(v, i) <= PathOf(k) {
      OnlyObserversBelow(v, r, k);
    }
  }

  lemma UnderById(v: Path, c: string, k: Key)
    requires VarOk(v) && ClientOk(c) && KeyOk(k)
    ensures ByIdPath(v, c) <= PathOf(k) <==> OfIndex(k, v, c)
  {
    hide Itoa;
    WordPath(c);
    assert ByIdPath(v, c) == v + ["_observers"] + ["byId", c];
    if OfVariable(k) && !k.LockFlag? {
      PrefixAtObservers(v, ["byId", c], k.v, Rel(k));
      StartsWith(["byId", c], Rel(k));
      RelOf(k);
    } else if ByIdPath(v, c) <= PathOf(k) {
      OnlyObserversBelow(v, ["byId", c], k);
    }
  }

  lemma UnderIndex(v: Path, c: string, t: string, k: Key)
    requires VarOk(v) && ClientOk(c) && TagOk(t) && KeyOk(k)
    ensures PathOf(ObsIndex(v, c, t)) <= PathOf(k) <==> OfIndex(k, v, c) && (t == "" || t == k.t)
  {
    hide Itoa;
    var i := ObsIndex(v, c, t);
    RelOf(i);
    if OfVariable(k) && !k.LockFlag? {
      PrefixAtObservers(v, Rel(i), k.v, Rel(k));
      StartsWith(Rel(i), Rel(k));
      RelOf(k);
    } else if PathOf(i) <= PathOf(k) {
      OnlyObserversBelow(v, Rel(i), k);
    }
  }

  lemma UnderRecord(c: string, k: Key)
    requires ClientOk(c) && KeyOk(k)
    ensures PathOf(RegPos(c)) <= PathOf(k) <==> OfRecord(k, c)
  {
    hide Itoa;
    RelOf(RegPos(c));
    RelOf(k);
    var p := PathOf(RegPos(c));
    assert p == ["internal", "clients", "byId", c];
    StartsWith(p, PathOf(k));
    if OfVariable(k) {
      assert PathOf(k)[0] == k.v[0];
    }
  }

  // ---- the effects ----

  lemma PutVal(d: Store, p: Path, x: string, q: Path)
    ensures Val(Put(d, p, x), q) == if q == p then x else Val(d, q)
  {
  }

  lemma PutIn(d: Store, p: Path, x: string, q: Path)
    requires p != []
    ensures q in Put(d, p, x) <==> q in d || (q != [] && q <= p)
  {
  }

  lemma RemoveVal(d: Store, p: Path, cascade: bool, q: Path)
    requires Closed(d) && p != []
    ensures Val(Remove(d, p, cascade), q) == if q == p || (cascade && p <= q) then "" else Val(d, q)
  {
    if p !in d && p <= q && q in d {
      PrefixIn(d, q, p);
    }
  }

  lemma RemoveIn(d: Store, p: Path, cascade: bool, q: Path)
    requires Closed(d) && p != []
    ensures cascade ==> (q in Remove(d, p, cascade) <==> q in d && !(p <= q))
    ensures q != p && !cascade ==> (q in Remove(d, p, cascade) <==> q in d)
  {
    if p !in d && p <= q && q in d {
      PrefixIn(d, q, p);
    }
  }

  lemma Put1(d: Store, k: Key, x: string, k': Key)
    requires KeyOk(k) && KeyOk(k')
    ensures View(PutKey(d, k, x), k') == if k' == k then x else View(d, k')
  {
    hide PathOf;
    PutVal(d, PathOf(k), x, PathOf(k'));
    if PathOf(k) == PathOf(k') {
      PathOfInjective(k, k');
    }
  }

  /** Writing one entry changes that entry only. */
  lemma PutViews(d: Store, k: Key, x: string)
    requires KeyOk(k)
    ensures forall k' | KeyOk(k') :: View(PutKey(d, k, x), k') == if k' == k then x else View(d, k')
  {
    hide View, PutKey, KeyOk;
    forall k' | KeyOk(k') ensures View(PutKey(d, k, x), k') == if k' == k then x else View(d, k') {
      Put1(d, k, x, k');
    }
  }

  lemma DropViews(d: Store, k: Key)
    requires Closed(d) && KeyOk(k)
    ensures forall k' | KeyOk(k') :: View(DropKey(d, k), k') == if k' == k then "" else View(d, k')
  {
    hide PathOf, KeyOk;
    forall k' | KeyOk(k') ensures View(DropKey(d, k), k') == if k' == k then "" else View(d, k') {
      NonEmptyPath(k);
      RemoveVal(d, PathOf(k), false, PathOf(k'));
      if PathOf(k) == PathOf(k') {
        PathOfInjective(k, k');
      }
    }
  }

  lemma NonEmptyPath(k: Key)
    ensures PathOf(k) != []
  {
  }

  lemma CutSlotViews(d: Store, v: Path, i: nat)
    requires Closed(d) && VarOk(v)
    ensures forall k | KeyOk(k) :: View(CutSlot(d, v, i), k) == if OfSlot(k, v, i) then "" else View(d, k)
  {
    hide PathOf, KeyOk, OfSlot;
    forall k | KeyOk(k) ensures View(CutSlot(d, v, i), k) == if OfSlot(k, v, i) then "" else View(d, k) {
      RemoveVal(d, SlotPath(v, i), true, PathOf(k));
      UnderSlot(v, i, k);
    }
  }

  lemma CutByIdViews(d: Store, v: Path, c: string)
    requires Closed(d) && VarOk(v) && ClientOk(c)
    ensures forall k | KeyOk(k) :: View(CutById(d, v, c), k) == if OfIndex(k, v, c) then "" else View(d, k)
  {
    hide PathOf, KeyOk, OfIndex, NodePath;
    forall k | KeyOk(k) ensures View(CutById(d, v, c), k) == if OfIndex(k, v, c) then "" else View(d, k) {
      RemoveVal(d, ByIdPath(v, c), true, PathOf(k));
      UnderById(v, c, k);
    }
  }

  lemma CutRecordViews(d: Store, c: string)
    requires Closed(d) && ClientOk(c)
    ensures forall k | KeyOk(k) :: View(CutRecord(d, c), k) == if OfRecord(k, c) then "" else View(d, k)
  {
    hide PathOf, KeyOk, OfRecord;
    NonEmptyPath(RegPos(c));
    forall k | KeyOk(k) ensures View(CutRecord(d, c), k) == if OfRecord(k, c) then "" else View(d, k) {
      RemoveVal(d, PathOf(RegPos(c)), true, PathOf(k));
      UnderRecord(c, k);
    }
  }

  // ---- shape is kept ----

  lemma PathWords(k: Key)
    requires KeyOk(k)
    ensures PathOf(k) != [] && forall w | w in PathOf(k) :: '.' !in w
  {
    hide Itoa, Rel;
    RelWords(k);
    assert PathOf(k) == Root(k) + Rel(k);
  }

  lemma RelWords(k: Key)
    requires KeyOk(k)
    ensures |Rel(k)| > 0 && forall w | w in Rel(k) :: '.' !in w
  {
    hide Itoa, Split, NodePath;
    RelOf(k);
    if k.ObsClient? || k.ObsTag? || k.RegSlot? || k.SubSlot? {
      DigitsAreNoName(k.i);
    }
  }

  lemma PutKeyClosed(d: Store, k: Key, x: string)
    requires Closed(d) && KeyOk(k)
    ensures Closed(PutKey(d, k, x))
  {
    PathWords(k);
    PutClosed(d, PathOf(k), x);
  }
}
