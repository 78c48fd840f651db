/** Which nodes the registry's operations create and drop, what they leave alone, and the invariant they keep. */
module RegistryNodes {
  import opened Options
  import opened Decimal
  import opened FlatStore
  import opened Keys
  import opened Views
  import opened ObserverNodes
  import opened Registry

  // ---- the two halves of the store ----

  ghost predicate VarsSame(d: Store, d': Store) {
    forall p {:trigger SameAt(d, d', p)} | p != [] && p[0] == "vars" :: SameAt(d, d', p)
  }

  ghost predicate InternalSame(d: Store, d': Store) {
    forall p {:trigger SameAt(d, d', p)} | p != [] && p[0] == "internal" :: SameAt(d, d', p)
  }

  lemma VarsSameTrans(d: Store, d1: Store, d2: Store)
    requires VarsSame(d, d1) && VarsSame(d1, d2)
    ensures VarsSame(d, d2)
  {
    forall p | p != [] && p[0] == "vars" ensures SameAt(d, d2, p) {
      assert SameAt(d, d1, p) && SameAt(d1, d2, p);
    }
  }

  lemma VarsSameObservers(d: Store, d': Store, v: Path)
    requires VarOk(v) && VarsSame(d, d')
    ensures ObserversSame(d, d', v)
  {
    forall p | v + ["_observers"] <= p ensures SameAt(d, d', p) {
      assert p[0] == "vars";
    }
  }

  /** Nothing an operation does below a variable reaches the registry. */
  lemma OutsideIsInternal(d: Store, d': Store, v: Path)
    requires VarOk(v) && SameOutside(d, d', v)
    ensures InternalSame(d, d')
  {
    forall p | p != [] && p[0] == "internal" ensures SameAt(d, d', p) {
      assert Framed(d, d', v, p);
      NoPrefix(v + ["_observers"], p, 0);
      NoPrefix(p, v, 0);
    }
  }

  lemma InternalPath(k: Key, p: Path)
    requires KeyOk(k) && !OfVariable(k)
    ensures PathOf(k)[0] == "internal"
    ensures p != [] && p <= PathOf(k) ==> p[0] == "internal"
    ensures PathOf(k) <= p ==> p[0] == "internal"
  {
    hide Rel;
    assert PathOf(k)[0] == "internal";
  }

  lemma PutInternal(d: Store, k: Key, x: string)
    requires KeyOk(k) && !OfVariable(k)
    ensures VarsSame(d, PutKey(d, k, x))
  {
    hide PathOf, KeyOk;
    forall p | p != [] && p[0] == "vars" ensures SameAt(d, PutKey(d, k, x), p) {
      InternalPath(k, p);
      PutVal(d, PathOf(k), x, p);
      NonEmptyPath(k);
      PutIn(d, PathOf(k), x, p);
    }
  }

  lemma DropInternal(d: Store, k: Key)
    requires Closed(d) && KeyOk(k) && !OfVariable(k)
    ensures VarsSame(d, DropKey(d, k))
  {
    hide PathOf, KeyOk, Closed;
    forall p | p != [] && p[0] == "vars" ensures SameAt(d, DropKey(d, k), p) {
      InternalPath(k, p);
      NonEmptyPath(k);
      RemoveVal(d, PathOf(k), false, p);
      RemoveIn(d, PathOf(k), false, p);
    }
  }

  lemma CutInternal(d: Store, c: string)
    requires Closed(d) && ClientOk(c)
    ensures VarsSame(d, CutRecord(d, c))
  {
    hide PathOf, Closed;
    forall p | p != [] && p[0] == "vars" ensures SameAt(d, CutRecord(d, c), p) {
      InternalPath(RegPos(c), p);
      NonEmptyPath(RegPos(c));
      RemoveVal(d, PathOf(RegPos(c)), true, p);
      RemoveIn(d, PathOf(RegPos(c)), true, p);
    }
  }

  // ---- the nodes below one client's `observing` ----

  function ObservingPath(c: string): Path { ["internal", "clients", "byId", c, "observing"] }

  predicate HasChild(d: Store, c: string, w: string) { ObservingPath(c) + [w] in d }

  predicate OfObserving(k: Key, c: string) { (k.SubCount? || k.SubSlot?) && k.c == c }

  ghost predicate ObservingSame(d: Store, d': Store, c: string) {
    forall p {:trigger SameAt(d, d', p)} | ObservingPath(c) <= p :: SameAt(d, d', p)
  }

  lemma ObservingTrans(d: Store, d1: Store, d2: Store, c: string)
    requires ObservingSame(d, d1, c) && ObservingSame(d1, d2, c)
    ensures ObservingSame(d, d2, c)
  {
    forall p | ObservingPath(c) <= p ensures SameAt(d, d2, p) {
      assert SameAt(d, d1, p) && SameAt(d1, d2, p);
    }
  }

  lemma InternalSameObserving(d: Store, d': Store, c: string)
    requires InternalSame(d, d')
    ensures ObservingSame(d, d', c)
  {
    forall p | ObservingPath(c) <= p ensures SameAt(d, d', p) {
      assert p[0] == "internal";
    }
  }

  lemma ObservingKeyPath(k: Key)
    requires KeyOk(k) && (k.SubCount? || k.SubSlot?)
    ensures PathOf(k) == ObservingPath(k.c) + [if k.SubCount? then "count" else Itoa(k.i)]
  {
    hide Itoa;
    RelOf(k);
  }

  lemma UnderObserving(c: string, k: Key)
    requires ClientOk(c) && KeyOk(k)
    ensures ObservingPath(c) <= PathOf(k) <==> OfObserving(k, c)
  {
    hide Itoa;
    RelOf(k);
    var p, q := ObservingPath(c), PathOf(k);
    if OfVariable(k) {
      NoPrefix(p, q, 0);
    } else if p <= q {
      assert q[2] == p[2] && q[3] == p[3] && q[4] == p[4];
    }
    if OfObserving(k, c) {
      ObservingKeyPath(k);
    }
  }

  lemma PutObserving(d: Store, k: Key, x: string, c: string)
    requires ClientOk(c) && KeyOk(k) && !OfObserving(k, c)
    ensures ObservingSame(d, PutKey(d, k, x), c)
  {
    hide PathOf, KeyOk, OfObserving;
    UnderObserving(c, k);
    NonEmptyPath(k);
    forall p | ObservingPath(c) <= p ensures SameAt(d, PutKey(d, k, x), p) {
      PutVal(d, PathOf(k), x, p);
      PutIn(d, PathOf(k), x, p);
      assert p <= PathOf(k) ==> ObservingPath(c) <= PathOf(k);
    }
  }

  lemma DropObserving(d: Store, k: Key, c: string)
    requires Closed(d) && ClientOk(c) && KeyOk(k) && !OfObserving(k, c)
    ensures ObservingSame(d, DropKey(d, k), c)
  {
    hide PathOf, KeyOk, OfObserving, Closed;
    UnderObserving(c, k);
    NonEmptyPath(k);
    forall p | ObservingPath(c) <= p ensures SameAt(d, DropKey(d, k), p) {
      RemoveVal(d, PathOf(k), false, p);
      RemoveIn(d, PathOf(k), false, p);
    }
  }

  lemma CutOtherObserving(d: Store, c: string, c': string)
    requires Closed(d) && ClientOk(c) && ClientOk(c') && c != c'
    ensures ObservingSame(d, CutRecord(d, c), c')
  {
    hide Closed;
    RelOf(RegPos(c));
    var r := PathOf(RegPos(c));
    assert r == ["internal", "clients", "byId", c];
    forall p | ObservingPath(c') <= p ensures SameAt(d, CutRecord(d, c), p) {
      RemoveVal(d, r, true, p);
      RemoveIn(d, r, true, p);
      assert p[3] == ObservingPath(c')[3] == c';
      NoPrefix(r, p, 3);
    }
  }

  // ---- the invariant of one client's list ----

  /** The nodes below `observing` are the counter and the slots in use, and have nothing below them. */
  ghost predicate RecordOk(d: Store, c: string) {
    && SubsCount(d, c) >= 0
    && (forall x | x in Subs(d, c) :: x != "")
    && Flat(d, c)
    && ChildrenOk(d, c, |Subs(d, c)|)
  }

  ghost predicate Flat(d: Store, c: string) {
    forall p {:trigger p in d} | p in d && ObservingPath(c) <= p :: |p| <= 6
  }

  ghost predicate ChildrenOk(d: Store, c: string, n: nat) {
    forall w {:trigger HasChild(d, c, w)} :: HasChild(d, c, w) ==> w == "count" || NumeralBelow(n, w)
  }

  lemma SubKeySame(d: Store, d': Store, k: Key)
    requires KeyOk(k) && (k.SubCount? || k.SubSlot?) && ObservingSame(d, d', k.c)
    ensures View(d', k) == View(d, k)
  {
    hide Itoa;
    ObservingKeyPath(k);
    assert ObservingPath(k.c) <= PathOf(k);
    assert SameAt(d, d', PathOf(k));
  }

  lemma RecordCarries(d: Store, d': Store, c: string)
    requires ClientOk(c) && ObservingSame(d, d', c)
    ensures Subs(d', c) == Subs(d, c)
    ensures RecordOk(d, c) ==> RecordOk(d', c)
  {
    hide View, KeyOk, ClientOk;
    RecordKeysOk(c, 0);
    SubKeySame(d, d', SubCount(c));
    forall i: nat ensures View(d', SubSlot(c, i)) == View(d, SubSlot(c, i)) {
      RecordKeysOk(c, i);
      SubKeySame(d, d', SubSlot(c, i));
    }
    if RecordOk(d, c) {
      forall w ensures HasChild(d', c, w) <==> HasChild(d, c, w) {
        assert SameAt(d, d', ObservingPath(c) + [w]);
      }
      forall p | p in d' && ObservingPath(c) <= p ensures |p| <= 6 {
        assert SameAt(d, d', p);
      }
    }
  }

  lemma PutChild(d: Store, k: Key, x: string, c: string, w: string)
    requires ClientOk(c) && KeyOk(k)
    ensures HasChild(PutKey(d, k, x), c, w)
       <==> HasChild(d, c, w) || (k == SubCount(c) && w == "count") || (k.SubSlot? && k.c == c && w == Itoa(k.i))
  {
    hide Itoa;
    var p := ObservingPath(c) + [w];
    NonEmptyPath(k);
    PutIn(d, PathOf(k), x, p);
    UnderObserving(c, k);
    if OfObserving(k, c) {
      ObservingKeyPath(k);
      assert |PathOf(k)| == 6 == |p|;
      assert p <= PathOf(k) <==> p == PathOf(k);
      assert p[5] == w && PathOf(k)[5] == if k.SubCount? then "count" else Itoa(k.i);
    } else {
      assert p <= PathOf(k) ==> ObservingPath(c) <= PathOf(k);
    }
  }

  lemma PutFlat(d: Store, k: Key, x: string, c: string)
    requires ClientOk(c) && KeyOk(k) && Flat(d, c)
    ensures Flat(PutKey(d, k, x), c)
  {
    hide Itoa;
    NonEmptyPath(k);
    UnderObserving(c, k);
    forall p | p in PutKey(d, k, x) && ObservingPath(c) <= p ensures |p| <= 6 {
      PutIn(d, PathOf(k), x, p);
      if p !in d {
        assert ObservingPath(c) <= PathOf(k);
        ObservingKeyPath(k);
      }
    }
  }

  lemma DropFlat(d: Store, k: Key, c: string)
    requires Closed(d) && KeyOk(k) && Flat(d, c)
    ensures Flat(DropKey(d, k), c)
  {
    hide PathOf, KeyOk, Closed;
    NonEmptyPath(k);
    forall p | p in DropKey(d, k) && ObservingPath(c) <= p ensures |p| <= 6 {
      if p != PathOf(k) {
        RemoveIn(d, PathOf(k), false, p);
      } else {
        DropShrinks(d, k);
      }
    }
  }

  lemma DropShrinks(d: Store, k: Key)
    ensures forall p :: p in DropKey(d, k) ==> p in d
  {
  }

  /** With nothing below it, a slot's node goes when the slot is deleted. */
  lemma DropChild(d: Store, c: string, i: nat, w: string)
    requires Closed(d) && ClientOk(c) && Flat(d, c)
    ensures HasChild(DropKey(d, SubSlot(c, i)), c, w) <==> HasChild(d, c, w) && w != Itoa(i)
  {
    hide Itoa, Closed;
    var k := SubSlot(c, i);
    var q, p := PathOf(k), ObservingPath(c) + [w];
    ObservingKeyPath(k);
    RemoveIn(d, q, false, p);
    if p == q {
      assert p[5] == w && q[5] == Itoa(i);
      forall r | r in d && q <= r ensures r == q {
        assert ObservingPath(c) <= q <= r;
        assert |r| <= 6 && |q| == 6;
      }
    }
  }

  // ---- the registry's invariant ----

  lemma {:induction false} SubShiftedNodes(d: Store, c: string, i: nat, j: nat, w: string)
    requires Closed(d) && ClientOk(c) && i <= j && Flat(d, c)
    ensures Closed(SubShifted(d, c, i, j)) && Flat(SubShifted(d, c, i, j), c)
    ensures HasChild(SubShifted(d, c, i, j), c, w) ==> HasChild(d, c, w) || NumeralBelow(j, w)
    decreases j
  {
    hide PutKey, View, Itoa, Closed, Flat, HasChild, ClientOk, KeyOk, NumeralBelow;
    if i < j {
      var d' := SubShifted(d, c, i, j - 1);
      SubShiftedNodes(d, c, i, j - 1, w);
      RecordKeysOk(c, j - 1);
      PutChild(d', SubSlot(c, j - 1), View(d', SubSlot(c, j)), c, w);
      PutFlat(d', SubSlot(c, j - 1), View(d', SubSlot(c, j)), c);
      PutKeyClosed(d', SubSlot(c, j - 1), View(d', SubSlot(c, j)));
      NumeralStep(j, w);
    }
  }

  lemma SubscribeKeepsRecord(d: Store, c: string, full: string, now: string)
    requires Closed(d) && ClientOk(c) && RecordOk(d, c) && full != ""
    ensures RecordOk(Subscribed(d, c, full, now), c)
  {
    var d', s := Subscribed(d, c, full, now), Subs(d, c);
    assert SubsCount(d', c) == |s| + 1 by {
      hide View, Itoa, ClientOk, KeyOk, Subscribed;
      RecordKeysOk(c, 0);
      SubscribedViews(d, c, full, now);
      AtoiItoa(|s| + 1);
    }
    hide Subscribed, Subs, SubsCount, Flat, ChildrenOk, ClientOk, Closed;
    SubscribeAppends(d, c, full, now);
    SubscribeNodes(d, c, full, now);
  }

  lemma SubscribeNodes(d: Store, c: string, full: string, now: string)
    requires ClientOk(c) && Flat(d, c) && ChildrenOk(d, c, |Subs(d, c)|)
    ensures Flat(Subscribed(d, c, full, now), c)
    ensures ChildrenOk(Subscribed(d, c, full, now), c, |Subs(d, c)| + 1)
  {
    var n := |Subs(d, c)|;
    var d1 := PutKey(d, RegLive(c), now);
    LiveKeepsSubs(d, c, c, now);
    assert |Subs(d1, c)| == n == NatOf(SubsCount(d1, c));
    var d2 := PutKey(d1, SubCount(c), Itoa(n + 1));
    var d3 := PutKey(d2, SubSlot(c, n), full);
    assert d3 == Subscribed(d, c, full, now);
    hide PutKey, View, Itoa, HasChild, ClientOk, KeyOk, Subs, SubsCount, Subscribed, NumeralBelow, Flat;
    RecordKeysOk(c, n);
    PutFlat(d, RegLive(c), now, c);
    PutFlat(d1, SubCount(c), Itoa(n + 1), c);
    PutFlat(d2, SubSlot(c, n), full, c);
    forall w ensures HasChild(d3, c, w) ==> w == "count" || NumeralBelow(n + 1, w) {
      PutChild(d, RegLive(c), now, c, w);
      PutChild(d1, SubCount(c), Itoa(n + 1), c, w);
      PutChild(d2, SubSlot(c, n), full, c, w);
      NumeralStep(n + 1, w);
    }
  }

  lemma UnsubscribeKeepsRecord(d: Store, c: string, full: string, now: string)
    requires Closed(d) && ClientOk(c) && RecordOk(d, c)
    ensures RecordOk(Unsubscribed(d, c, full, now), c)
  {
    var d1, s := PutKey(d, RegLive(c), now), Subs(d, c);
    LiveKeepsSubs(d, c, c, now);
    RecordKeysOk(c, 0);
    PutObserving(d, RegLive(c), now, c);
    RecordCarries(d, d1, c);
    assert |s| == NatOf(SubsCount(d1, c)) by {
      assert |Subs(d1, c)| == |s|;
    }
    PutKeyClosed(d, RegLive(c), now);
    hide PutKey, View, Closed, ClientOk, KeyOk, RecordOk, FindSub, SubRemovedAt;
    FindSubFinds(d1, c, full, 0);
    var i := FindSub(d1, c, full, 0, |s|);
    if i >= 0 {
      SubRemovalKeepsRecord(d1, c, i);
    }
  }

  lemma SubRemovalKeepsRecord(d: Store, c: string, i: nat)
    requires Closed(d) && ClientOk(c) && RecordOk(d, c) && i < |Subs(d, c)|
    ensures RecordOk(SubRemovedAt(d, c, i, |Subs(d, c)|), c)
  {
    hide View, ClientOk, SubRemovedAt, Closed, Flat, ChildrenOk, SubsCount, Subs;
    var s := Subs(d, c);
    var n := |s|;
    SubRemovedAtCount(d, c, i, n);
    SubRemovedAtList(d, c, i);
    var s' := s[..i] + s[i + 1..];
    assert Subs(SubRemovedAt(d, c, i, n), c) == s';
    forall x | x in s' ensures x != "" {
      assert x in s;
    }
    SubRemovalNodes(d, c, i, n);
  }

  lemma SubRemovalNodes(d: Store, c: string, i: nat, n: nat)
    requires Closed(d) && ClientOk(c) && i < n && Flat(d, c) && ChildrenOk(d, c, n)
    ensures Flat(SubRemovedAt(d, c, i, n), c) && ChildrenOk(SubRemovedAt(d, c, i, n), c, n - 1)
  {
    var d1 := SubShifted(d, c, i, n - 1);
    var d2 := DropKey(d1, SubSlot(c, n - 1));
    var d3 := PutKey(d2, SubCount(c), Itoa(n - 1));
    assert d3 == SubRemovedAt(d, c, i, n);
    hide PutKey, DropKey, View, Itoa, Closed, HasChild, ClientOk, KeyOk, NumeralBelow, Flat, SubShifted, SubRemovedAt;
    RecordKeysOk(c, n - 1);
    SubShiftedNodes(d, c, i, n - 1, "");
    DropFlat(d1, SubSlot(c, n - 1), c);
    PutFlat(d2, SubCount(c), Itoa(n - 1), c);
    forall w ensures HasChild(d3, c, w) ==> w == "count" || NumeralBelow(n - 1, w) {
      SubShiftedNodes(d, c, i, n - 1, w);
      DropChild(d1, c, n - 1, w);
      PutChild(d2, SubCount(c), Itoa(n - 1), c, w);
      NumeralStep(n, w);
      assert HasChild(d, c, w) ==> w == "count" || NumeralBelow(n, w);
    }
  }

  // ---- what each operation leaves alone ----

  /** Nothing below `vars` differs, nor any client's list except that of `c`. */
  ghost predicate KeptBut(d: Store, d': Store, c: string) {
    && Closed(d')
    && VarsSame(d, d')
    && forall c' {:trigger ObservingSame(d, d', c')} | ClientOk(c') && c' != c :: ObservingSame(d, d', c')
  }

  lemma KeptRefl(d: Store, c: string)
    requires Closed(d)
    ensures KeptBut(d, d, c)
  {
    hide Closed;
    forall c' | ClientOk(c') && c' != c ensures ObservingSame(d, d, c') {
    }
  }

  lemma KeptTrans(d: Store, d1: Store, d2: Store, c: string)
    requires KeptBut(d, d1, c) && KeptBut(d1, d2, c)
    ensures KeptBut(d, d2, c)
  {
    hide Closed, ObservingSame, ClientOk, VarsSame;
    VarsSameTrans(d, d1, d2);
    forall c' | ClientOk(c') && c' != c ensures ObservingSame(d, d2, c') {
      ObservingTrans(d, d1, d2, c');
    }
  }

  lemma PutKept(d: Store, k: Key, x: string, c: string)
    requires Closed(d) && KeyOk(k) && !OfVariable(k) && (k.SubCount? || k.SubSlot? ==> k.c == c)
    ensures KeptBut(d, PutKey(d, k, x), c)
  {
    hide PutKey, Closed, ObservingSame, VarsSame, KeyOk, ClientOk;
    PutKeyClosed(d, k, x);
    PutInternal(d, k, x);
    forall c' | ClientOk(c') && c' != c ensures ObservingSame(d, PutKey(d, k, x), c') {
      PutObserving(d, k, x, c');
    }
  }

  lemma PutStep(d0: Store, d: Store, k: Key, x: string, c: string)
    requires KeptBut(d0, d, c) && KeyOk(k) && !OfVariable(k) && (k.SubCount? || k.SubSlot? ==> k.c == c)
    ensures KeptBut(d0, PutKey(d, k, x), c)
  {
    assert Closed(d);
    hide *;
    PutKept(d, k, x, c);
    KeptTrans(d0, d, PutKey(d, k, x), c);
  }

  lemma DropStep(d0: Store, d: Store, k: Key, c: string)
    requires KeptBut(d0, d, c) && KeyOk(k) && !OfVariable(k) && (k.SubCount? || k.SubSlot? ==> k.c == c)
    ensures KeptBut(d0, DropKey(d, k), c)
  {
    assert Closed(d);
    hide *;
    DropKept(d, k, c);
    KeptTrans(d0, d, DropKey(d, k), c);
  }

  lemma DropKept(d: Store, k: Key, c: string)
    requires Closed(d) && KeyOk(k) && !OfVariable(k) && (k.SubCount? || k.SubSlot? ==> k.c == c)
    ensures KeptBut(d, DropKey(d, k), c)
  {
    hide DropKey, Closed, ObservingSame, VarsSame, KeyOk, ClientOk;
    DropKeyClosed(d, k);
    DropInternal(d, k);
    forall c' | ClientOk(c') && c' != c ensures ObservingSame(d, DropKey(d, k), c') {
      DropObserving(d, k, c');
    }
  }

  lemma CutKept(d: Store, c: string)
    requires Closed(d) && ClientOk(c)
    ensures KeptBut(d, CutRecord(d, c), c)
  {
    hide CutRecord, Closed, ObservingSame, VarsSame, KeyOk, ClientOk;
    CutRecordClosed(d, c);
    CutInternal(d, c);
    forall c' | ClientOk(c') && c' != c ensures ObservingSame(d, CutRecord(d, c), c') {
      CutOtherObserving(d, c, c');
    }
  }

  lemma CutRecordClosed(d: Store, c: string)
    requires Closed(d)
    ensures Closed(CutRecord(d, c))
  {
    hide PathOf;
    RemoveClosed(d, PathOf(RegPos(c)), true);
  }

  lemma EnlistFrame(d: Store, c: string, n: nat)
    requires Closed(d) && ClientOk(c)
    ensures KeptBut(d, PutKey(PutKey(PutKey(d, RegCount, Itoa(n + 1)), RegSlot(n), c), RegPos(c), Itoa(n)), "")
  {
    hide PutKey, Itoa, Closed, ClientOk, KeyOk, KeptBut;
    var e1 := PutKey(d, RegCount, Itoa(n + 1));
    var e2 := PutKey(e1, RegSlot(n), c);
    RecordKeysOk(c, n);
    KeptRefl(d, "");
    PutStep(d, d, RegCount, Itoa(n + 1), "");
    PutStep(d, e1, RegSlot(n), c, "");
    PutStep(d, e2, RegPos(c), Itoa(n), "");
  }

  /** First contact touches no list, not even the client's own. */
  lemma InitializeFrame(d: Store, c: string, apiId: Option<string>, now: string)
    requires Closed(d) && ClientOk(c)
    ensures KeptBut(d, Initialized(d, c, apiId, now), "")
  {
    hide PutKey, Itoa, Closed, ClientOk, KeyOk, Has, KeptBut, RegisteredCount, NatOf;
    var n := NatOf(RegisteredCount(d));
    var d1 := if Has(d, RegPos(c)) then d
              else PutKey(PutKey(PutKey(d, RegCount, Itoa(n + 1)), RegSlot(n), c), RegPos(c), Itoa(n));
    var d2 := if apiId.Some? then PutKey(d1, RegApi(c), apiId.value) else d1;
    RecordKeysOk(c, n);
    KeptRefl(d, "");
    EnlistFrame(d, c, n);
    if apiId.Some? {
      PutStep(d, d1, RegApi(c), apiId.value, "");
    }
    PutStep(d, d2, RegLive(c), now, "");
  }

  lemma SubscribeFrame(d: Store, c: string, full: string, now: string)
    requires Closed(d) && ClientOk(c)
    ensures KeptBut(d, Subscribed(d, c, full, now), c)
  {
    var d1 := PutKey(d, RegLive(c), now);
    var n := NatOf(SubsCount(d1, c));
    var d2 := PutKey(d1, SubCount(c), Itoa(n + 1));
    var d3 := PutKey(d2, SubSlot(c, n), full);
    hide PutKey, Itoa, Closed, ClientOk, KeyOk, KeptBut, SubsCount;
    RecordKeysOk(c, n);
    KeptRefl(d, c);
    PutStep(d, d, RegLive(c), now, c);
    PutStep(d, d1, SubCount(c), Itoa(n + 1), c);
    PutStep(d, d2, SubSlot(c, n), full, c);
  }

  lemma {:induction false} SubShiftedFrame(d: Store, c: string, i: nat, j: nat)
    requires Closed(d) && ClientOk(c) && i <= j
    ensures KeptBut(d, SubShifted(d, c, i, j), c)
    decreases j
  {
    hide PutKey, View, Closed, ClientOk, KeyOk, KeptBut;
    if i == j {
      KeptRefl(d, c);
    } else {
      var d' := SubShifted(d, c, i, j - 1);
      SubShiftedFrame(d, c, i, j - 1);
      RecordKeysOk(c, j - 1);
      PutStep(d, d', SubSlot(c, j - 1), View(d', SubSlot(c, j)), c);
    }
  }

  lemma UnsubscribeFrame(d: Store, c: string, full: string, now: string)
    requires Closed(d) && ClientOk(c)
    ensures KeptBut(d, Unsubscribed(d, c, full, now), c)
  {
    var d1 := PutKey(d, RegLive(c), now);
    var n := NatOf(SubsCount(d1, c));
    var i := FindSub(d1, c, full, 0, n);
    hide PutKey, DropKey, Itoa, Closed, ClientOk, KeyOk, KeptBut, SubsCount, SubShifted, FindSub;
    RecordKeysOk(c, 0);
    KeptRefl(d, c);
    PutStep(d, d, RegLive(c), now, c);
    KeptIsClosed(d, d1, c);
    if i >= 0 {
      var e1 := SubShifted(d1, c, i, n - 1);
      var e2 := DropKey(e1, SubSlot(c, n - 1));
      var e3 := PutKey(e2, SubCount(c), Itoa(n - 1));
      RecordKeysOk(c, n - 1);
      SubShiftedFrame(d1, c, i, n - 1);
      KeptTrans(d, d1, e1, c);
      DropStep(d, e1, SubSlot(c, n - 1), c);
      PutStep(d, e2, SubCount(c), Itoa(n - 1), c);
    }
  }

  lemma {:induction false} RegShiftedFrame(d: Store, i: nat, j: nat)
    requires Closed(d) && i <= j
    ensures KeptBut(d, RegShifted(d, i, j), "")
    decreases j
  {
    hide PutKey, View, Closed, KeptBut;
    if i == j {
      KeptRefl(d, "");
    } else {
      var d' := RegShifted(d, i, j - 1);
      RegShiftedFrame(d, i, j - 1);
      PutStep(d, d', RegSlot(j - 1), View(d', RegSlot(j)), "");
    }
  }

  lemma DelistFrame(d: Store, i: nat, n: nat)
    requires Closed(d) && n > 0
    ensures KeptBut(d, Delisted(d, i, n), "")
  {
    var j := if i < n then n - 1 else i;
    var e1 := RegShifted(d, i, j);
    var e2 := DropKey(e1, RegSlot(n - 1));
    var e3 := PutKey(e2, RegCount, Itoa(n - 1));
    hide PutKey, DropKey, Itoa, Closed, KeptBut, RegShifted;
    RegShiftedFrame(d, i, j);
    DropStep(d, e1, RegSlot(n - 1), "");
    PutStep(d, e2, RegCount, Itoa(n - 1), "");
  }

  lemma KeptIsClosed(d: Store, d': Store, c: string)
    requires KeptBut(d, d', c)
    ensures Closed(d')
  {
  }

  lemma KeptMore(d: Store, d': Store, c: string)
    requires KeptBut(d, d', "")
    ensures KeptBut(d, d', c)
  {
    hide Closed, ObservingSame, VarsSame;
  }

  /** Removing a client leaves every other client's list, and everything below `vars`, as it was. */
  lemma UnregisterFrame(d: Store, c: string)
    requires Closed(d) && ClientOk(c)
    ensures KeptBut(d, Unregistered(d, c), c)
  {
    var i, n := Position(d, c), NatOf(RegisteredCount(d));
    var d1 := if i > -1 && n > 0 then Delisted(d, i, n) else d;
    hide Delisted, CutRecord, Closed, KeptBut, ClientOk, Position;
    KeptRefl(d, c);
    if i > -1 && n > 0 {
      DelistFrame(d, i, n);
      KeptMore(d, d1, c);
    }
    KeptIsClosed(d, d1, c);
    CutKept(d1, c);
    KeptTrans(d, d1, CutRecord(d1, c), c);
  }

  /** A removed client observes nothing. */
  lemma UnregisterEmpties(d: Store, c: string)
    requires Closed(d) && ClientOk(c)
    ensures Subs(Unregistered(d, c), c) == [] && RecordOk(Unregistered(d, c), c)
  {
    var i, n := Position(d, c), NatOf(RegisteredCount(d));
    var d1 := if i > -1 && n > 0 then Delisted(d, i, n) else d;
    assert Closed(d1) by {
      if i > -1 && n > 0 {
        DelistFrame(d, i, n);
      }
    }
    hide Delisted, Closed, Position;
    CutRecordViews(d1, c);
    RecordKeysOk(c, 0);
    CutRecordGone(d1, c);
  }

  lemma CutRecordGone(d: Store, c: string)
    requires Closed(d) && ClientOk(c)
    ensures forall p | p in CutRecord(d, c) :: !(ObservingPath(c) <= p)
    ensures !Has(CutRecord(d, c), RegPos(c))
  {
    hide Closed;
    RelOf(RegPos(c));
    var r := PathOf(RegPos(c));
    assert r == ["internal", "clients", "byId", c];
    RemoveIn(d, r, true, r);
    forall p | p in CutRecord(d, c) ensures !(ObservingPath(c) <= p) {
      RemoveIn(d, r, true, p);
      assert r <= ObservingPath(c);
      assert ObservingPath(c) <= p ==> r <= p;
    }
  }

  // ---- how many clients are registered ----

  /** The counter is the number of registered ids, and every record has a position. */
  ghost predicate RegistryOk(d: Store) {
    RegisteredCount(d) == |Ids(d)| && forall c {:trigger Enlisted(d, c)} | c in Ids(d) :: Enlisted(d, c)
  }

  predicate Enlisted(d: Store, c: string) { ClientOk(c) && View(d, RegPos(c)) != "" && GetInt(View(d, RegPos(c))) >= 0 }

  function IdPath(w: string): Path { ["internal", "clients", "byId", w] }

  lemma IdOf(c: string)
    requires ClientOk(c)
    ensures PathOf(RegPos(c)) == IdPath(c)
  {
    RelOf(RegPos(c));
  }

  lemma IdsIn(d: Store, w: string)
    ensures w in Ids(d) <==> IdPath(w) in d
  {
    ChildWordsIn(d, ["internal", "clients", "byId"], w);
    assert ["internal", "clients", "byId"] + [w] == IdPath(w);
  }

  lemma UnderId(w: string, k: Key)
    requires KeyOk(k)
    ensures IdPath(w) <= PathOf(k) <==> OfRecord(k, w)
  {
    hide Itoa;
    RelOf(k);
    var p := PathOf(k);
    if OfVariable(k) {
      NoPrefix(IdPath(w), p, 0);
    } else if k.RegCount? || k.RegSlot? {
      NoPrefix(IdPath(w), p, 2);
    } else {
      assert p[..4] == IdPath(k.c);
      assert IdPath(w) <= p ==> w == p[3];
    }
  }

  /** Writing to a client's record makes it exist; no other write changes who is registered. */
  lemma PutIds(d: Store, k: Key, x: string)
    requires KeyOk(k)
    ensures Ids(PutKey(d, k, x)) ==
            Ids(d) + if k.RegPos? || k.RegApi? || k.RegLive? || k.SubCount? || k.SubSlot? then {k.c} else {}
  {
    hide PathOf, KeyOk;
    NonEmptyPath(k);
    forall w ensures w in Ids(PutKey(d, k, x)) <==> w in Ids(d) || OfRecord(k, w) {
      IdsIn(d, w);
      IdsIn(PutKey(d, k, x), w);
      PutIn(d, PathOf(k), x, IdPath(w));
      UnderId(w, k);
    }
  }

  lemma DropIds(d: Store, k: Key)
    requires Closed(d) && KeyOk(k) && !k.RegPos?
    ensures Ids(DropKey(d, k)) == Ids(d)
  {
    hide PathOf, KeyOk, Closed;
    NonEmptyPath(k);
    forall w ensures w in Ids(DropKey(d, k)) <==> w in Ids(d) {
      IdsIn(d, w);
      IdsIn(DropKey(d, k), w);
      NotAnId(w, k);
      RemoveIn(d, PathOf(k), false, IdPath(w));
    }
  }

  lemma NotAnId(w: string, k: Key)
    requires KeyOk(k) && !k.RegPos?
    ensures IdPath(w) != PathOf(k)
  {
    hide Itoa;
    RelOf(k);
    assert OfVariable(k) ==> PathOf(k)[0] == "vars";
    assert k.RegCount? || k.RegSlot? ==> PathOf(k)[2] == "list";
    assert k.RegApi? || k.RegLive? || k.SubCount? || k.SubSlot? ==> |PathOf(k)| > 4;
  }

  lemma CutIds(d: Store, c: string)
    requires Closed(d) && ClientOk(c)
    ensures Ids(CutRecord(d, c)) == Ids(d) - {c}
  {
    hide Closed;
    IdOf(c);
    forall w ensures w in Ids(CutRecord(d, c)) <==> w in Ids(d) && w != c {
      IdsIn(d, w);
      IdsIn(CutRecord(d, c), w);
      RemoveIn(d, IdPath(c), true, IdPath(w));
      assert IdPath(c) <= IdPath(w) <==> IdPath(c) == IdPath(w);
      assert IdPath(w)[3] == w && IdPath(c)[3] == c;
    }
  }
}
