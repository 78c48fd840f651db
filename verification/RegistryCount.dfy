/** The number of enlisted clients stays the number of client records. */
module RegistryCount {
  import opened Options
  import opened Decimal
  import opened FlatStore
  import opened Keys
  import opened Views
  import opened ObserverNodes
  import opened Registry
  import opened RegistryNodes

  /** The entries and nodes the registry's invariant is about. */
  ghost predicate RegistrySame(d: Store, d': Store) {
    && Ids(d') == Ids(d)
    && View(d', RegCount) == View(d, RegCount)
    && forall c {:trigger View(d', RegPos(c))} | ClientOk(c) :: View(d', RegPos(c)) == View(d, RegPos(c))
  }

  lemma HasId(d: Store, c: string)
    requires ClientOk(c)
    ensures Has(d, RegPos(c)) <==> c in Ids(d)
  {
    hide ClientOk;
    IdOf(c);
    IdsIn(d, c);
  }

  lemma RegistryCarries(d: Store, d': Store)
    requires RegistrySame(d, d') && RegistryOk(d)
    ensures RegistryOk(d')
  {
    hide View, ClientOk, Ids;
    forall c | c in Ids(d') ensures Enlisted(d', c) {
      assert Enlisted(d, c);
    }
  }

  lemma RegistrySameTrans(d: Store, d1: Store, d2: Store)
    requires RegistrySame(d, d1) && RegistrySame(d1, d2)
    ensures RegistrySame(d, d2)
  {
    hide View, Ids, ClientOk;
    forall c | ClientOk(c) ensures View(d2, RegPos(c)) == View(d, RegPos(c)) {
      assert View(d1, RegPos(c)) == View(d, RegPos(c));
    }
  }

  /** Nothing done below a variable changes the registry. */
  lemma InternalSameRegistry(d: Store, d': Store)
    requires InternalSame(d, d')
    ensures RegistrySame(d, d')
  {
    assert SameAt(d, d', PathOf(RegCount));
    forall w ensures w in Ids(d') <==> w in Ids(d) {
      IdsIn(d, w);
      IdsIn(d', w);
      assert SameAt(d, d', IdPath(w));
    }
    forall c | ClientOk(c) ensures View(d', RegPos(c)) == View(d, RegPos(c)) {
      IdOf(c);
      assert SameAt(d, d', IdPath(c));
    }
  }

  lemma PutKeepsPositions(d: Store, k: Key, x: string)
    requires KeyOk(k) && !k.RegCount? && !k.RegPos?
    ensures View(PutKey(d, k, x), RegCount) == View(d, RegCount)
    ensures forall c {:trigger View(PutKey(d, k, x), RegPos(c))} | ClientOk(c) ::
              View(PutKey(d, k, x), RegPos(c)) == View(d, RegPos(c))
  {
    assert KeyOk(RegCount);
    hide View, PutKey, KeyOk, ClientOk;
    PutViews(d, k, x);
    forall c | ClientOk(c) ensures View(PutKey(d, k, x), RegPos(c)) == View(d, RegPos(c)) {
      RecordKeysOk(c, 0);
    }
  }

  /** Writing to the list of a registered client. */
  lemma PutSubRegistry(d: Store, k: Key, x: string)
    requires KeyOk(k) && (k.RegLive? || k.RegApi? || k.SubCount? || k.SubSlot?) && Has(d, RegPos(k.c))
    ensures RegistrySame(d, PutKey(d, k, x)) && Has(PutKey(d, k, x), RegPos(k.c))
  {
    assert ClientOk(k.c);
    hide View, PutKey, Ids, Has, KeyOk, ClientOk;
    PutIds(d, k, x);
    PutKeepsPositions(d, k, x);
    HasId(d, k.c);
    HasId(PutKey(d, k, x), k.c);
  }

  lemma DropSubRegistry(d: Store, k: Key)
    requires Closed(d) && KeyOk(k) && k.SubSlot? && Has(d, RegPos(k.c))
    ensures RegistrySame(d, DropKey(d, k)) && Has(DropKey(d, k), RegPos(k.c))
  {
    assert ClientOk(k.c);
    hide View, DropKey, Ids, Has, Closed;
    DropIds(d, k);
    DropViews(d, k);
    HasId(d, k.c);
    HasId(DropKey(d, k), k.c);
    RecordKeysOk(k.c, 0);
    forall c | ClientOk(c) ensures View(DropKey(d, k), RegPos(c)) == View(d, RegPos(c)) {
      RecordKeysOk(c, 0);
    }
  }

  lemma SubscribeRegistry(d: Store, c: string, full: string, now: string)
    requires ClientOk(c) && Has(d, RegPos(c))
    ensures RegistrySame(d, Subscribed(d, c, full, now))
  {
    hide View, PutKey, Ids, Has, KeyOk, SubsCount, Itoa, RegistrySame, ClientOk;
    var d1 := PutKey(d, RegLive(c), now);
    var n := NatOf(SubsCount(d1, c));
    var d2 := PutKey(d1, SubCount(c), Itoa(n + 1));
    RecordKeysOk(c, n);
    PutSubRegistry(d, RegLive(c), now);
    PutSubRegistry(d1, SubCount(c), Itoa(n + 1));
    PutSubRegistry(d2, SubSlot(c, n), full);
    RegistrySameTrans(d, d1, d2);
    RegistrySameTrans(d, d2, PutKey(d2, SubSlot(c, n), full));
  }

  lemma {:induction false} SubShiftedRegistry(d: Store, c: string, i: nat, j: nat)
    requires ClientOk(c) && Has(d, RegPos(c)) && i <= j
    ensures RegistrySame(d, SubShifted(d, c, i, j)) && Has(SubShifted(d, c, i, j), RegPos(c))
    decreases j
  {
    hide View, PutKey, Ids, Has, KeyOk, ClientOk;
    if i < j {
      var d' := SubShifted(d, c, i, j - 1);
      SubShiftedRegistry(d, c, i, j - 1);
      RecordKeysOk(c, j - 1);
      PutSubRegistry(d', SubSlot(c, j - 1), View(d', SubSlot(c, j)));
      RegistrySameTrans(d, d', SubShifted(d, c, i, j));
    }
  }

  lemma UnsubscribeRegistry(d: Store, c: string, full: string, now: string)
    requires Closed(d) && ClientOk(c) && Has(d, RegPos(c))
    ensures RegistrySame(d, Unsubscribed(d, c, full, now))
  {
    hide View, PutKey, DropKey, Ids, Has, KeyOk, SubsCount, Itoa, RegistrySame, FindSub, SubShifted, Closed, ClientOk;
    var d1 := PutKey(d, RegLive(c), now);
    var n := NatOf(SubsCount(d1, c));
    var i := FindSub(d1, c, full, 0, n);
    RecordKeysOk(c, 0);
    PutSubRegistry(d, RegLive(c), now);
    PutKeyClosed(d, RegLive(c), now);
    if i >= 0 {
      var e1 := SubShifted(d1, c, i, n - 1);
      var e2 := DropKey(e1, SubSlot(c, n - 1));
      RecordKeysOk(c, n - 1);
      SubShiftedRegistry(d1, c, i, n - 1);
      SubShiftedClosed(d1, c, i, n - 1);
      DropSubRegistry(e1, SubSlot(c, n - 1));
      PutSubRegistry(e2, SubCount(c), Itoa(n - 1));
      RegistrySameTrans(d, d1, e1);
      RegistrySameTrans(d, e1, e2);
      RegistrySameTrans(d, e2, PutKey(e2, SubCount(c), Itoa(n - 1)));
    }
  }

  // ---- enlisting and removing ----

  lemma InitializedIds(d: Store, c: string, apiId: Option<string>, now: string)
    requires ClientOk(c)
    ensures Ids(Initialized(d, c, apiId, now)) == Ids(d) + {c}
  {
    hide View, PutKey, Ids, Has, KeyOk, Itoa, RegisteredCount, ClientOk;
    var n := NatOf(RegisteredCount(d));
    var e1 := PutKey(d, RegCount, Itoa(n + 1));
    var e2 := PutKey(e1, RegSlot(n), c);
    var d1 := if Has(d, RegPos(c)) then d else PutKey(e2, RegPos(c), Itoa(n));
    var d2 := if apiId.Some? then PutKey(d1, RegApi(c), apiId.value) else d1;
    RecordKeysOk(c, n);
    PutIds(d, RegCount, Itoa(n + 1));
    PutIds(e1, RegSlot(n), c);
    PutIds(e2, RegPos(c), Itoa(n));
    if apiId.Some? {
      PutIds(d1, RegApi(c), apiId.value);
    }
    PutIds(d2, RegLive(c), now);
  }

  /** Enlisting counts a client once, however often it comes back. */
  lemma InitializeKeepsRegistry(d: Store, c: string, apiId: Option<string>, now: string)
    requires ClientOk(c) && RegistryOk(d)
    ensures RegistryOk(Initialized(d, c, apiId, now))
    ensures Has(Initialized(d, c, apiId, now), RegPos(c))
  {
    var d', n := Initialized(d, c, apiId, now), NatOf(RegisteredCount(d));
    hide View, Ids, Has, KeyOk, Initialized, Itoa;
    InitializedIds(d, c, apiId, now);
    InitializedViews(d, c, apiId, now);
    HasId(d, c);
    HasId(d', c);
    AtoiItoa(n);
    AtoiItoa(n + 1);
    RecordKeysOk(c, 0);
    assert n == RegisteredCount(d) == |Ids(d)|;
    OneMore(Ids(d), c);
    assert RegisteredCount(d') == |Ids(d')|;
    forall c' | c' in Ids(d') ensures Enlisted(d', c') {
      if c' in Ids(d) {
        assert Enlisted(d, c');
        RecordKeysOk(c', 0);
      }
    }
  }

  lemma OneMore(s: set<string>, c: string)
    ensures |s + {c}| == if c in s then |s| else |s| + 1
  {
    assert c in s ==> s + {c} == s;
  }

  lemma {:induction false} RegShiftedSame(d: Store, i: nat, j: nat)
    requires i <= j
    ensures RegistrySame(d, RegShifted(d, i, j))
    decreases j
  {
    hide View, PutKey, Ids, KeyOk, RegistrySame;
    if i == j {
      RegistrySameRefl(d);
    } else {
      var d' := RegShifted(d, i, j - 1);
      RegShiftedSame(d, i, j - 1);
      PutSlotRegistry(d', j - 1, View(d', RegSlot(j)));
      RegistrySameTrans(d, d', RegShifted(d, i, j));
    }
  }

  lemma RegistrySameRefl(d: Store)
    ensures RegistrySame(d, d)
  {
  }

  lemma PutSlotRegistry(d: Store, i: nat, x: string)
    ensures RegistrySame(d, PutKey(d, RegSlot(i), x))
  {
    assert KeyOk(RegSlot(i));
    hide View, PutKey, Ids, KeyOk;
    PutIds(d, RegSlot(i), x);
    PutKeepsPositions(d, RegSlot(i), x);
  }

  /** The client list loses one slot and one count; positions and records stay. */
  lemma DelistedRegistry(d: Store, i: nat, n: nat)
    requires Closed(d) && n > 0
    ensures Ids(Delisted(d, i, n)) == Ids(d) && View(Delisted(d, i, n), RegCount) == Itoa(n - 1)
    ensures forall c | ClientOk(c) :: View(Delisted(d, i, n), RegPos(c)) == View(d, RegPos(c))
    ensures Closed(Delisted(d, i, n))
  {
    var j := if i < n then n - 1 else i;
    var e1 := RegShifted(d, i, j);
    var e2 := DropKey(e1, RegSlot(n - 1));
    RegShiftedFrame(d, i, j);
    DropKeyClosed(e1, RegSlot(n - 1));
    hide View, PutKey, DropKey, Ids, Itoa, Closed, RegShifted;
    assert KeyOk(RegCount) && KeyOk(RegSlot(n - 1));
    RegShiftedSame(d, i, j);
    DropIds(e1, RegSlot(n - 1));
    DropViews(e1, RegSlot(n - 1));
    PutIds(e2, RegCount, Itoa(n - 1));
    PutViews(e2, RegCount, Itoa(n - 1));
    PutKeyClosed(e2, RegCount, Itoa(n - 1));
    forall c | ClientOk(c) ensures View(Delisted(d, i, n), RegPos(c)) == View(d, RegPos(c)) {
      RecordKeysOk(c, 0);
    }
  }

  ghost predicate PositionsSame(d: Store, d': Store, c: string) {
    forall c' {:trigger View(d', RegPos(c'))} | ClientOk(c') && c' != c :: View(d', RegPos(c')) == View(d, RegPos(c'))
  }

  lemma PositionsStay(d: Store, d': Store, c: string)
    requires RegistryOk(d) && Ids(d') == Ids(d) - {c} && PositionsSame(d, d', c)
    ensures forall c' {:trigger Enlisted(d', c')} | c' in Ids(d') :: Enlisted(d', c')
  {
    hide View, Ids, ClientOk;
    forall c' | c' in Ids(d') ensures Enlisted(d', c') {
      assert Enlisted(d, c');
    }
  }

  lemma CutRegistry(d: Store, c: string)
    requires Closed(d) && ClientOk(c)
    ensures Ids(CutRecord(d, c)) == Ids(d) - {c} && !Has(CutRecord(d, c), RegPos(c))
    ensures View(CutRecord(d, c), RegCount) == View(d, RegCount)
    ensures PositionsSame(d, CutRecord(d, c), c)
  {
    hide View, CutRecord, Ids, Closed, Has, ClientOk;
    CutIds(d, c);
    CutRecordViews(d, c);
    HasId(CutRecord(d, c), c);
    RecordKeysOk(c, 0);
    forall c' | ClientOk(c') && c' != c ensures View(CutRecord(d, c), RegPos(c')) == View(d, RegPos(c')) {
      RecordKeysOk(c', 0);
    }
  }

  /** Removing a client takes exactly its id and one count away. */
  lemma UnregisterKeepsRegistry(d: Store, c: string)
    requires Closed(d) && ClientOk(c) && RegistryOk(d)
    ensures RegistryOk(Unregistered(d, c)) && !Has(Unregistered(d, c), RegPos(c))
    ensures Ids(Unregistered(d, c)) == Ids(d) - {c}
  {
    var i, n := Position(d, c), NatOf(RegisteredCount(d));
    assert n == RegisteredCount(d) == |Ids(d)|;
    assert i > -1 <==> c in Ids(d) by {
      HasId(d, c);
      assert c in Ids(d) ==> Enlisted(d, c);
    }
    hide View, Delisted, CutRecord, Ids, Itoa, Closed, Has, Position, ClientOk, RegisteredCount, NatOf;
    if i > -1 {
      OneLess(Ids(d), c);
      DelistedRegistry(d, i, n);
      RemovedFrom(d, Delisted(d, i, n), c);
    } else {
      RemovedFrom(d, d, c);
    }
  }

  lemma OneLess(s: set<string>, c: string)
    requires c in s
    ensures |s| > 0 && |s - {c}| == |s| - 1
  {
  }

  lemma RemovedFrom(d: Store, d1: Store, c: string)
    requires Closed(d1) && ClientOk(c) && RegistryOk(d) && Ids(d1) == Ids(d)
    requires View(d1, RegCount) == if c in Ids(d) then Itoa(NatOf(|Ids(d)| - 1)) else View(d, RegCount)
    requires forall c' | ClientOk(c') :: View(d1, RegPos(c')) == View(d, RegPos(c'))
    ensures RegistryOk(CutRecord(d1, c)) && !Has(CutRecord(d1, c), RegPos(c))
    ensures Ids(CutRecord(d1, c)) == Ids(d) - {c}
  {
    hide View, CutRecord, Ids, Itoa, Closed, Has, Position, ClientOk;
    if c in Ids(d) {
      OneLess(Ids(d), c);
      AtoiItoa(NatOf(|Ids(d)| - 1));
    }
    CutRegistry(d1, c);
    PositionsStay(d, CutRecord(d1, c), c);
  }
}
