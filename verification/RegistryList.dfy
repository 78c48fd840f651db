/** The list of clients, and how the positions on record fall behind it. */
module RegistryList {
  import opened Options
  import opened Decimal
  import opened FlatStore
  import opened Keys
  import opened Views
  import opened Registry
  import opened RegistryNodes
  import opened RegistryCount
  import opened Subscriptions
  import opened Runs
  import opened ServerRuns
  import opened MapOrder

  /** The ids in list order. */
  function Listed(d: Store): (s: seq<string>)
    ensures |s| == NatOf(RegisteredCount(d))
    ensures forall i | 0 <= i < |s| :: s[i] == View(d, RegSlot(i))
  {
    seq(NatOf(RegisteredCount(d)), i requires 0 <= i => View(d, RegSlot(i)))
  }

  /** First contact appends the client to the list; later contact leaves the list alone. */
  lemma EnlistAppends(d: Store, c: string, apiId: Option<string>, now: string)
    requires ClientOk(c)
    ensures Listed(Initialized(d, c, apiId, now)) == Listed(d) + if Has(d, RegPos(c)) then [] else [c]
  {
    hide View, Itoa, ClientOk, Initialized, Has;
    var d', n := Initialized(d, c, apiId, now), NatOf(RegisteredCount(d));
    InitializedViews(d, c, apiId, now);
    AtoiItoa(n + 1);
    assert |Listed(d')| == n + if Has(d, RegPos(c)) then 0 else 1;
  }

  // ---- removal ----

  function RegShiftView(d: Store, i: nat, j: nat, k: Key): string {
    if k.RegSlot? && i <= k.i < j then View(d, RegSlot(k.i + 1)) else View(d, k)
  }

  lemma {:induction false} RegShiftedViews(d: Store, i: nat, j: nat)
    requires i <= j
    ensures forall k | KeyOk(k) :: View(RegShifted(d, i, j), k) == RegShiftView(d, i, j, k)
    decreases j
  {
    hide PutKey, View, KeyOk;
    if i < j {
      var d' := RegShifted(d, i, j - 1);
      RegShiftedViews(d, i, j - 1);
      SlotOk(j);
      SlotOk(j - 1);
      PutViews(d', RegSlot(j - 1), View(d', RegSlot(j)));
      assert RegShifted(d, i, j) == PutKey(d', RegSlot(j - 1), View(d', RegSlot(j)));
      assert View(d', RegSlot(j)) == View(d, RegSlot(j));
      forall k | KeyOk(k) ensures View(RegShifted(d, i, j), k) == RegShiftView(d, i, j, k) {
        assert View(d', k) == RegShiftView(d, i, j - 1, k);
        assert k.RegSlot? ==> k == RegSlot(k.i);
      }
    }
  }

  lemma SlotOk(i: nat)
    ensures KeyOk(RegSlot(i)) && KeyOk(RegCount)
  {
  }

  /** The list without one entry: the one at the position, or the last if the position is past the end. */
  function WithoutAt(s: seq<string>, i: nat): seq<string>
    requires s != []
  {
    if i < |s| then s[..i] + s[i + 1..] else s[..|s| - 1]
  }

  lemma DelistedSlot(d: Store, i: nat, n: nat, m: nat)
    requires Closed(d) && n > 0 && m < n - 1
    ensures View(Delisted(d, i, n), RegSlot(m)) == View(d, RegSlot(if i <= m then m + 1 else m))
    ensures View(Delisted(d, i, n), RegCount) == Itoa(n - 1)
  {
    hide View, PutKey, DropKey, KeyOk, Itoa, Closed, RegShifted;
    var j := if i < n then n - 1 else i;
    var e1 := RegShifted(d, i, j);
    var e2 := DropKey(e1, RegSlot(n - 1));
    SlotOk(m);
    SlotOk(n - 1);
    RegShiftedViews(d, i, j);
    ShiftedIsClosed(d, i, j);
    DropViews(e1, RegSlot(n - 1));
    PutViews(e2, RegCount, Itoa(n - 1));
  }

  lemma ShiftedIsClosed(d: Store, i: nat, j: nat)
    requires Closed(d) && i <= j
    ensures Closed(RegShifted(d, i, j))
  {
    hide Closed, RegShifted;
    RegShiftedFrame(d, i, j);
    KeptIsClosed(d, RegShifted(d, i, j), "");
  }

  lemma DelistDrops(d: Store, i: nat)
    requires Closed(d) && Listed(d) != []
    ensures Listed(Delisted(d, i, |Listed(d)|)) == WithoutAt(Listed(d), i)
  {
    var s, n := Listed(d), |Listed(d)|;
    hide Delisted, Closed, View, Itoa;
    DelistedRegistry(d, i, n);
    AtoiItoa(n - 1);
    assert RegisteredCount(Delisted(d, i, n)) == n - 1;
    forall m: nat | m < n - 1 ensures View(Delisted(d, i, n), RegSlot(m)) == WithoutAt(s, i)[m] {
      DelistedSlot(d, i, n, m);
    }
  }

  lemma CutKeepsList(d: Store, c: string)
    requires Closed(d) && ClientOk(c)
    ensures Listed(CutRecord(d, c)) == Listed(d)
  {
    hide View, CutRecord, Closed;
    CountCut(d, c);
  }

  /** Removing a client takes one id off the list, at the position the client has on record. */
  lemma UnregisterDelists(d: Store, c: string)
    requires Closed(d) && ClientOk(c) && RegistryOk(d) && Position(d, c) > -1
    ensures Listed(d) != [] && Listed(Unregistered(d, c)) == WithoutAt(Listed(d), Position(d, c))
  {
    var i, n := Position(d, c), NatOf(RegisteredCount(d));
    assert n > 0 by {
      HasId(d, c);
    }
    hide Delisted, CutRecord, Closed, Position, RegistryOk, ClientOk, View, Listed, WithoutAt;
    assert |Listed(d)| == n;
    DelistDrops(d, i);
    DelistedRegistry(d, i, n);
    CutKeepsList(Delisted(d, i, n), c);
  }

  lemma CountCut(d: Store, c: string)
    requires Closed(d) && ClientOk(c)
    ensures View(CutRecord(d, c), RegCount) == View(d, RegCount)
    ensures forall m: nat :: View(CutRecord(d, c), RegSlot(m)) == View(d, RegSlot(m))
  {
    hide View, CutRecord, Closed;
    CutRecordViews(d, c);
    forall m: nat ensures View(CutRecord(d, c), RegSlot(m)) == View(d, RegSlot(m)) {
      SlotOk(m);
    }
  }

  // ---- when a recorded position stays right ----

  predicate PositionRight(d: Store, x: string) { 0 <= Position(d, x) < |Listed(d)| && Listed(d)[Position(d, x)] == x }

  /**
   With every client listed once and both positions right, removing one client leaves the other's
   position right exactly when the other was listed before it.
   */
  lemma PositionStaysExactly(d: Store, c: string, x: string)
    requires Closed(d) && RegistryOk(d) && ClientOk(c) && ClientOk(x) && x != c
    requires NoRepeats(Listed(d)) && PositionRight(d, c) && PositionRight(d, x)
    ensures PositionRight(Unregistered(d, c), x) <==> Position(d, x) < Position(d, c)
  {
    var d', s, i, j := Unregistered(d, c), Listed(d), Position(d, c), Position(d, x);
    hide Unregistered, Closed, View, RegistryOk, Ids, Position, ClientOk, RegisteredCount, Listed;
    UnregisterDelists(d, c);
    OtherPosition(d, c, x);
    assert Listed(d') == WithoutAt(s, i) == s[..i] + s[i + 1..];
  }

  /** Two contacts and the removal of the first client are enough: the second one's position is then wrong. */
  lemma FirstForgotten(a: string, b: string, apiId: Option<string>, now: string)
    requires ClientOk(a) && ClientOk(b) && a != b
    ensures var d := Initialized(Initialized(EMPTY, a, apiId, now), b, apiId, now);
            && Listed(d) == [a, b] && PositionRight(d, a) && PositionRight(d, b)
            && Lists([], Subs(d, a)) && !PositionRight(Deleted(d, a, []), b)
  {
    hide *;
    var d1 := Initialized(EMPTY, a, apiId, now);
    var d := Initialized(d1, b, apiId, now);
    EmptyIsHealthy();
    HealthyInitialized(EMPTY, a, apiId, now);
    HealthyInitialized(d1, b, apiId, now);
    SoundParts(d);
    TwoContacts(a, b, apiId, now);
    TwoPositions(d, a, b);
    PositionStaysExactly(d, a, b);
    DeletedNoNames(d, a);
  }

  lemma SoundParts(d: Store)
    requires Healthy(d)
    ensures Closed(d) && RegistryOk(d)
  {
  }

  lemma TwoPositions(d: Store, a: string, b: string)
    requires a != b && Listed(d) == [a, b] && Position(d, a) == 0 && Position(d, b) == 1
    ensures PositionRight(d, a) && PositionRight(d, b) && NoRepeats(Listed(d))
  {
    hide Position;
  }

  lemma DeletedNoNames(d: Store, c: string)
    ensures Deleted(d, c, []) == Unregistered(d, c)
    ensures Subs(d, c) == [] ==> Lists([], Subs(d, c))
  {
  }

  lemma TwoContacts(a: string, b: string, apiId: Option<string>, now: string)
    requires ClientOk(a) && ClientOk(b) && a != b
    ensures var d := Initialized(Initialized(EMPTY, a, apiId, now), b, apiId, now);
            Listed(d) == [a, b] && Position(d, a) == 0 && Position(d, b) == 1 && Subs(d, a) == []
  {
    var d1 := Initialized(EMPTY, a, apiId, now);
    var d := Initialized(d1, b, apiId, now);
    EmptyRegistry(a, b);
    hide Initialized, View, ClientOk, Has, Itoa, Listed, KeyOk, Ids, RegisteredCount;
    EnlistAppends(EMPTY, a, apiId, now);
    EnlistAppends(d1, b, apiId, now);
    InitializedIds(EMPTY, a, apiId, now);
    HasId(EMPTY, a);
    HasId(d1, a);
    HasId(d1, b);
    assert Listed(d1) == [a];
    FirstPosition(EMPTY, a, apiId, now, 0);
    FirstPosition(d1, b, apiId, now, 1);
    InitializedViews(EMPTY, a, apiId, now);
    InitializedViews(d1, b, apiId, now);
    InitializedIds(d1, b, apiId, now);
    HasId(d, a);
    RecordKeysOk(a, 0);
  }

  lemma FirstPosition(d: Store, c: string, apiId: Option<string>, now: string, n: nat)
    requires ClientOk(c) && !Has(d, RegPos(c)) && |Listed(d)| == n
    ensures Position(Initialized(d, c, apiId, now), c) == n && View(Initialized(d, c, apiId, now), RegPos(c)) == Itoa(n)
  {
    hide Initialized, View, ClientOk, Has, Itoa, Ids;
    InitializedViews(d, c, apiId, now);
    InitializedIds(d, c, apiId, now);
    HasId(Initialized(d, c, apiId, now), c);
    AtoiItoa(n);
  }

  lemma EmptyRegistry(a: string, b: string)
    ensures Listed(EMPTY) == [] && RegisteredCount(EMPTY) == 0 && Ids(EMPTY) == {}
    ensures View(EMPTY, SubCount(a)) == ""
  {
  }

  lemma OtherPosition(d: Store, c: string, x: string)
    requires Closed(d) && ClientOk(c) && ClientOk(x) && x != c && RegistryOk(d) && Position(d, x) > -1
    ensures Position(Unregistered(d, c), x) == Position(d, x)
  {
    var i, n := Position(d, c), NatOf(RegisteredCount(d));
    var d1 := if i > -1 && n > 0 then Delisted(d, i, n) else d;
    hide Delisted, CutRecord, Closed, ClientOk, View, Ids;
    UnregisterKeepsRegistry(d, c);
    HasId(d, x);
    HasId(Unregistered(d, c), x);
    if i > -1 && n > 0 {
      DelistedRegistry(d, i, n);
    }
    CutRegistry(d1, c);
  }
}
