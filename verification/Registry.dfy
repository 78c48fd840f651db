/** The client registry: who is known, and which variables each client observes. */
module Registry {
  import opened Options
  import opened Decimal
  import opened FlatStore
  import opened Keys
  import opened Views

  // ---- reading ----

  function RegisteredCount(d: Store): int { GetInt(View(d, RegCount)) }

  function NatOf(i: int): nat { if i < 0 then 0 else i }

  function SubsCount(d: Store, c: string): int { GetInt(View(d, SubCount(c))) }

  /** The full names of the variables a client observes, in list order. */
  function Subs(d: Store, c: string): (s: seq<string>)
    ensures |s| == NatOf(SubsCount(d, c))
    ensures forall i | 0 <= i < |s| :: s[i] == View(d, SubSlot(c, i))
  {
    seq(NatOf(SubsCount(d, c)), i requires 0 <= i => View(d, SubSlot(c, i)))
  }

  /** Every id that has a node under `internal.clients.byId`. */
  function Ids(d: Store): set<string> { ChildWords(d, ["internal", "clients", "byId"]) }

  // ---- the operations, write by write ----

  /** First contact enlists the client; every contact refreshes its API and the time it was last seen. */
  function Initialized(d: Store, c: string, apiId: Option<string>, now: string): Store {
    var n := NatOf(RegisteredCount(d));
    var d1 := if Has(d, RegPos(c)) then d
              else PutKey(PutKey(PutKey(d, RegCount, Itoa(n + 1)), RegSlot(n), c), RegPos(c), Itoa(n));
    var d2 := if apiId.Some? then PutKey(d1, RegApi(c), apiId.value) else d1;
    PutKey(d2, RegLive(c), now)
  }

  function Subscribed(d: Store, c: string, full: string, now: string): Store {
    var d1 := PutKey(d, RegLive(c), now);
    var n := NatOf(SubsCount(d1, c));
    PutKey(PutKey(d1, SubCount(c), Itoa(n + 1)), SubSlot(c, n), full)
  }

  /** The search from the front for a variable. */
  function FindSub(d: Store, c: string, full: string, i: nat, n: nat): (r: int)
    requires i <= n
    ensures r == -1 || i <= r < n
    decreases n - i
  {
    if i == n then -1 else if View(d, SubSlot(c, i)) == full then i else FindSub(d, c, full, i + 1, n)
  }

  function SubShifted(d: Store, c: string, i: nat, j: nat): Store
    requires i <= j
    decreases j
  {
    if i == j then d
    else
      var d' := SubShifted(d, c, i, j - 1);
      PutKey(d', SubSlot(c, j - 1), View(d', SubSlot(c, j)))
  }

  function SubRemovedAt(d: Store, c: string, i: nat, n: nat): Store
    requires i < n
  {
    PutKey(DropKey(SubShifted(d, c, i, n - 1), SubSlot(c, n - 1)), SubCount(c), Itoa(n - 1))
  }

  function Unsubscribed(d: Store, c: string, full: string, now: string): Store {
    var d1 := PutKey(d, RegLive(c), now);
    var n := NatOf(SubsCount(d1, c));
    var i := FindSub(d1, c, full, 0, n);
    if i < 0 then d1 else SubRemovedAt(d1, c, i, n)
  }

  function RegShifted(d: Store, i: nat, j: nat): Store
    requires i <= j
    decreases j
  {
    if i == j then d
    else
      var d' := RegShifted(d, i, j - 1);
      PutKey(d', RegSlot(j - 1), View(d', RegSlot(j)))
  }

  /** A client that is not registered has position -1; a record without a position counts as position 0. */
  function Position(d: Store, c: string): int { if Has(d, RegPos(c)) then GetInt(View(d, RegPos(c))) else -1 }

  function Delisted(d: Store, i: nat, n: nat): Store
    requires n > 0
  {
    PutKey(DropKey(RegShifted(d, i, if i < n then n - 1 else i), RegSlot(n - 1)), RegCount, Itoa(n - 1))
  }

  function Unregistered(d: Store, c: string): Store {
    var i, n := Position(d, c), NatOf(RegisteredCount(d));
    CutRecord(if i > -1 && n > 0 then Delisted(d, i, n) else d, c)
  }

  // ---- what they do to the entries ----

  lemma RecordKeysOk(c: string, i: nat)
    requires ClientOk(c)
    ensures KeyOk(RegCount) && KeyOk(RegSlot(i)) && KeyOk(RegPos(c)) && KeyOk(RegApi(c)) && KeyOk(RegLive(c))
    ensures KeyOk(SubCount(c)) && KeyOk(SubSlot(c, i))
  {
  }

  predicate OfEnlisting(k: Key, c: string) {
    k.RegCount? || k.RegSlot? || k == RegPos(c) || k == RegApi(c) || k == RegLive(c)
  }

  lemma InitializedViews(d: Store, c: string, apiId: Option<string>, now: string)
    requires ClientOk(c)
    ensures forall k | KeyOk(k) && !OfEnlisting(k, c) :: View(Initialized(d, c, apiId, now), k) == View(d, k)
    ensures Has(d, RegPos(c)) ==> View(Initialized(d, c, apiId, now), RegPos(c)) == View(d, RegPos(c))
    ensures !Has(d, RegPos(c)) ==>
              View(Initialized(d, c, apiId, now), RegPos(c)) == Itoa(NatOf(RegisteredCount(d)))
    ensures View(Initialized(d, c, apiId, now), RegCount) ==
              if Has(d, RegPos(c)) then View(d, RegCount) else Itoa(NatOf(RegisteredCount(d)) + 1)
    ensures forall i: nat :: View(Initialized(d, c, apiId, now), RegSlot(i)) ==
              if !Has(d, RegPos(c)) && i == NatOf(RegisteredCount(d)) then c else View(d, RegSlot(i))
    ensures View(Initialized(d, c, apiId, now), RegLive(c)) == now
    ensures View(Initialized(d, c, apiId, now), RegApi(c)) == if apiId.Some? then apiId.value else View(d, RegApi(c))
  {
    hide PutKey, View, KeyOk, Itoa, Has, RegisteredCount, ClientOk;
    RecordKeysOk(c, NatOf(RegisteredCount(d)));
    var n := NatOf(RegisteredCount(d));
    var e1 := PutKey(d, RegCount, Itoa(n + 1));
    var e2 := PutKey(e1, RegSlot(n), c);
    PutViews(d, RegCount, Itoa(n + 1));
    PutViews(e1, RegSlot(n), c);
    PutViews(e2, RegPos(c), Itoa(n));
    var d1 := if Has(d, RegPos(c)) then d else PutKey(e2, RegPos(c), Itoa(n));
    var d2 := if apiId.Some? then PutKey(d1, RegApi(c), apiId.value) else d1;
    if apiId.Some? {
      PutViews(d1, RegApi(c), apiId.value);
    }
    PutViews(d2, RegLive(c), now);
    forall i: nat ensures View(Initialized(d, c, apiId, now), RegSlot(i)) ==
              if !Has(d, RegPos(c)) && i == n then c else View(d, RegSlot(i)) {
      RecordKeysOk(c, i);
    }
  }

  lemma SubscribedViews(d: Store, c: string, full: string, now: string)
    requires ClientOk(c)
    ensures var n := NatOf(SubsCount(d, c));
            forall k | KeyOk(k) :: View(Subscribed(d, c, full, now), k) ==
              if k == RegLive(c) then now
              else if k == SubCount(c) then Itoa(n + 1)
              else if k == SubSlot(c, n) then full
              else View(d, k)
  {
    hide PutKey, View, KeyOk, Itoa, ClientOk;
    var d1 := PutKey(d, RegLive(c), now);
    var n := NatOf(SubsCount(d, c));
    RecordKeysOk(c, n);
    PutViews(d, RegLive(c), now);
    assert SubsCount(d1, c) == SubsCount(d, c);
    PutViews(d1, SubCount(c), Itoa(n + 1));
    PutViews(PutKey(d1, SubCount(c), Itoa(n + 1)), SubSlot(c, n), full);
  }

  /** Subscribing appends to the client's list. */
  lemma SubscribeAppends(d: Store, c: string, full: string, now: string)
    requires ClientOk(c)
    ensures Subs(Subscribed(d, c, full, now), c) == Subs(d, c) + [full]
  {
    hide View, KeyOk, Itoa, ClientOk, Subscribed;
    var n, d' := NatOf(SubsCount(d, c)), Subscribed(d, c, full, now);
    SubscribedViews(d, c, full, now);
    RecordKeysOk(c, n);
    AtoiItoa(n + 1);
    assert SubsCount(d', c) == n + 1;
    forall i: nat | i <= n ensures View(d', SubSlot(c, i)) == (Subs(d, c) + [full])[i] {
      RecordKeysOk(c, i);
    }
  }

  function SubShiftView(d: Store, c: string, i: nat, j: nat, k: Key): string {
    if k.SubSlot? && k.c == c && i <= k.i < j then View(d, SubSlot(c, k.i + 1)) else View(d, k)
  }

  lemma {:induction false} SubShiftedViews(d: Store, c: string, i: nat, j: nat)
    requires ClientOk(c) && i <= j
    ensures forall k | KeyOk(k) :: View(SubShifted(d, c, i, j), k) == SubShiftView(d, c, i, j, k)
    decreases j
  {
    hide PutKey, View, KeyOk, ClientOk;
    if i < j {
      var d' := SubShifted(d, c, i, j - 1);
      SubShiftedViews(d, c, i, j - 1);
      RecordKeysOk(c, j);
      RecordKeysOk(c, j - 1);
      PutViews(d', SubSlot(c, j - 1), View(d', SubSlot(c, j)));
      assert SubShifted(d, c, i, j) == PutKey(d', SubSlot(c, j - 1), View(d', SubSlot(c, j)));
      assert View(d', SubSlot(c, j)) == View(d, SubSlot(c, j));
      forall k | KeyOk(k) ensures View(SubShifted(d, c, i, j), k) == SubShiftView(d, c, i, j, k) {
        assert View(d', k) == SubShiftView(d, c, i, j - 1, k);
        assert k.SubSlot? ==> k == SubSlot(k.c, k.i);
      }
    }
  }

  lemma {:induction false} SubShiftedClosed(d: Store, c: string, i: nat, j: nat)
    requires Closed(d) && ClientOk(c) && i <= j
    ensures Closed(SubShifted(d, c, i, j))
    decreases j
  {
    hide PutKey, View, KeyOk, ClientOk, Closed;
    if i < j {
      var d' := SubShifted(d, c, i, j - 1);
      SubShiftedClosed(d, c, i, j - 1);
      RecordKeysOk(c, j - 1);
      PutKeyClosed(d', SubSlot(c, j - 1), View(d', SubSlot(c, j)));
    }
  }

  lemma DropKeyClosed(d: Store, k: Key)
    requires Closed(d)
    ensures Closed(DropKey(d, k))
  {
    RemoveClosed(d, PathOf(k), false);
  }

  /** The store after a removal, entry by entry. */
  function SubGap(d: Store, c: string, i: nat, n: nat, k: Key): string
    requires i < n
  {
    if k == SubCount(c) then Itoa(n - 1)
    else if k == SubSlot(c, n - 1) then ""
    else if k.SubSlot? && k.c == c && i <= k.i < n - 1 then View(d, SubSlot(c, k.i + 1))
    else View(d, k)
  }

  lemma SubRemovedAtViews(d: Store, c: string, i: nat, n: nat)
    requires Closed(d) && ClientOk(c) && i < n
    ensures Closed(SubRemovedAt(d, c, i, n))
    ensures forall k | KeyOk(k) :: View(SubRemovedAt(d, c, i, n), k) == SubGap(d, c, i, n, k)
  {
    hide PutKey, DropKey, View, KeyOk, ClientOk, Closed, Itoa, SubShifted;
    var d1 := SubShifted(d, c, i, n - 1);
    var d2 := DropKey(d1, SubSlot(c, n - 1));
    RecordKeysOk(c, n - 1);
    SubShiftedViews(d, c, i, n - 1);
    SubShiftedClosed(d, c, i, n - 1);
    DropViews(d1, SubSlot(c, n - 1));
    DropKeyClosed(d1, SubSlot(c, n - 1));
    PutViews(d2, SubCount(c), Itoa(n - 1));
    PutKeyClosed(d2, SubCount(c), Itoa(n - 1));
    forall k | KeyOk(k) ensures View(SubRemovedAt(d, c, i, n), k) == SubGap(d, c, i, n, k) {
      assert View(d1, k) == SubShiftView(d, c, i, n - 1, k);
      assert k.SubSlot? ==> k == SubSlot(k.c, k.i);
    }
  }

  // ---- the list a client keeps ----

  /** The first position of `x`, or -1. */
  function FirstFrom(s: seq<string>, x: string, i: nat): (r: int)
    requires i <= |s|
    ensures r == -1 || i <= r < |s|
    ensures r == -1 <==> x !in s[i..]
    ensures r >= 0 ==> s[r] == x
    decreases |s| - i
  {
    if i == |s| then -1
    else if s[i] == x then (assert s[i..][0] == x; i)
    else
      assert s[i..] == [s[i]] + s[i + 1..];
      FirstFrom(s, x, i + 1)
  }

  /** The list without the first `x`. */
  function DropFirst(s: seq<string>, x: string): seq<string> {
    var i := FirstFrom(s, x, 0);
    if i < 0 then s else s[..i] + s[i + 1..]
  }

  lemma DropFirstCounts(s: seq<string>, x: string)
    ensures multiset(DropFirst(s, x)) == multiset(s) - multiset{x}
    ensures |DropFirst(s, x)| == |s| - if x in s then 1 else 0
  {
    var i := FirstFrom(s, x, 0);
    assert s[0..] == s;
    if i >= 0 {
      assert s == s[..i] + [x] + s[i + 1..];
    }
  }

  lemma {:induction false} FindSubFinds(d: Store, c: string, full: string, i: nat)
    requires i <= |Subs(d, c)|
    ensures FindSub(d, c, full, i, |Subs(d, c)|) == FirstFrom(Subs(d, c), full, i)
    decreases |Subs(d, c)| - i
  {
    hide View, SubsCount;
    if i < |Subs(d, c)| {
      FindSubFinds(d, c, full, i + 1);
    }
  }

  lemma LiveKeepsSubs(d: Store, c: string, c': string, now: string)
    requires ClientOk(c) && ClientOk(c')
    ensures Subs(PutKey(d, RegLive(c), now), c') == Subs(d, c')
  {
    hide View, PutKey, KeyOk, ClientOk;
    RecordKeysOk(c, 0);
    RecordKeysOk(c', 0);
    PutViews(d, RegLive(c), now);
    forall i: nat ensures View(PutKey(d, RegLive(c), now), SubSlot(c', i)) == View(d, SubSlot(c', i)) {
      RecordKeysOk(c', i);
    }
    assert SubsCount(PutKey(d, RegLive(c), now), c') == SubsCount(d, c');
  }

  /** Unsubscribing deletes the first occurrence of the variable and keeps the order of the rest. */
  lemma UnsubscribeDropsFirst(d: Store, c: string, full: string, now: string)
    requires Closed(d) && ClientOk(c)
    ensures Subs(Unsubscribed(d, c, full, now), c) == DropFirst(Subs(d, c), full)
    ensures Closed(Unsubscribed(d, c, full, now))
  {
    hide View, PutKey, KeyOk, ClientOk, SubRemovedAt, Closed, FindSub, FirstFrom;
    var d1, s := PutKey(d, RegLive(c), now), Subs(d, c);
    LiveKeepsSubs(d, c, c, now);
    RecordKeysOk(c, 0);
    PutKeyClosed(d, RegLive(c), now);
    FindSubFinds(d1, c, full, 0);
    assert |s| == NatOf(SubsCount(d1, c)) by {
      assert |Subs(d1, c)| == |s|;
    }
    var i := FirstFrom(s, full, 0);
    if i >= 0 {
      SubRemovedAtList(d1, c, i);
    }
  }

  lemma SubRemovedAtCount(d: Store, c: string, i: nat, n: nat)
    requires Closed(d) && ClientOk(c) && i < n
    ensures SubsCount(SubRemovedAt(d, c, i, n), c) == n - 1
  {
    hide View, Itoa, ClientOk, KeyOk, SubRemovedAt, Closed;
    RecordKeysOk(c, n);
    SubRemovedAtViews(d, c, i, n);
    AtoiItoa(n - 1);
  }

  lemma SubRemovedAtKeepsClosed(d: Store, c: string, i: nat, n: nat)
    requires Closed(d) && ClientOk(c) && i < n
    ensures Closed(SubRemovedAt(d, c, i, n))
  {
    hide View, ClientOk, KeyOk, SubRemovedAt, Closed;
    SubRemovedAtViews(d, c, i, n);
  }

  lemma SubRemovedAtList(d: Store, c: string, i: nat)
    requires Closed(d) && ClientOk(c) && i < |Subs(d, c)|
    ensures var s := Subs(d, c);
            Subs(SubRemovedAt(d, c, i, |s|), c) == s[..i] + s[i + 1..]
    ensures Closed(SubRemovedAt(d, c, i, |Subs(d, c)|))
  {
    var s := Subs(d, c);
    var n, d' := |s|, SubRemovedAt(d, c, i, |s|);
    hide View, SubRemovedAt, Closed, SubsCount, ClientOk;
    SubRemovedAtCount(d, c, i, n);
    SubRemovedAtKeepsClosed(d, c, i, n);
    forall m: nat | m < n - 1 ensures View(d', SubSlot(c, m)) == (s[..i] + s[i + 1..])[m] {
      SubRemovedAtSlot(d, c, i, n, m);
    }
  }

  lemma SubRemovedAtSlot(d: Store, c: string, i: nat, n: nat, m: nat)
    requires Closed(d) && ClientOk(c) && i < n && m < n - 1
    ensures View(SubRemovedAt(d, c, i, n), SubSlot(c, m)) == View(d, SubSlot(c, if m < i then m else m + 1))
  {
    hide View, KeyOk, ClientOk, SubRemovedAt, Closed, Itoa;
    SubRemovedAtViews(d, c, i, n);
    RecordKeysOk(c, m);
  }

  /** Dropping a variable takes out its first occurrence and nothing else. */
  lemma DropFirstExactly(a: seq<string>, x: string, b: seq<string>)
    requires x !in a
    ensures DropFirst(a + [x] + b, x) == a + b && DropFirst(a, x) == a
  {
    var s := a + [x] + b;
    assert s[0..] == s && a[0..] == a;
    assert s[|a|] == x && forall m | 0 <= m < |a| :: s[m] == a[m];
    FirstAt(s, x, 0, |a|);
    assert s[..|a|] == a && s[|a| + 1..] == b;
  }

  lemma {:induction false} FirstAt(s: seq<string>, x: string, i: nat, m: nat)
    requires i <= m < |s| && s[m] == x && forall j | i <= j < m :: s[j] != x
    ensures FirstFrom(s, x, i) == m
    decreases m - i
  {
    if i < m {
      FirstAt(s, x, i + 1, m);
    }
  }

  /** Every attempt to unsubscribe counts as a sighting of the client, whether it had the variable or not. */
  lemma UnsubscribeSees(d: Store, c: string, full: string, now: string)
    requires Closed(d) && ClientOk(c)
    ensures View(Unsubscribed(d, c, full, now), RegLive(c)) == now
  {
    hide View, PutKey, KeyOk, ClientOk, SubRemovedAt, Closed, FindSub;
    var d1 := PutKey(d, RegLive(c), now);
    RecordKeysOk(c, 0);
    PutKeyClosed(d, RegLive(c), now);
    PutViews(d, RegLive(c), now);
    var n := NatOf(SubsCount(d1, c));
    var i := FindSub(d1, c, full, 0, n);
    if i >= 0 {
      SubRemovedAtViews(d1, c, i, n);
    }
  }
}
