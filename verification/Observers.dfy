/** The observer list of one variable inside the store: what each operation does to the list and its index. */
module Observers {
  import opened Decimal
  import opened FlatStore
  import opened Keys
  import opened Views
  import opened EntryLists

  // ---- reading the list off the store ----

  function Count(d: Store, v: Path): int { GetInt(View(d, ObsCount(v))) }

  function Size(d: Store, v: Path): nat { if Count(d, v) < 0 then 0 else Count(d, v) }

  function EntryAt(d: Store, v: Path, i: nat): Entry { Entry(View(d, ObsClient(v, i)), View(d, ObsTag(v, i))) }

  /** The observers of a variable, in list order. */
  function Obs(d: Store, v: Path): (s: seq<Entry>)
    ensures |s| == Size(d, v)
    ensures forall i | 0 <= i < |s| :: s[i] == EntryAt(d, v, i)
  {
    seq(Size(d, v), i requires 0 <= i < Size(d, v) => EntryAt(d, v, i))
  }

  predicate EntryOk(e: Entry) { ClientOk(e.client) && TagOk(e.tag) }
  predicate EntriesOk(s: seq<Entry>) { forall e | e in s :: EntryOk(e) }

  // ---- the operations, write by write ----

  function PutEntry(d: Store, v: Path, i: nat, e: Entry): Store {
    PutKey(
      PutKey(PutKey(d, ObsClient(v, i), e.client), ObsTag(v, i), e.tag),
      ObsIndex(v, e.client, e.tag), Itoa(i))
  }

  function Registered(d: Store, v: Path, e: Entry): Store {
    PutKey(PutEntry(d, v, Size(d, v), e), ObsCount(v), Itoa(Size(d, v) + 1))
  }

  /** Entries `i+1..j` have each moved down one slot. */
  function Shifted(d: Store, v: Path, i: nat, j: nat): Store
    requires i <= j
    decreases j
  {
    if i == j then d
    else
      var d' := Shifted(d, v, i, j - 1);
      PutEntry(d', v, j - 1, EntryAt(d', v, j))
  }

  /** The search from the end for the slot that holds `e`. */
  function FindLast(d: Store, v: Path, e: Entry, n: nat): (i: int)
    ensures -1 <= i < n
    decreases n
  {
    if n == 0 then -1 else if EntryAt(d, v, n - 1) == e then n - 1 else FindLast(d, v, e, n - 1)
  }

  function RemovedAt(d: Store, v: Path, i: nat, n: nat, c: string): Store
    requires i < n
  {
    CutById(PutKey(CutSlot(Shifted(d, v, i, n - 1), v, n - 1), ObsCount(v), Itoa(n - 1)), v, c)
  }

  function Removed(d: Store, v: Path, e: Entry): Store {
    var n := Size(d, v);
    var i := FindLast(d, v, e, n);
    if i < 0 then d else RemovedAt(d, v, i, n, e.client)
  }

  /** The descending loop that removes every entry of a client, from slot `i - 1` down. */
  function Purged(d: Store, v: Path, c: string, i: nat): Store
    decreases i
  {
    if i == 0 then d
    else
      var e := EntryAt(d, v, i - 1);
      Purged(if e.client == c then Removed(d, v, e) else d, v, c, i - 1)
  }

  function PurgedAll(d: Store, v: Path, c: string): Store { Purged(d, v, c, Size(d, v)) }

  // ---- what they do to the entries ----

  predicate OfObservers(k: Key, v: Path) { OfVariable(k) && !k.LockFlag? && k.v == v }

  lemma PutEntryViews(d: Store, v: Path, i: nat, e: Entry)
    requires VarOk(v) && EntryOk(e)
    ensures forall k | KeyOk(k) :: View(PutEntry(d, v, i, e), k) ==
              if k == ObsClient(v, i) then e.client
              else if k == ObsTag(v, i) then e.tag
              else if k == ObsIndex(v, e.client, e.tag) then Itoa(i)
              else View(d, k)
  {
    hide View, PutKey;
    var d1 := PutKey(d, ObsClient(v, i), e.client);
    var d2 := PutKey(d1, ObsTag(v, i), e.tag);
    PutViews(d, ObsClient(v, i), e.client);
    PutViews(d1, ObsTag(v, i), e.tag);
    PutViews(d2, ObsIndex(v, e.client, e.tag), Itoa(i));
  }

  lemma RegisteredViews(d: Store, v: Path, e: Entry)
    requires VarOk(v) && EntryOk(e)
    ensures var n := Size(d, v);
            forall k | KeyOk(k) :: View(Registered(d, v, e), k) ==
              if k == ObsCount(v) then Itoa(n + 1)
              else if k == ObsClient(v, n) then e.client
              else if k == ObsTag(v, n) then e.tag
              else if k == ObsIndex(v, e.client, e.tag) then Itoa(n)
              else View(d, k)
  {
    hide View, PutKey, PutEntry, Size;
    var n := Size(d, v);
    PutEntryViews(d, v, n, e);
    PutViews(PutEntry(d, v, n, e), ObsCount(v), Itoa(n + 1));
  }

  /** Registering appends to the list. */
  lemma RegisterAppends(d: Store, v: Path, e: Entry)
    requires VarOk(v) && EntryOk(e)
    ensures Obs(Registered(d, v, e), v) == Obs(d, v) + [e]
  {
    hide View, Registered;
    RegisteredViews(d, v, e);
    AtoiItoa(Size(d, v) + 1);
  }

  lemma SlotKeysOk(v: Path, i: nat)
    requires VarOk(v)
    ensures KeyOk(ObsClient(v, i)) && KeyOk(ObsTag(v, i)) && KeyOk(ObsCount(v))
  {
  }

  /** The store after the shift, entry by entry. */
  function ShiftView(d: Store, v: Path, s: seq<Entry>, i: nat, j: nat, k: Key): string
    requires i <= j < |s|
  {
    if k.ObsClient? && k.v == v && i <= k.i < j then s[k.i + 1].client
    else if k.ObsTag? && k.v == v && i <= k.i < j then s[k.i + 1].tag
    else if k.ObsIndex? && k.v == v && LastIn(s, Entry(k.c, k.t), i + 1, j + 1) >= 0 then
      Itoa(LastIn(s, Entry(k.c, k.t), i + 1, j + 1) - 1)
    else View(d, k)
  }

  lemma {:induction false} ShiftedViews(d: Store, v: Path, s: seq<Entry>, i: nat, j: nat)
    requires VarOk(v) && s == Obs(d, v) && EntriesOk(s) && i <= j < |s|
    ensures forall k | KeyOk(k) :: View(Shifted(d, v, i, j), k) == ShiftView(d, v, s, i, j, k)
    decreases j
  {
    hide View, PutEntry, Itoa, KeyOk;
    if i < j {
      var d' := Shifted(d, v, i, j - 1);
      ShiftedViews(d, v, s, i, j - 1);
      assert EntryAt(d', v, j) == s[j] by {
        SlotKeysOk(v, j);
      }
      assert EntryOk(s[j]);
      PutEntryViews(d', v, j - 1, s[j]);
      assert Shifted(d, v, i, j) == PutEntry(d', v, j - 1, s[j]);
      hide *;
      forall k | KeyOk(k) ensures View(Shifted(d, v, i, j), k) == ShiftView(d, v, s, i, j, k) {
        assert View(d', k) == ShiftView(d, v, s, i, j - 1, k);
        ShiftViewStep(d, v, s, i, j, k);
      }
    }
  }

  /** One more entry moved down: what its three writes change. */
  lemma ShiftViewStep(d: Store, v: Path, s: seq<Entry>, i: nat, j: nat, k: Key)
    requires i < j < |s|
    ensures ShiftView(d, v, s, i, j, k) ==
              if k == ObsClient(v, j - 1) then s[j].client
              else if k == ObsTag(v, j - 1) then s[j].tag
              else if k == ObsIndex(v, s[j].client, s[j].tag) then Itoa(j - 1)
              else ShiftView(d, v, s, i, j - 1, k)
  {
    hide View, Itoa;
    if k.ObsIndex? && k.v == v {
      LastInStep(s, Entry(k.c, k.t), i + 1, j);
    }
  }

  lemma LastInStep(s: seq<Entry>, e: Entry, lo: nat, j: nat)
    requires lo <= j < |s|
    ensures LastIn(s, e, lo, j + 1) == if s[j] == e then j else LastIn(s, e, lo, j)
  {
  }

  // ---- the shape of the store is kept ----

  lemma PutEntryClosed(d: Store, v: Path, i: nat, e: Entry)
    requires Closed(d) && VarOk(v) && EntryOk(e)
    ensures Closed(PutEntry(d, v, i, e))
  {
    hide PutKey, Closed, VarOk, EntryOk;
    KeysOk(v, i, e);
    var d1 := PutKey(d, ObsClient(v, i), e.client);
    var d2 := PutKey(d1, ObsTag(v, i), e.tag);
    PutKeyClosed(d, ObsClient(v, i), e.client);
    PutKeyClosed(d1, ObsTag(v, i), e.tag);
    PutKeyClosed(d2, ObsIndex(v, e.client, e.tag), Itoa(i));
  }

  lemma KeysOk(v: Path, i: nat, e: Entry)
    requires VarOk(v) && EntryOk(e)
    ensures KeyOk(ObsClient(v, i)) && KeyOk(ObsTag(v, i)) && KeyOk(ObsIndex(v, e.client, e.tag))
  {
  }

  lemma RegisteredClosed(d: Store, v: Path, e: Entry)
    requires Closed(d) && VarOk(v) && EntryOk(e)
    ensures Closed(Registered(d, v, e))
  {
    hide PutKey, PutEntry, Closed;
    PutEntryClosed(d, v, Size(d, v), e);
    PutKeyClosed(PutEntry(d, v, Size(d, v), e), ObsCount(v), Itoa(Size(d, v) + 1));
  }

  lemma {:induction false} ShiftedClosed(d: Store, v: Path, s: seq<Entry>, i: nat, j: nat)
    requires Closed(d) && VarOk(v) && s == Obs(d, v) && EntriesOk(s) && i <= j < |s|
    ensures Closed(Shifted(d, v, i, j))
    decreases j
  {
    hide PutEntry, Closed, View, ShiftView, VarOk;
    if i < j {
      ShiftedClosed(d, v, s, i, j - 1);
      ShiftedReads(d, v, s, i, j - 1);
      assert EntryOk(s[j]);
      PutEntryClosed(Shifted(d, v, i, j - 1), v, j - 1, s[j]);
    }
  }

  /** The slot the shift reads next still holds what it held before. */
  lemma ShiftedReads(d: Store, v: Path, s: seq<Entry>, i: nat, j: nat)
    requires VarOk(v) && s == Obs(d, v) && EntriesOk(s) && i <= j < |s| - 1
    ensures EntryAt(Shifted(d, v, i, j), v, j + 1) == s[j + 1]
  {
    hide View, Shifted;
    ShiftedViews(d, v, s, i, j);
    SlotKeysOk(v, j + 1);
  }

  lemma RemovedAtClosed(d: Store, v: Path, s: seq<Entry>, i: nat, c: string)
    requires Closed(d) && VarOk(v) && s == Obs(d, v) && EntriesOk(s) && i < |s|
    ensures Closed(RemovedAt(d, v, i, |s|, c))
  {
    hide Shifted, CutSlot, PutKey, CutById, Closed, KeyOk;
    var n := |s|;
    var d1 := Shifted(d, v, i, n - 1);
    var d2 := CutSlot(d1, v, n - 1);
    var d3 := PutKey(d2, ObsCount(v), Itoa(n - 1));
    ShiftedClosed(d, v, s, i, n - 1);
    CutsClosed(d1, v, n - 1, c);
    SlotKeysOk(v, 0);
    PutKeyClosed(d2, ObsCount(v), Itoa(n - 1));
    CutsClosed(d3, v, n - 1, c);
  }

  lemma CutsClosed(d: Store, v: Path, i: nat, c: string)
    requires Closed(d)
    ensures Closed(CutSlot(d, v, i)) && Closed(CutById(d, v, c))
  {
    hide Closed, Remove, NodePath;
    RemoveClosed(d, SlotPath(v, i), true);
    RemoveClosed(d, ByIdPath(v, c), true);
  }

  // ---- removal ----

  lemma {:induction false} FindLastFinds(d: Store, v: Path, e: Entry, n: nat)
    requires n <= Size(d, v)
    ensures FindLast(d, v, e, n) == LastIn(Obs(d, v), e, 0, n)
  {
    hide Obs, EntryAt;
    if n > 0 {
      FindLastFinds(d, v, e, n - 1);
    }
  }

  lemma RemovedAtViews(d: Store, v: Path, s: seq<Entry>, i: nat, c: string)
    requires Closed(d) && VarOk(v) && s == Obs(d, v) && EntriesOk(s) && i < |s| && ClientOk(c)
    ensures forall k | KeyOk(k) :: View(RemovedAt(d, v, i, |s|, c), k) ==
              if OfIndex(k, v, c) then ""
              else if k == ObsCount(v) then Itoa(|s| - 1)
              else if OfSlot(k, v, |s| - 1) then ""
              else ShiftView(d, v, s, i, |s| - 1, k)
  {
    hide View, Shifted, CutSlot, PutKey, CutById, Closed, KeyOk, ShiftView, VarOk, ClientOk, Obs, EntriesOk;
    var n := |s|;
    var d1 := Shifted(d, v, i, n - 1);
    var d2 := CutSlot(d1, v, n - 1);
    var d3 := PutKey(d2, ObsCount(v), Itoa(n - 1));
    SlotKeysOk(v, 0);
    ShiftedClosed(d, v, s, i, n - 1);
    ShiftedViews(d, v, s, i, n - 1);
    CutSlotViews(d1, v, n - 1);
    CutsClosed(d1, v, n - 1, c);
    PutKeyClosed(d2, ObsCount(v), Itoa(n - 1));
    PutViews(d2, ObsCount(v), Itoa(n - 1));
    CutByIdViews(d3, v, c);
  }

  /** Removing slot `i` closes the gap and keeps every other entry in order. */
  lemma RemovedAtList(d: Store, v: Path, s: seq<Entry>, i: nat, c: string)
    requires Closed(d) && VarOk(v) && s == Obs(d, v) && EntriesOk(s) && i < |s| && ClientOk(c)
    ensures Obs(RemovedAt(d, v, i, |s|, c), v) == RemoveAt(s, i)
  {
    hide View, RemovedAt, Closed, VarOk, EntriesOk, KeyOk;
    var n, d' := |s|, RemovedAt(d, v, i, |s|, c);
    RemovedAtViews(d, v, s, i, c);
    SlotKeysOk(v, 0);
    AtoiItoa(n - 1);
    assert Size(d', v) == n - 1;
    forall m | 0 <= m < n - 1 ensures EntryAt(d', v, m) == RemoveAt(s, i)[m] {
      SlotKeysOk(v, m);
    }
  }

  /** Removal deletes exactly the last occurrence of the pair, or nothing. */
  lemma RemoveDropsLast(d: Store, v: Path, e: Entry)
    requires Closed(d) && VarOk(v) && EntriesOk(Obs(d, v)) && EntryOk(e)
    ensures Obs(Removed(d, v, e), v) == DropLast(Obs(d, v), e)
    ensures Closed(Removed(d, v, e))
  {
    hide RemovedAt, Obs, EntriesOk, Closed, VarOk, LastIn, Size;
    var s := Obs(d, v);
    FindLastFinds(d, v, e, Size(d, v));
    var i := FindLast(d, v, e, Size(d, v));
    if i >= 0 {
      RemovedAtList(d, v, s, i, e.client);
      RemovedAtClosed(d, v, s, i, e.client);
    }
  }
}
