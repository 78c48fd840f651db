/** What the observer operations leave alone, and which nodes of the observer subtree exist. */
module ObserverNodes {
  import opened Decimal
  import opened FlatStore
  import opened Keys
  import opened Views
  import opened EntryLists
  import opened Observers
  import opened ObserverIndex

  // ---- the frame ----

  function ObserversPath(v: Path): Path { v + ["_observers"] }

  /** Outside the variable's observer subtree values are as before, no node is lost, and only the way to `v` is added. */
  ghost predicate SameOutside(d: Store, d': Store, v: Path) {
    forall p {:trigger Framed(d, d', v, p)} :: Framed(d, d', v, p)
  }

  predicate Framed(d: Store, d': Store, v: Path, p: Path) {
    ObserversPath(v) <= p
    || (Val(d', p) == Val(d, p) && (p in d ==> p in d') && (p in d' ==> p in d || p <= v))
  }

  lemma SameTrans(d: Store, d1: Store, d2: Store, v: Path)
    requires SameOutside(d, d1, v) && SameOutside(d1, d2, v)
    ensures SameOutside(d, d2, v)
  {
    forall p ensures Framed(d, d2, v, p) {
      assert Framed(d, d1, v, p) && Framed(d1, d2, v, p);
    }
  }

  lemma PutFramed(d: Store, v: Path, k: Key, x: string)
    requires OfObservers(k, v)
    ensures SameOutside(d, PutKey(d, k, x), v)
  {
    hide Rel, Put;
    assert PathOf(k) == ObserversPath(v) + Rel(k);
    forall p ensures Framed(d, PutKey(d, k, x), v, p) {
      PutVal(d, PathOf(k), x, p);
      PutIn(d, PathOf(k), x, p);
      if p <= PathOf(k) && !(ObserversPath(v) <= p) {
        ShortPrefix(v, Rel(k), p);
      }
    }
  }

  lemma PrefixesCompare(a: Path, b: Path, q: Path)
    requires a <= q && b <= q
    ensures a <= b || b <= a
  {
    assert a == q[..|a|] && b == q[..|b|];
  }

  lemma ShortPrefix(v: Path, r: Path, p: Path)
    requires p <= ObserversPath(v) + r && !(ObserversPath(v) <= p)
    ensures p <= v
  {
    PrefixesCompare(p, ObserversPath(v), ObserversPath(v) + r);
    assert p == ObserversPath(v)[..|p|] == v[..|p|];
  }

  lemma CutFramed(d: Store, v: Path, r: Path)
    requires Closed(d)
    ensures SameOutside(d, Remove(d, ObserversPath(v) + r, true), v)
  {
    hide Remove;
    forall p ensures Framed(d, Remove(d, ObserversPath(v) + r, true), v, p) {
      RemoveVal(d, ObserversPath(v) + r, true, p);
      RemoveIn(d, ObserversPath(v) + r, true, p);
      if ObserversPath(v) + r <= p {
        assert ObserversPath(v) <= ObserversPath(v) + r <= p;
      }
    }
  }

  lemma SameRefl(d: Store, v: Path)
    ensures SameOutside(d, d, v)
  {
  }

  lemma PutEntryFramed(d: Store, v: Path, i: nat, e: Entry)
    ensures SameOutside(d, PutEntry(d, v, i, e), v)
  {
    hide PutKey, SameOutside;
    var d1 := PutKey(d, ObsClient(v, i), e.client);
    var d2 := PutKey(d1, ObsTag(v, i), e.tag);
    PutFramed(d, v, ObsClient(v, i), e.client);
    PutFramed(d1, v, ObsTag(v, i), e.tag);
    PutFramed(d2, v, ObsIndex(v, e.client, e.tag), Itoa(i));
    SameTrans(d, d1, d2, v);
    SameTrans(d, d2, PutEntry(d, v, i, e), v);
  }

  lemma RegisteredFramed(d: Store, v: Path, e: Entry)
    ensures SameOutside(d, Registered(d, v, e), v)
  {
    hide PutKey, PutEntry, SameOutside, Itoa;
    var n := Size(d, v);
    PutEntryFramed(d, v, n, e);
    PutFramed(PutEntry(d, v, n, e), v, ObsCount(v), Itoa(n + 1));
    SameTrans(d, PutEntry(d, v, n, e), Registered(d, v, e), v);
  }

  lemma {:induction false} ShiftedFramed(d: Store, v: Path, i: nat, j: nat)
    requires i <= j
    ensures SameOutside(d, Shifted(d, v, i, j), v)
    decreases j
  {
    if i == j {
      SameRefl(d, v);
    } else {
      hide PutEntry, SameOutside, EntryAt;
      var d' := Shifted(d, v, i, j - 1);
      ShiftedFramed(d, v, i, j - 1);
      PutEntryFramed(d', v, j - 1, EntryAt(d', v, j));
      SameTrans(d, d', Shifted(d, v, i, j), v);
    }
  }

  lemma RemovedAtFramed(d: Store, v: Path, s: seq<Entry>, i: nat, c: string)
    requires Closed(d) && VarOk(v) && s == Obs(d, v) && EntriesOk(s) && i < |s|
    ensures SameOutside(d, RemovedAt(d, v, i, |s|, c), v)
  {
    hide Shifted, PutKey, Closed, VarOk, SameOutside, Itoa, Obs, EntriesOk, Remove, NodePath;
    var n := |s|;
    var d1 := Shifted(d, v, i, n - 1);
    var d2 := CutSlot(d1, v, n - 1);
    var d3 := PutKey(d2, ObsCount(v), Itoa(n - 1));
    ShiftedFramed(d, v, i, n - 1);
    ShiftedClosed(d, v, s, i, n - 1);
    CutFramed(d1, v, ["list", Itoa(n - 1)]);
    CutsClosed(d1, v, n - 1, c);
    PutFramed(d2, v, ObsCount(v), Itoa(n - 1));
    SlotKeysOk(v, 0);
    PutKeyClosed(d2, ObsCount(v), Itoa(n - 1));
    CutFramed(d3, v, ["byId"] + if c == "" then [] else NodePath(c));
    SameTrans(d, d1, d2, v);
    SameTrans(d, d2, d3, v);
    assert CutById(d3, v, c) == RemovedAt(d, v, i, |s|, c);
    assert ByIdPath(v, c) == ObserversPath(v) + (["byId"] + if c == "" then [] else NodePath(c));
    SameTrans(d, d3, CutById(d3, v, c), v);
  }

  lemma RemovedFramed(d: Store, v: Path, e: Entry)
    requires Closed(d) && VarOk(v) && EntriesOk(Obs(d, v))
    ensures SameOutside(d, Removed(d, v, e), v)
  {
    hide RemovedAt, Closed, VarOk, EntriesOk, Obs, SameOutside, FindLast;
    var i := FindLast(d, v, e, Size(d, v));
    SameRefl(d, v);
    if i >= 0 {
      assert |Obs(d, v)| == Size(d, v);
      RemovedAtFramed(d, v, Obs(d, v), i, e.client);
    }
  }

  lemma PurgedNone(d: Store, v: Path, c: string)
    ensures Purged(d, v, c, 0) == d
  {
  }

  /** Each removal of the loop takes a real entry of the list away, so the loop stays inside it. */
  lemma {:induction false} PurgedFramed(d: Store, v: Path, c: string, a: seq<Entry>, b: seq<Entry>)
    requires Closed(d) && VarOk(v) && ClientOk(c)
    requires Obs(d, v) == a + b && EntriesOk(a + b) && !Mentions(b, c)
    ensures SameOutside(d, Purged(d, v, c, |a|), v)
    decreases |a|
  {
    hide *;
    SameRefl(d, v);
    if a == [] {
      PurgedNone(d, v, c);
    } else {
      var d' := PurgeOne(d, v, c, a, b);
      RemovedFramed(d, v, EntryAt(d, v, |a| - 1));
      KeptOk(a, b, c);
      PurgedFramed(d', v, c, a[..|a| - 1], KeptBehind(a, b, c));
      SameTrans(d, d', Purged(d', v, c, |a| - 1), v);
    }
  }

  /** Same value, same existence. */
  predicate SameAt(d: Store, d': Store, p: Path) { Val(d', p) == Val(d, p) && (p in d' <==> p in d) }

  ghost predicate ObserversSame(d: Store, d': Store, v: Path) {
    forall p {:trigger SameAt(d, d', p)} | ObserversPath(v) <= p :: SameAt(d, d', p)
  }

  /** Two variables' observer subtrees are apart. */
  lemma OtherVariable(d: Store, d': Store, v: Path, v': Path)
    requires VarOk(v) && VarOk(v') && v != v' && SameOutside(d, d', v)
    ensures ObserversSame(d, d', v')
  {
    forall p | ObserversPath(v') <= p ensures SameAt(d, d', p) {
      var r := p[|ObserversPath(v')|..];
      assert p == v' + ["_observers"] + r;
      assert ObserversPath(v) + [] == ObserversPath(v);
      PrefixAtObservers(v, [], v', r);
      assert Framed(d, d', v, p);
      assert p[|v'|] == "_observers";
      ForeignWord(p, v, |v'|);
    }
  }

  lemma PrefixWords(p: Path, v: Path)
    requires p <= v
    ensures forall w | w in p :: w in v
  {
    forall w | w in p ensures w in v {
      var i :| 0 <= i < |p| && p[i] == w;
      assert v[i] == w;
    }
  }

  lemma ForeignWord(p: Path, v: Path, i: nat)
    requires i < |p| && p[i] !in v
    ensures !(p <= v)
  {
    if p <= v {
      PrefixWords(p, v);
      assert false;
    }
  }

  // ---- which nodes exist ----

  /** No slot beyond the end of the list. */
  ghost predicate NoStray(d: Store, v: Path) {
    forall i: nat {:trigger HasSlot(d, v, i)} :: HasSlot(d, v, i) ==> i < Size(d, v)
  }

  ghost predicate Shown(d: Store, v: Path, c: string, t: string) {
    exists t' {:trigger Index(d, v, c, t')} :: TagOk(t') && (t == "" || t' == t) && Index(d, v, c, t') != ""
  }

  predicate HasIndex(d: Store, v: Path, c: string, t: string) { Has(d, ObsIndex(v, c, t)) }

  /** An index node is there only for the sake of an index entry. */
  ghost predicate IndexNodes(d: Store, v: Path) {
    forall c, t {:trigger HasIndex(d, v, c, t)} | ClientOk(c) && TagOk(t) :: HasIndex(d, v, c, t) ==> Shown(d, v, c, t)
  }

  lemma PutSlot(d: Store, k: Key, x: string, v: Path, i: nat)
    requires VarOk(v) && KeyOk(k)
    ensures HasSlot(PutKey(d, k, x), v, i) <==> HasSlot(d, v, i) || OfSlot(k, v, i)
  {
    hide PathOf, KeyOk, VarOk, OfSlot;
    UnderSlot(v, i, k);
    NonEmptyPath(k);
    PutIn(d, PathOf(k), x, SlotPath(v, i));
  }

  lemma PutIndexNode(d: Store, k: Key, x: string, v: Path, c: string, t: string)
    requires VarOk(v) && KeyOk(k) && ClientOk(c) && TagOk(t)
    ensures HasIndex(PutKey(d, k, x), v, c, t) <==> HasIndex(d, v, c, t) || (OfIndex(k, v, c) && (t == "" || t == k.t))
  {
    hide PathOf, KeyOk, VarOk, OfIndex, ClientOk, TagOk;
    UnderIndex(v, c, t, k);
    NonEmptyPath(k);
    NonEmptyPath(ObsIndex(v, c, t));
    PutIn(d, PathOf(k), x, PathOf(ObsIndex(v, c, t)));
  }

  lemma CutSlotNodes(d: Store, v: Path, n: nat, i: nat)
    requires Closed(d) && VarOk(v)
    ensures HasSlot(CutSlot(d, v, n), v, i) <==> HasSlot(d, v, i) && i != n
  {
    hide Itoa, Closed;
    RemoveIn(d, SlotPath(v, n), true, SlotPath(v, i));
    PrefixAtObservers(v, ["list", Itoa(n)], v, ["list", Itoa(i)]);
    StartsWith(["list", Itoa(n)], ["list", Itoa(i)]);
    if Itoa(n) == Itoa(i) {
      ItoaInjective(n, i);
    }
  }

  lemma CutSlotIndexNode(d: Store, v: Path, n: nat, c: string, t: string)
    requires Closed(d) && VarOk(v) && ClientOk(c) && TagOk(t)
    ensures HasIndex(CutSlot(d, v, n), v, c, t) <==> HasIndex(d, v, c, t)
  {
    hide PathOf, Closed;
    var k := ObsIndex(v, c, t);
    RemoveIn(d, SlotPath(v, n), true, PathOf(k));
    UnderSlot(v, n, k);
  }

  lemma CutByIdNodes(d: Store, v: Path, c: string, i: nat)
    requires Closed(d) && VarOk(v) && ClientOk(c)
    ensures HasSlot(CutById(d, v, c), v, i) <==> HasSlot(d, v, i)
  {
    hide Itoa, Closed;
    WordPath(c);
    assert ByIdPath(v, c) == v + ["_observers"] + ["byId", c];
    RemoveIn(d, ByIdPath(v, c), true, SlotPath(v, i));
    PrefixAtObservers(v, ["byId", c], v, ["list", Itoa(i)]);
    StartsWith(["byId", c], ["list", Itoa(i)]);
  }

  lemma CutByIdIndexNode(d: Store, v: Path, c: string, c': string, t: string)
    requires Closed(d) && VarOk(v) && ClientOk(c) && ClientOk(c') && TagOk(t)
    ensures HasIndex(CutById(d, v, c), v, c', t) <==> HasIndex(d, v, c', t) && c' != c
  {
    hide PathOf, Closed, NodePath;
    var k := ObsIndex(v, c', t);
    RemoveIn(d, ByIdPath(v, c), true, PathOf(k));
    UnderById(v, c, k);
  }

  lemma PutEntryNodes(d: Store, v: Path, i: nat, e: Entry, m: nat)
    requires VarOk(v) && EntryOk(e)
    ensures HasSlot(PutEntry(d, v, i, e), v, m) <==> HasSlot(d, v, m) || m == i
  {
    hide PutKey, HasSlot, VarOk, EntryOk, KeyOk;
    KeysOk(v, i, e);
    var d1 := PutKey(d, ObsClient(v, i), e.client);
    var d2 := PutKey(d1, ObsTag(v, i), e.tag);
    PutSlot(d, ObsClient(v, i), e.client, v, m);
    PutSlot(d1, ObsTag(v, i), e.tag, v, m);
    PutSlot(d2, ObsIndex(v, e.client, e.tag), Itoa(i), v, m);
  }

  lemma PutEntryIndexNode(d: Store, v: Path, i: nat, e: Entry, c: string, t: string)
    requires VarOk(v) && EntryOk(e) && ClientOk(c) && TagOk(t)
    ensures HasIndex(PutEntry(d, v, i, e), v, c, t)
       <==> HasIndex(d, v, c, t) || (c == e.client && (t == "" || t == e.tag))
  {
    hide PutKey, HasIndex, VarOk, EntryOk, KeyOk, ClientOk, TagOk;
    KeysOk(v, i, e);
    var d1 := PutKey(d, ObsClient(v, i), e.client);
    var d2 := PutKey(d1, ObsTag(v, i), e.tag);
    PutIndexNode(d, ObsClient(v, i), e.client, v, c, t);
    PutIndexNode(d1, ObsTag(v, i), e.tag, v, c, t);
    PutIndexNode(d2, ObsIndex(v, e.client, e.tag), Itoa(i), v, c, t);
  }

  predicate Moved(s: seq<Entry>, i: nat, j: nat, c: string, t: string)
    requires i <= j < |s|
  {
    exists m | i < m <= j :: s[m].client == c && (t == "" || s[m].tag == t)
  }

  lemma {:induction false} ShiftedNodes(d: Store, v: Path, s: seq<Entry>, i: nat, j: nat, m: nat, c: string, t: string)
    requires VarOk(v) && s == Obs(d, v) && EntriesOk(s) && i <= j < |s| && ClientOk(c) && TagOk(t)
    ensures HasSlot(Shifted(d, v, i, j), v, m) ==> HasSlot(d, v, m) || m < j
    ensures HasIndex(Shifted(d, v, i, j), v, c, t) ==> HasIndex(d, v, c, t) || Moved(s, i, j, c, t)
    decreases j
  {
    hide PutEntry, HasSlot, HasIndex, VarOk, ClientOk, TagOk, EntryAt, EntryOk, Obs;
    if i < j {
      var d' := Shifted(d, v, i, j - 1);
      ShiftedNodes(d, v, s, i, j - 1, m, c, t);
      ShiftedReads(d, v, s, i, j - 1);
      assert s[j] in s && EntryOk(s[j]);
      PutEntryNodes(d', v, j - 1, s[j], m);
      PutEntryIndexNode(d', v, j - 1, s[j], c, t);
      assert Moved(s, i, j - 1, c, t) ==> Moved(s, i, j, c, t);
    }
  }

  lemma RemovedAtNodes(d: Store, v: Path, s: seq<Entry>, i: nat, e: Entry, m: nat, c: string, t: string)
    requires Closed(d) && VarOk(v) && s == Obs(d, v) && EntriesOk(s) && i < |s| && EntryOk(e) && ClientOk(c) && TagOk(t)
    ensures HasSlot(RemovedAt(d, v, i, |s|, e.client), v, m) ==> (HasSlot(d, v, m) || m < |s| - 1) && m != |s| - 1
    ensures HasIndex(RemovedAt(d, v, i, |s|, e.client), v, c, t) ==>
              c != e.client && (HasIndex(d, v, c, t) || Moved(s, i, |s| - 1, c, t))
  {
    var n, w := |s|, e.client;
    hide Shifted, CutSlot, PutKey, CutById, Closed, VarOk, EntriesOk, Obs, HasSlot, HasIndex, Itoa, Moved, KeyOk;
    var d1 := Shifted(d, v, i, n - 1);
    var d2 := CutSlot(d1, v, n - 1);
    var d3 := PutKey(d2, ObsCount(v), Itoa(n - 1));
    SlotKeysOk(v, 0);
    ShiftedNodes(d, v, s, i, n - 1, m, c, t);
    ShiftedClosed(d, v, s, i, n - 1);
    CutSlotNodes(d1, v, n - 1, m);
    CutSlotIndexNode(d1, v, n - 1, c, t);
    CutsClosed(d1, v, n - 1, w);
    PutSlot(d2, ObsCount(v), Itoa(n - 1), v, m);
    PutIndexNode(d2, ObsCount(v), Itoa(n - 1), v, c, t);
    PutKeyClosed(d2, ObsCount(v), Itoa(n - 1));
    CutByIdNodes(d3, v, w, m);
    CutByIdIndexNode(d3, v, w, c, t);
  }

  // ---- the whole invariant of one variable's observers ----

  /** The list holds proper entries in slots 0..count-1 and nowhere else, and the index never lies. */
  ghost predicate ObserversOk(d: Store, v: Path) {
    && Count(d, v) >= 0
    && EntriesOk(Obs(d, v))
    && Truthful(d, v)
    && NoStray(d, v)
    && IndexNodes(d, v)
  }

  lemma CountsStayCounts(d: Store, v: Path, e: Entry)
    requires Closed(d) && VarOk(v) && EntryOk(e) && EntriesOk(Obs(d, v)) && Count(d, v) >= 0
    ensures Count(Registered(d, v, e), v) >= 0 && Count(Removed(d, v, e), v) >= 0
  {
    var s, n := Obs(d, v), Size(d, v);
    var i := FindLast(d, v, e, n);
    assert |s| == n;
    hide View, Registered, RemovedAt, Obs, VarOk, EntryOk, EntriesOk, Closed, Itoa, KeyOk, FindLast;
    SlotKeysOk(v, 0);
    RegisteredViews(d, v, e);
    AtoiItoa(n + 1);
    if i >= 0 {
      CountAfterRemovedAt(d, v, s, i, e);
    }
  }

  lemma CountAfterRemovedAt(d: Store, v: Path, s: seq<Entry>, i: nat, e: Entry)
    requires Closed(d) && VarOk(v) && EntryOk(e) && s == Obs(d, v) && EntriesOk(s) && i < |s|
    ensures Count(RemovedAt(d, v, i, |s|, e.client), v) >= 0
  {
    hide View, RemovedAt, Obs, VarOk, EntriesOk, Closed, Itoa, KeyOk;
    SlotKeysOk(v, 0);
    RemovedAtViews(d, v, s, i, e.client);
    AtoiItoa(|s| - 1);
  }

  lemma RegisterKeepsOk(d: Store, v: Path, e: Entry)
    requires Closed(d) && VarOk(v) && EntryOk(e) && ObserversOk(d, v)
    ensures ObserversOk(Registered(d, v, e), v)
  {
    var d', s := Registered(d, v, e), Obs(d, v);
    hide Registered, Obs, VarOk, EntryOk, Closed, Truthful, HasSlot, HasIndex, Index, ClientOk, TagOk, Size;
    RegisterAppends(d, v, e);
    CountsStayCounts(d, v, e);
    RegisterKeepsTruth(d, v, e);
    assert EntriesOk(s + [e]);
    forall i: nat ensures HasSlot(d', v, i) ==> i < Size(d', v) {
      RegisteredNodes(d, v, e, i);
    }
    forall c, t | ClientOk(c) && TagOk(t) ensures HasIndex(d', v, c, t) ==> Shown(d', v, c, t) {
      RegisteredIndexNodes(d, v, e, c, t);
    }
  }

  lemma RegisteredNodes(d: Store, v: Path, e: Entry, m: nat)
    requires VarOk(v) && EntryOk(e) && NoStray(d, v)
    ensures HasSlot(Registered(d, v, e), v, m) ==> m < Size(Registered(d, v, e), v)
  {
    var n := Size(d, v);
    assert Size(Registered(d, v, e), v) == n + 1 by {
      RegisterAppends(d, v, e);
      assert |Obs(Registered(d, v, e), v)| == |Obs(d, v)| + 1;
    }
    hide PutKey, PutEntry, HasSlot, VarOk, EntryOk, Itoa;
    SlotKeysOk(v, 0);
    PutEntryNodes(d, v, n, e, m);
    PutSlot(PutEntry(d, v, n, e), ObsCount(v), Itoa(n + 1), v, m);
  }

  lemma RegisteredIndexNodes(d: Store, v: Path, e: Entry, c: string, t: string)
    requires VarOk(v) && EntryOk(e) && ClientOk(c) && TagOk(t) && IndexNodes(d, v)
    ensures HasIndex(Registered(d, v, e), v, c, t) ==> Shown(Registered(d, v, e), v, c, t)
  {
    var n, d' := Size(d, v), Registered(d, v, e);
    assert EntryOk(e) ==> TagOk(e.tag) && ClientOk(e.client);
    hide PutKey, PutEntry, HasIndex, VarOk, EntryOk, Itoa, Size, Index, TagOk, ClientOk;
    SlotKeysOk(v, 0);
    PutEntryIndexNode(d, v, n, e, c, t);
    PutIndexNode(PutEntry(d, v, n, e), ObsCount(v), Itoa(n + 1), v, c, t);
    if HasIndex(d, v, c, t) {
      var t' :| TagOk(t') && (t == "" || t' == t) && Index(d, v, c, t') != "";
      RegisteredIndex(d, v, e, c, t');
    } else {
      RegisteredIndex(d, v, e, e.client, e.tag);
    }
  }

  lemma RemoveKeepsOk(d: Store, v: Path, e: Entry)
    requires Closed(d) && VarOk(v) && EntryOk(e) && ObserversOk(d, v)
    ensures ObserversOk(Removed(d, v, e), v)
  {
    var d', s := Removed(d, v, e), Obs(d, v);
    hide Removed, Obs, VarOk, EntryOk, Closed, Truthful, HasSlot, HasIndex, Index, ClientOk, TagOk, Size, LastIndex;
    RemoveDropsLast(d, v, e);
    CountsStayCounts(d, v, e);
    RemoveKeepsTruth(d, v, e);
    assert forall x | x in DropLast(s, e) :: x in s;
    forall i: nat ensures HasSlot(d', v, i) ==> i < Size(d', v) {
      RemovedNodes(d, v, e, i);
    }
    forall c, t | ClientOk(c) && TagOk(t) ensures HasIndex(d', v, c, t) ==> Shown(d', v, c, t) {
      RemovedIndexNodes(d, v, e, c, t);
    }
  }

  lemma RemovedNodes(d: Store, v: Path, e: Entry, m: nat)
    requires Closed(d) && VarOk(v) && EntryOk(e) && EntriesOk(Obs(d, v)) && NoStray(d, v)
    ensures HasSlot(Removed(d, v, e), v, m) ==> m < Size(Removed(d, v, e), v)
  {
    var s, n := Obs(d, v), Size(d, v);
    var i := FindLast(d, v, e, n);
    assert |s| == n && |Obs(Removed(d, v, e), v)| == Size(Removed(d, v, e), v);
    assert TagOk("") && EntryOk(e) ==> ClientOk(e.client);
    hide RemovedAt, Obs, VarOk, EntryOk, Closed, HasSlot, ClientOk, TagOk, Size, FindLast, EntriesOk;
    if i >= 0 {
      RemovedAtNodes(d, v, s, i, e, m, e.client, "");
      RemovedAtList(d, v, s, i, e.client);
      assert HasSlot(d, v, m) ==> m < n;
    }
  }

  lemma RemovedIndexNodes(d: Store, v: Path, e: Entry, c: string, t: string)
    requires Closed(d) && VarOk(v) && EntryOk(e) && EntriesOk(Obs(d, v)) && ClientOk(c) && TagOk(t) && IndexNodes(d, v)
    ensures HasIndex(Removed(d, v, e), v, c, t) ==> Shown(Removed(d, v, e), v, c, t)
  {
    var s, n, d' := Obs(d, v), Size(d, v), Removed(d, v, e);
    var i := FindLast(d, v, e, n);
    assert |s| == n;
    FindLastFinds(d, v, e, n);
    hide RemovedAt, Obs, VarOk, EntryOk, Closed, HasIndex, ClientOk, TagOk, Size, FindLast, EntriesOk, Index, LastIn, Moved,
         Shown;
    if i < 0 {
      assert HasIndex(d, v, c, t) ==> Shown(d, v, c, t);
    } else {
      RemovedAtNodes(d, v, s, i, e, 0, c, t);
      if HasIndex(d', v, c, t) {
        if HasIndex(d, v, c, t) {
          ShownStays(d, v, e, c, t);
        } else {
          MovedIsShown(d, v, e, i, c, t);
        }
      }
    }
  }

  lemma ShownStays(d: Store, v: Path, e: Entry, c: string, t: string)
    requires Closed(d) && VarOk(v) && EntryOk(e) && EntriesOk(Obs(d, v)) && ClientOk(c) && TagOk(t)
    requires c != e.client && Shown(d, v, c, t)
    ensures Shown(Removed(d, v, e), v, c, t)
  {
    hide Removed, Obs, VarOk, EntryOk, Closed, ClientOk, TagOk, EntriesOk, Index, LastIndex;
    var t' :| TagOk(t') && (t == "" || t' == t) && Index(d, v, c, t') != "";
    RemovedIndex(d, v, e, c, t');
    assert Index(Removed(d, v, e), v, c, t') != "";
  }

  lemma MovedIsShown(d: Store, v: Path, e: Entry, i: nat, c: string, t: string)
    requires Closed(d) && VarOk(v) && EntryOk(e) && EntriesOk(Obs(d, v)) && ClientOk(c) && TagOk(t)
    requires i < |Obs(d, v)| && LastIndex(Obs(d, v), e) == i
    requires c != e.client && Moved(Obs(d, v), i, |Obs(d, v)| - 1, c, t)
    ensures Shown(Removed(d, v, e), v, c, t)
  {
    hide Removed, Obs, VarOk, EntryOk, Closed, ClientOk, TagOk, EntriesOk, Index, LastIndex;
    var s := Obs(d, v);
    var m :| i < m <= |s| - 1 && s[m].client == c && (t == "" || s[m].tag == t);
    assert s[m] in s;
    OkParts(s[m], s);
    RemovedIndex(d, v, e, c, s[m].tag);
    LastAtLeast(s, m);
    assert Index(Removed(d, v, e), v, c, s[m].tag) != "";
  }

  lemma LastAtLeast(s: seq<Entry>, m: nat)
    requires m < |s|
    ensures LastIndex(s, Entry(s[m].client, s[m].tag)) >= m
  {
  }

  lemma {:induction false} PurgeKeepsOkFrom(d: Store, v: Path, c: string, a: seq<Entry>, b: seq<Entry>)
    requires Closed(d) && VarOk(v) && ClientOk(c) && ObserversOk(d, v)
    requires Obs(d, v) == a + b && EntriesOk(a + b) && !Mentions(b, c)
    ensures ObserversOk(Purged(d, v, c, |a|), v)
    decreases |a|
  {
    if a != [] {
      hide *;
      var d' := PurgeOne(d, v, c, a, b);
      SplitLast(d, v, a, b);
      if EntryAt(d, v, |a| - 1).client == c {
        RemoveKeepsOk(d, v, EntryAt(d, v, |a| - 1));
      }
      KeptOk(a, b, c);
      PurgeKeepsOkFrom(d', v, c, a[..|a| - 1], KeptBehind(a, b, c));
    }
  }

  lemma PurgeKeepsOk(d: Store, v: Path, c: string)
    requires Closed(d) && VarOk(v) && ClientOk(c) && ObserversOk(d, v)
    ensures ObserversOk(PurgedAll(d, v, c), v)
    ensures SameOutside(d, PurgedAll(d, v, c), v)
  {
    var s := Obs(d, v);
    assert s + [] == s && |s| == Size(d, v) && EntriesOk(s);
    assert !Mentions([], c);
    assert PurgedAll(d, v, c) == Purged(d, v, c, |s|);
    hide *;
    PurgeKeepsOkFrom(d, v, c, s, []);
    PurgedFramed(d, v, c, s, []);
  }

  lemma KeySame(d: Store, d': Store, v: Path, k: Key)
    requires ObserversSame(d, d', v) && OfObservers(k, v)
    ensures View(d', k) == View(d, k) && (Has(d', k) <==> Has(d, k))
  {
    hide Rel;
    assert PathOf(k) == ObserversPath(v) + Rel(k);
    assert SameAt(d, d', PathOf(k));
  }

  lemma ListSame(d: Store, d': Store, v: Path)
    requires ObserversSame(d, d', v)
    ensures Obs(d', v) == Obs(d, v) && Count(d', v) == Count(d, v)
  {
    hide ObserversSame, View, Has;
    KeySame(d, d', v, ObsCount(v));
    forall i: nat ensures EntryAt(d', v, i) == EntryAt(d, v, i) {
      KeySame(d, d', v, ObsClient(v, i));
      KeySame(d, d', v, ObsTag(v, i));
    }
  }

  lemma IndexSame(d: Store, d': Store, v: Path, c: string, t: string)
    requires ObserversSame(d, d', v)
    ensures Index(d', v, c, t) == Index(d, v, c, t)
    ensures HasIndex(d', v, c, t) <==> HasIndex(d, v, c, t)
  {
    KeySame(d, d', v, ObsIndex(v, c, t));
  }

  lemma SlotSame(d: Store, d': Store, v: Path, i: nat)
    requires ObserversSame(d, d', v)
    ensures HasSlot(d', v, i) <==> HasSlot(d, v, i)
  {
    hide Itoa;
    assert SlotPath(v, i) == ObserversPath(v) + ["list", Itoa(i)];
    assert SameAt(d, d', SlotPath(v, i));
  }

  /** Whatever leaves the subtree alone leaves the list, the index and the invariant alone. */
  lemma ObserversCarry(d: Store, d': Store, v: Path)
    requires ObserversSame(d, d', v)
    ensures Obs(d', v) == Obs(d, v)
    ensures ObserversOk(d, v) ==> ObserversOk(d', v)
    ensures Complete(d, v) ==> Complete(d', v)
  {
    hide ObserversSame, Obs, Index, HasIndex, HasSlot, ClientOk, TagOk, Count, LastIndex;
    ListSame(d, d', v);
    if ObserversOk(d, v) {
      forall i: nat ensures HasSlot(d', v, i) ==> i < Size(d', v) {
        SlotSame(d, d', v, i);
      }
      forall c, t | ClientOk(c) && TagOk(t)
        ensures IndexTrue(d', v, c, t)
        ensures HasIndex(d', v, c, t) ==> Shown(d', v, c, t)
      {
        IndexSame(d, d', v, c, t);
        assert IndexTrue(d, v, c, t);
        if HasIndex(d, v, c, t) {
          var t' :| TagOk(t') && (t == "" || t' == t) && Index(d, v, c, t') != "";
          IndexSame(d, d', v, c, t');
        }
      }
    }
    forall x | x in Obs(d, v) ensures Index(d', v, x.client, x.tag) == Index(d, v, x.client, x.tag) {
      IndexSame(d, d', v, x.client, x.tag);
    }
  }

  // ---- the question clients are screened by ----

  /**
   With a complete index, asking whether a client observes with a tag answers exactly that; asking
   without a tag answers whether it observes at all, under any tag.
   */
  lemma IsObservingExactly(d: Store, v: Path, c: string, t: string)
    requires Closed(d) && VarOk(v) && ObserversOk(d, v) && Complete(d, v) && ClientOk(c) && TagOk(t)
    ensures HasIndex(d, v, c, t) <==> if t != "" then Entry(c, t) in Obs(d, v) else Mentions(Obs(d, v), c)
  {
    var s := Obs(d, v);
    assert c != "";
    hide VarOk, Obs, HasIndex, ClientOk, TagOk, LastIndex, Index;
    if HasIndex(d, v, c, t) {
      var t' :| TagOk(t') && (t == "" || t' == t) && Index(d, v, c, t') != "";
      assert IndexTrue(d, v, c, t');
      LastIndexRange(s, Entry(c, t'));
    }
    if e :| e in s && e.client == c && (t == "" || t == e.tag) {
      OkParts(e, s);
      ShownIsThere(d, v, c, t, e.tag);
      assert e == Entry(c, e.tag);
    }
  }

  lemma ShownIsThere(d: Store, v: Path, c: string, t: string, t': string)
    requires Closed(d) && VarOk(v) && ClientOk(c) && TagOk(t) && TagOk(t')
    requires (t == "" || t' == t) && Index(d, v, c, t') != ""
    ensures HasIndex(d, v, c, t)
  {
    hide PathOf;
    IndexKeyOk(v, c, t');
    UnderIndex(v, c, t, ObsIndex(v, c, t'));
    NonEmptyPath(ObsIndex(v, c, t));
    PrefixIn(d, PathOf(ObsIndex(v, c, t')), PathOf(ObsIndex(v, c, t)));
  }
}
