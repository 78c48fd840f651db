/** The inverse index of a variable's observer list: it never lies, and exactly when it is complete. */
module ObserverIndex {
  import opened Decimal
  import opened FlatStore
  import opened Keys
  import opened Views
  import opened EntryLists
  import opened Observers

  function Index(d: Store, v: Path, c: string, t: string): string { View(d, ObsIndex(v, c, t)) }

  /** An index entry, when there is one, is the pair's last slot. */
  predicate IndexTrue(d: Store, v: Path, c: string, t: string) {
    var j := LastIndex(Obs(d, v), Entry(c, t));
    Index(d, v, c, t) == "" || (j >= 0 && Index(d, v, c, t) == Itoa(j))
  }

  /** What an index entry holds: the last slot its client and tag are listed in. */
  lemma IndexTrueMeans(d: Store, v: Path, c: string, t: string)
    requires IndexTrue(d, v, c, t) && Index(d, v, c, t) != ""
    ensures var s, j := Obs(d, v), GetInt(Index(d, v, c, t));
            0 <= j < |s| && s[j] == Entry(c, t) && forall m | j < m < |s| :: s[m] != Entry(c, t)
  {
    hide Obs, Index, Itoa;
    AtoiItoa(LastIndex(Obs(d, v), Entry(c, t)));
  }

  ghost predicate Truthful(d: Store, v: Path) {
    forall c, t {:trigger IndexTrue(d, v, c, t)} | ClientOk(c) && TagOk(t) :: IndexTrue(d, v, c, t)
  }

  /** Every subscription other than those of `c` can be found through the index. */
  predicate CompleteBut(d: Store, v: Path, c: string) {
    forall e | e in Obs(d, v) && e.client != c :: Index(d, v, e.client, e.tag) != ""
  }

  /** Every subscription can be found through the index. */
  predicate Complete(d: Store, v: Path) { CompleteBut(d, v, "") }

  lemma IndexKeyOk(v: Path, c: string, t: string)
    requires VarOk(v) && ClientOk(c) && TagOk(t)
    ensures KeyOk(ObsIndex(v, c, t))
  {
  }

  // ---- registering ----

  lemma RegisteredIndex(d: Store, v: Path, e: Entry, c: string, t: string)
    requires VarOk(v) && EntryOk(e) && ClientOk(c) && TagOk(t)
    ensures Index(Registered(d, v, e), v, c, t) == if e == Entry(c, t) then Itoa(Size(d, v)) else Index(d, v, c, t)
  {
    hide View, Registered, Itoa, KeyOk;
    IndexKeyOk(v, c, t);
    RegisteredViews(d, v, e);
  }

  lemma RegisterKeepsTruth(d: Store, v: Path, e: Entry)
    requires VarOk(v) && EntryOk(e) && Truthful(d, v)
    ensures Truthful(Registered(d, v, e), v)
  {
    hide Index, Registered, Obs, LastIndex, Itoa, VarOk, EntryOk, ClientOk, TagOk;
    var d' := Registered(d, v, e);
    RegisterAppends(d, v, e);
    forall c, t | ClientOk(c) && TagOk(t) ensures IndexTrue(d', v, c, t) {
      assert IndexTrue(d, v, c, t);
      RegisteredIndex(d, v, e, c, t);
      LastIndexAfterAppend(Obs(d, v), e, Entry(c, t));
    }
  }

  lemma RegisterKeepsComplete(d: Store, v: Path, e: Entry, c: string)
    requires VarOk(v) && EntryOk(e) && EntriesOk(Obs(d, v)) && CompleteBut(d, v, c)
    ensures CompleteBut(Registered(d, v, e), v, c)
  {
    hide Index, Registered, Obs, Itoa, VarOk, ClientOk, TagOk;
    RegisterAppends(d, v, e);
    forall x | x in Obs(d, v) + [e] && x.client != c
      ensures Index(Registered(d, v, e), v, x.client, x.tag) != ""
    {
      assert EntryOk(x);
      RegisteredIndex(d, v, e, x.client, x.tag);
    }
  }

  // ---- removing ----

  /** The index after a removal: the client's own entries are all gone, entries past the gap moved down one. */
  lemma RemovedIndex(d: Store, v: Path, e: Entry, c: string, t: string)
    requires Closed(d) && VarOk(v) && EntriesOk(Obs(d, v)) && EntryOk(e) && ClientOk(c) && TagOk(t)
    ensures var i, m := LastIndex(Obs(d, v), e), LastIndex(Obs(d, v), Entry(c, t));
            Index(Removed(d, v, e), v, c, t) ==
              if i < 0 then Index(d, v, c, t)
              else if c == e.client then ""
              else if m > i then Itoa(m - 1)
              else Index(d, v, c, t)
  {
    hide View, RemovedAt, Obs, EntriesOk, Closed, VarOk, Itoa, KeyOk, Size, LastIn;
    var s := Obs(d, v);
    FindLastFinds(d, v, e, Size(d, v));
    var i := FindLast(d, v, e, Size(d, v));
    if i >= 0 {
      IndexKeyOk(v, c, t);
      RemovedAtViews(d, v, s, i, e.client);
      LastInTail(s, Entry(c, t), i + 1);
    }
  }

  lemma LastInTail(s: seq<Entry>, e: Entry, lo: nat)
    requires lo <= |s|
    ensures LastIn(s, e, lo, |s|) == if LastIndex(s, e) >= lo then LastIndex(s, e) else -1
  {
  }

  lemma RemoveKeepsTruth(d: Store, v: Path, e: Entry)
    requires Closed(d) && VarOk(v) && EntriesOk(Obs(d, v)) && EntryOk(e) && Truthful(d, v)
    ensures Truthful(Removed(d, v, e), v)
  {
    hide Index, Removed, Obs, Itoa, VarOk, EntriesOk, EntryOk, ClientOk, TagOk, LastIndex, RemoveAt;
    var d', s := Removed(d, v, e), Obs(d, v);
    var i := LastIndex(s, e);
    RemoveDropsLast(d, v, e);
    LastIndexRange(s, e);
    forall c, t | ClientOk(c) && TagOk(t) ensures IndexTrue(d', v, c, t) {
      assert IndexTrue(d, v, c, t);
      RemovedIndex(d, v, e, c, t);
      if i >= 0 && c != e.client {
        LastIndexAfterRemoval(s, i, Entry(c, t));
        LastIndexRange(s, Entry(c, t));
      }
    }
  }

  lemma LastIndexRange(s: seq<Entry>, e: Entry)
    ensures -1 <= LastIndex(s, e) < |s|
    ensures LastIndex(s, e) >= 0 ==> s[LastIndex(s, e)] == e
    ensures LastIndex(s, e) >= 0 <==> e in s
  {
  }

  /** A removal can only cost the index entries of the client it removes. */
  lemma RemoveKeepsOthersComplete(d: Store, v: Path, e: Entry)
    requires Closed(d) && VarOk(v) && EntriesOk(Obs(d, v)) && EntryOk(e) && CompleteBut(d, v, e.client)
    ensures CompleteBut(Removed(d, v, e), v, e.client)
  {
    hide Index, Removed, Obs, Itoa, VarOk, EntryOk, LastIndex;
    var s := Obs(d, v);
    RemoveDropsLast(d, v, e);
    LastIndexRange(s, e);
    forall x | x in DropLast(s, e) && x.client != e.client
      ensures Index(Removed(d, v, e), v, x.client, x.tag) != ""
    {
      assert x in s;
      OkParts(x, s);
      RemovedIndex(d, v, e, x.client, x.tag);
    }
  }

  lemma OkParts(e: Entry, s: seq<Entry>)
    requires EntriesOk(s) && e in s
    ensures ClientOk(e.client) && TagOk(e.tag) && EntryOk(e) && e.client != ""
  {
  }

  /** Removing one of a client's tags leaves the index complete exactly when it was the client's only entry. */
  lemma RemoveKeepsCompleteExactly(d: Store, v: Path, e: Entry)
    requires Closed(d) && VarOk(v) && EntriesOk(Obs(d, v)) && EntryOk(e) && Complete(d, v)
    requires e in Obs(d, v)
    ensures Complete(Removed(d, v, e), v) <==> !Mentions(DropLast(Obs(d, v), e), e.client)
  {
    hide Index, Removed, Obs, Itoa, VarOk, EntryOk, LastIndex;
    var s, d' := Obs(d, v), Removed(d, v, e);
    RemoveDropsLast(d, v, e);
    LastIndexRange(s, e);
    assert CompleteBut(d, v, e.client) by {
      forall x | x in s ensures x.client != "" {
        OkParts(x, s);
      }
    }
    RemoveKeepsOthersComplete(d, v, e);
    forall x | x in DropLast(s, e)
      ensures x.client != ""
      ensures x.client == e.client ==> Index(d', v, x.client, x.tag) == ""
    {
      assert x in s;
      OkParts(x, s);
      RemovedIndex(d, v, e, x.client, x.tag);
    }
  }

  // ---- removing a client altogether ----

  function KeptBehind(a: seq<Entry>, b: seq<Entry>, c: string): seq<Entry>
    requires a != []
  {
    if a[|a| - 1].client == c then b else [a[|a| - 1]] + b
  }

  lemma PurgedStep(d: Store, v: Path, c: string, i: nat)
    requires i > 0
    ensures Purged(d, v, c, i) ==
            Purged(if EntryAt(d, v, i - 1).client == c then Removed(d, v, EntryAt(d, v, i - 1)) else d, v, c, i - 1)
  {
  }

  /** One turn of the descending loop: an entry of the client is, by then, the last one left of it. */
  lemma PurgeHit(d: Store, v: Path, e: Entry, a: seq<Entry>, b: seq<Entry>)
    requires Closed(d) && VarOk(v) && EntryOk(e)
    requires Obs(d, v) == a + [e] + b && EntriesOk(a + [e] + b) && !Mentions(b, e.client)
    ensures Closed(Removed(d, v, e)) && Obs(Removed(d, v, e), v) == a + b
    ensures Truthful(d, v) ==> Truthful(Removed(d, v, e), v)
    ensures CompleteBut(d, v, e.client) ==> CompleteBut(Removed(d, v, e), v, e.client)
  {
    hide Obs, Removed, VarOk, EntryOk, Truthful, CompleteBut, Closed, DropLast, Mentions, EntriesOk;
    RemoveDropsLast(d, v, e);
    LastOfClient(a, e, b);
    if Truthful(d, v) {
      RemoveKeepsTruth(d, v, e);
    }
    if CompleteBut(d, v, e.client) {
      RemoveKeepsOthersComplete(d, v, e);
    }
  }

  lemma LastOfClient(a: seq<Entry>, e: Entry, b: seq<Entry>)
    requires !Mentions(b, e.client)
    ensures DropLast(a + [e] + b, e) == a + b
  {
    var s := a + [e] + b;
    forall m | |a| < m < |s| ensures s[m] != e {
      assert s[m] == b[m - |a| - 1] && b[m - |a| - 1] in b;
    }
    assert s[|a|] == e;
    assert LastIndex(s, e) == |a|;
    assert s[..|a|] == a && s[|a| + 1..] == b;
  }

  lemma SplitLast(d: Store, v: Path, a: seq<Entry>, b: seq<Entry>)
    requires a != [] && Obs(d, v) == a + b && EntriesOk(a + b)
    ensures var n, e := |a| - 1, EntryAt(d, v, |a| - 1);
            a[n] == e && EntryOk(e) && a + b == a[..n] + [e] + b && a + b == a[..n] + ([e] + b)
    ensures forall c :: KeptBehind(a, b, c) == if EntryAt(d, v, |a| - 1).client == c then b else [EntryAt(d, v, |a| - 1)] + b
  {
    hide EntryAt, EntryOk;
    assert (a + b)[|a| - 1] == a[|a| - 1] && a[|a| - 1] in a + b;
  }

  lemma PurgeOne(d: Store, v: Path, c: string, a: seq<Entry>, b: seq<Entry>) returns (d': Store)
    requires Closed(d) && VarOk(v) && ClientOk(c) && a != []
    requires Obs(d, v) == a + b && EntriesOk(a + b) && !Mentions(b, c)
    ensures d' == if EntryAt(d, v, |a| - 1).client == c then Removed(d, v, EntryAt(d, v, |a| - 1)) else d
    ensures Purged(d, v, c, |a|) == Purged(d', v, c, |a| - 1)
    ensures Closed(d') && Obs(d', v) == a[..|a| - 1] + KeptBehind(a, b, c)
    ensures Truthful(d, v) ==> Truthful(d', v)
    ensures CompleteBut(d, v, c) ==> CompleteBut(d', v, c)
  {
    hide *;
    var n := |a| - 1;
    var e := EntryAt(d, v, n);
    SplitLast(d, v, a, b);
    PurgedStep(d, v, c, |a|);
    if e.client == c {
      d' := Removed(d, v, e);
      PurgeHit(d, v, e, a[..n], b);
    } else {
      d' := d;
    }
  }

  lemma {:induction false} PurgeFrom(d: Store, v: Path, c: string, a: seq<Entry>, b: seq<Entry>)
    requires Closed(d) && VarOk(v) && ClientOk(c)
    requires Obs(d, v) == a + b && EntriesOk(a + b) && !Mentions(b, c)
    ensures Closed(Purged(d, v, c, |a|))
    ensures Obs(Purged(d, v, c, |a|), v) == Without(a, c) + b
    ensures Truthful(d, v) ==> Truthful(Purged(d, v, c, |a|), v)
    ensures CompleteBut(d, v, c) ==> CompleteBut(Purged(d, v, c, |a|), v, c)
    decreases |a|
  {
    hide *;
    if a == [] {
      PurgeNothing(d, v, c, b);
      assert a + b == b;
    } else {
      var n := |a| - 1;
      var d' := PurgeOne(d, v, c, a, b);
      var b' := KeptBehind(a, b, c);
      KeptOk(a, b, c);
      KeptFilters(a, b, c);
      PurgeFrom(d', v, c, a[..n], b');
    }
  }

  lemma PurgeNothing(d: Store, v: Path, c: string, b: seq<Entry>)
    ensures Purged(d, v, c, 0) == d && Without([], c) + b == b
  {
  }

  lemma KeptOk(a: seq<Entry>, b: seq<Entry>, c: string)
    requires a != [] && EntriesOk(a + b) && !Mentions(b, c)
    ensures EntriesOk(a[..|a| - 1] + KeptBehind(a, b, c)) && !Mentions(KeptBehind(a, b, c), c)
  {
    var n := |a| - 1;
    hide EntryOk;
    forall e | e in a[..n] + KeptBehind(a, b, c) ensures EntryOk(e) {
      assert e in a + b;
    }
  }

  lemma KeptFilters(a: seq<Entry>, b: seq<Entry>, c: string)
    requires a != []
    ensures Without(a, c) + b == Without(a[..|a| - 1], c) + KeptBehind(a, b, c)
  {
  }

  /** Removing all of a client's subscriptions leaves the others in order, the index true, and nothing of the client in it. */
  lemma PurgeFilters(d: Store, v: Path, c: string)
    requires Closed(d) && VarOk(v) && ClientOk(c) && EntriesOk(Obs(d, v))
    ensures Closed(PurgedAll(d, v, c))
    ensures Obs(PurgedAll(d, v, c), v) == Without(Obs(d, v), c)
  {
    hide Obs, VarOk, ClientOk, EntryOk, Truthful, CompleteBut, Closed, Purged;
    var s := Obs(d, v);
    assert s + [] == s;
    PurgeFrom(d, v, c, s, []);
    assert Without(s, c) + [] == Without(s, c);
  }

  lemma PurgeKeepsTruth(d: Store, v: Path, c: string)
    requires Closed(d) && VarOk(v) && ClientOk(c) && EntriesOk(Obs(d, v)) && Truthful(d, v)
    ensures Truthful(PurgedAll(d, v, c), v)
    ensures forall t | TagOk(t) :: Index(PurgedAll(d, v, c), v, c, t) == ""
  {
    hide Obs, VarOk, EntryOk, CompleteBut, Closed, Purged, LastIndex, Index, TagOk;
    var s, d' := Obs(d, v), PurgedAll(d, v, c);
    assert s + [] == s;
    PurgeFrom(d, v, c, s, []);
    PurgeFilters(d, v, c);
    forall t | TagOk(t) ensures Index(d', v, c, t) == "" {
      assert IndexTrue(d', v, c, t);
      LastIndexRange(Without(s, c), Entry(c, t));
      WithoutCounts(s, c, c);
    }
  }

  lemma PurgeKeepsComplete(d: Store, v: Path, c: string)
    requires Closed(d) && VarOk(v) && ClientOk(c) && EntriesOk(Obs(d, v)) && Complete(d, v)
    ensures Complete(PurgedAll(d, v, c), v)
  {
    hide Obs, VarOk, ClientOk, EntryOk, Closed, Purged, Index;
    var s := Obs(d, v);
    assert s + [] == s;
    forall x | x in s ensures x.client != "" {
      OkParts(x, s);
    }
    PurgeFrom(d, v, c, s, []);
    PurgeFilters(d, v, c);
    WithoutCounts(s, c, c);
  }
}
