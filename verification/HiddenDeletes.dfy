/** Deletes reach entries that writes cannot: what one such delete does to a variable's observers or its lock. */
module HiddenDeletes {
  import opened Options
  import opened Text
  import opened Decimal
  import opened FlatStore
  import opened Keys
  import opened Views
  import opened EntryLists
  import opened Observers
  import opened ObserverIndex
  import opened ObserverNodes
  import opened RegistryNodes
  import opened Subscriptions
  import opened Runs
  import opened Bookkeeping
  import opened Wildcard

  /** The name under which a client can delete an entry of variable `n`. */
  function EntryName(n: string, k: Key): string { NameOf(Full(n), k) }

  lemma EntryNode(n: string, k: Key)
    requires NameOk(n) && OfVariable(k) && k.v == PathOfVar(n)
    ensures NodeOf(EntryName(n, k)) == PathOf(k)
  {
    NameDenotes(Full(n), k);
    NamePrefix(Full(n), k);
    hide NodePath, Split, PathOf, NameOf;
    var m := NameOf(Full(n), k);
    assert Full(n)[..5] == "vars.";
    assert m[..5] == Full(n)[..5];
  }

  lemma NamePrefix(base: string, k: Key)
    requires OfVariable(k)
    ensures HasPrefix(NameOf(base, k), base)
  {
    hide Itoa;
  }

  function DeletedEntry(d: Store, n: string, k: Key): Store { Remove(d, NodeOf(EntryName(n, k)), false) }

  lemma DeletedEntryIs(d: Store, n: string, k: Key)
    requires NameOk(n) && OfVariable(k) && k.v == PathOfVar(n)
    ensures DeletedEntry(d, n, k) == DropKey(d, k)
  {
    hide NodeOf, PathOf, NameOf, Remove;
    EntryNode(n, k);
  }

  /**
   After a subscription that was recorded, deleting the observer count empties the list the server reads
   but not the index it asks: the client still counts as observing, on a variable without observers.
   */
  lemma DeletedCountHidesObservers(d: Store, n: string, e: Entry, apiId: Option<string>, now: string)
    requires Sound(d) && NameOk(n) && EntryOk(e) && !HasIndex(d, PathOfVar(n), e.client, e.tag)
    ensures var v, d1 := PathOfVar(n), Observed(d, n, e, apiId, now);
            var d2 := DeletedEntry(d1, n, ObsCount(v));
            Sound(d1) && e in Obs(d1, v) && Obs(d2, v) == [] && HasIndex(d2, v, e.client, e.tag) && !Sound(d2)
  {
    hide *;
    var v, d1 := PathOfVar(n), Observed(d, n, e, apiId, now);
    VarPathOk(n);
    ObserveEffect(d, n, e, apiId, now);
    ObservedIndex(d, n, e, apiId, now);
    CountKey(v);
    DeletedEntryIs(d1, n, ObsCount(v));
    SoundIsClosed(d1);
    InLast(Obs(d, v), e);
    DroppedCount(d1, v, e);
    ListlessIndex(DropKey(d1, ObsCount(v)), n, e);
  }

  lemma CountKey(v: Path)
    ensures OfVariable(ObsCount(v)) && ObsCount(v).v == v
  {
  }

  lemma InLast(s: seq<Entry>, e: Entry)
    ensures e in s + [e]
  {
  }

  lemma DroppedCount(d: Store, v: Path, e: Entry)
    requires Closed(d) && VarOk(v) && EntryOk(e) && Index(d, v, e.client, e.tag) != ""
    ensures var d' := DropKey(d, ObsCount(v));
            Obs(d', v) == [] && Index(d', v, e.client, e.tag) != "" && HasIndex(d', v, e.client, e.tag)
  {
    hide DropKey, PathOf, Closed;
    SlotKeysOk(v, 0);
    IndexKeyOk(v, e.client, e.tag);
    DropViews(d, ObsCount(v));
    assert View(DropKey(d, ObsCount(v)), ObsCount(v)) == "";
    assert GetInt("") == 0;
  }

  /** No list, no truth: an index entry on a variable without observers is a lie. */
  lemma ListlessIndex(d: Store, n: string, e: Entry)
    requires NameOk(n) && EntryOk(e) && Obs(d, PathOfVar(n)) == [] && Index(d, PathOfVar(n), e.client, e.tag) != ""
    ensures !Sound(d)
  {
    hide Obs, Index, PathOfVar, NameOk, ClientOk, TagOk, Closed, RegistryOk, ClientsFine;
    assert !IndexTrue(d, PathOfVar(n), e.client, e.tag);
    assert !VarFine(d, n);
  }

  /** Deleting the flag unlocks the variable, whoever locked it. */
  lemma DeletedFlagUnlocks(d: Store, n: string)
    requires Closed(d) && NameOk(n)
    ensures !Locked(DeletedEntry(d, n, LockFlag(PathOfVar(n))), PathOfVar(n))
    ensures Locked(LockTried(d, PathOfVar(n)), PathOfVar(n))
  {
    var v := PathOfVar(n);
    VarPathOk(n);
    hide PathOfVar, NameOk, DropKey, Closed, PathOf, PutKey;
    DeletedEntryIs(d, n, LockFlag(v));
    DropViews(d, LockFlag(v));
    OneIsLocked(d, v);
  }
}
