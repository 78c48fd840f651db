/** The helper through which the controller reads and writes one variable, its observers and its lock. */
module VarHelper {
  import opened Text
  import opened Decimal
  import opened FlatStore
  import opened RamCache
  import opened Keys
  import opened Views
  import opened KeyAccess
  import opened EntryLists
  import opened Observers
  import opened ObserverIndex
  import opened ObserverNodes
  import opened Subscriptions
  import opened Bookkeeping

  class ControllerVarHelper {
    const db: RamCacheDB
    var name: string

    constructor (db: RamCacheDB, vname: string)
      ensures this.db == db && name == Controlled(vname)
    {
      this.db := db;
      name := if HasPrefix(vname, "vars.") then vname else "vars." + vname;
    }

    ghost function Var(): Path
      reads this
    {
      Split(name, '.')
    }

    lemma VarNames()
      ensures Var() == Split(name, '.')
    {
    }

    // ---- one list entry ----

    method GetCount() returns (n: int)
      requires db.Valid()
      ensures n == Count(db.Contents(), Var())
    {
      var x := ReadKey(db, name, ObsCount(Split(name, '.')), "0");
      MissingIsZero(db.Contents(), ObsCount(Var()));
      n := GetInt(x);
    }

    method GetEntry(i: nat) returns (e: Entry)
      requires db.Valid()
      ensures e == EntryAt(db.Contents(), Var(), i)
    {
      hide PathOf, Itoa, RamCacheDB.Valid, RamCacheDB.Contents;
      var client := ReadKey(db, name, ObsClient(Split(name, '.'), i), "");
      var metadata := ReadKey(db, name, ObsTag(Split(name, '.'), i), "");
      e := Entry(client, metadata);
    }

    method SetEntry(i: nat, e: Entry)
      requires db.Valid()
      modifies db, db.nodes
      ensures db.Valid() && fresh(db.nodes - old(db.nodes))
      ensures db.Contents() == PutEntry(old(db.Contents()), Var(), i, e)
    {
      hide PutKey, Itoa, Split, RamCacheDB.Valid, RamCacheDB.Contents;
      WriteKey(db, name, ObsClient(Split(name, '.'), i), e.client);
      WriteKey(db, name, ObsTag(Split(name, '.'), i), e.tag);
      WriteKey(db, name, ObsIndex(Split(name, '.'), e.client, e.tag), Itoa(i));
    }

    // ---- observers ----

    method RegisterObservation(clientID: string, metadata: string) returns (obsID: string)
      requires db.Valid() && Count(db.Contents(), Var()) >= 0
      modifies db, db.nodes
      ensures db.Valid() && fresh(db.nodes - old(db.nodes))
      ensures db.Contents() == Registered(old(db.Contents()), Var(), Entry(clientID, metadata))
      ensures obsID == Itoa(Size(old(db.Contents()), Var()))
    {
      hide PutEntry, PutKey, Itoa, Count, Split, RamCacheDB.Valid, RamCacheDB.Contents;
      var cnt := GetCount();
      SetEntry(cnt, Entry(clientID, metadata));
      WriteKey(db, name, ObsCount(Split(name, '.')), Itoa(cnt + 1));
      obsID := Itoa(cnt);
    }

    /** All entries with a client, under their slot numbers. */
    method GetAllObservingClients() returns (res: map<string, Entry>)
      requires db.Valid()
      ensures Reported(res, Obs(db.Contents(), Var()), |Obs(db.Contents(), Var())|)
    {
      hide Itoa, EntryAt, Obs, View, Split, Reported, RamCacheDB.Valid, RamCacheDB.Contents;
      ghost var s := Obs(db.Contents(), Var());
      var cnt := GetCount();
      ObsSize(db.Contents(), Var());
      res := map[];
      NoneReported(s);
      var i := 0;
      while i < cnt
        invariant 0 <= i <= |s| && Reported(res, s, i)
      {
        var e := GetEntry(i);
        ReportedStep(res, s, i);
        if e.client != "" {
          res := res[Itoa(i) := e];
        }
        i := i + 1;
      }
    }

    method IsClientObserving(clientId: string, metadata: string) returns (observing: bool)
      requires db.Valid()
      ensures observing <==> HasIndex(db.Contents(), Var(), clientId, metadata)
    {
      hide NodePath, PathOf, Split, RamCacheDB.Valid, RamCacheDB.Contents;
      NameDenotes(name, ObsIndex(Split(name, '.'), clientId, metadata));
      observing := db.HasValue(NameOf(name, ObsIndex(Split(name, '.'), clientId, metadata)));
    }

    /** Moves entries `i+1..n` down one slot, patching their index entries. */
    method ShiftLeft(i: nat, actualCount: nat)
      requires db.Valid() && i < actualCount
      modifies db, db.nodes
      ensures db.Valid() && fresh(db.nodes - old(db.nodes))
      ensures db.Contents() == Shifted(old(db.Contents()), Var(), i, actualCount - 1)
    {
      hide PutEntry, EntryAt, Split, RamCacheDB.Valid, RamCacheDB.Contents;
      ghost var d := db.Contents();
      for j := i to actualCount - 1
        invariant db.Valid() && fresh(db.nodes - old(db.nodes))
        invariant db.Contents() == Shifted(d, Var(), i, j)
      {
        var next := GetEntry(j + 1);
        SetEntry(j, next);
      }
    }

    /** Closes the gap at slot `i`, drops the last slot, and forgets the client's index. */
    method RemoveSlot(i: nat, actualCount: nat, clientID: string)
      requires db.Valid() && i < actualCount
      modifies db, db.nodes
      ensures db.Valid() && fresh(db.nodes - old(db.nodes))
      ensures db.Contents() == RemovedAt(old(db.Contents()), Var(), i, actualCount, clientID)
    {
      hide Shifted, PutKey, CutSlot, CutById, Split, Itoa, SlotPath, ByIdPath, Remove, NodePath, SlotName, ByIdName,
           RamCacheDB.Valid, RamCacheDB.Contents;
      ShiftLeft(i, actualCount);
      SlotNamePath(name, actualCount - 1);
      CutSlotIs(db.Contents(), Var(), actualCount - 1);
      db.DeleteValue(SlotName(name, actualCount - 1), true);
      WriteKey(db, name, ObsCount(Split(name, '.')), Itoa(actualCount - 1));
      ByIdNamePath(name, clientID);
      CutByIdIs(db.Contents(), Var(), clientID);
      db.DeleteValue(ByIdName(name, clientID), true);
    }

    method InternalRemoveObserving(clientID: string, metadata: string)
      requires db.Valid()
      modifies db, db.nodes
      ensures db.Valid() && fresh(db.nodes - old(db.nodes))
      ensures db.Contents() == Removed(old(db.Contents()), Var(), Entry(clientID, metadata))
    {
      hide RemovedAt, EntryAt, Split, Count, RamCacheDB.Valid, RamCacheDB.Contents;
      ghost var d, v, e := db.Contents(), Var(), Entry(clientID, metadata);
      var actualCount := GetCount();
      var i := actualCount - 1;
      while i >= 0
        invariant i >= 0 ==> i < actualCount
        invariant db.Valid() && db.Contents() == d && db.nodes == old(db.nodes)
        invariant FindLast(d, v, e, Size(d, v)) == FindLast(d, v, e, if i < 0 then 0 else i + 1)
        decreases i
      {
        var curr := GetEntry(i);
        if curr.client == clientID && curr.tag == metadata {
          RemoveSlot(i, actualCount, clientID);
          return;
        }
        i := i - 1;
      }
    }

    /** Reads the slot the id names, then removes the last entry equal to what it found there. */
    method RemoveObservationById(obsID: string)
      requires db.Valid()
      modifies db, db.nodes
      ensures db.Valid() && fresh(db.nodes - old(db.nodes))
      ensures db.Contents() == RemovedById(old(db.Contents()), name, obsID)
      ensures forall i | 0 <= i < |obsID| && !('0' <= obsID[i] <= '9') && (i > 0 || obsID[0] !in "+-") ::
                db.Contents() == old(db.Contents())
    {
      hide *;
      ghost var d := db.Contents();
      StrangeIds(d, name, obsID);
      NoNumberIs(d, name, obsID);
      var idx := Atoi(obsID);
      if idx.NotANumber? {
        return;
      }
      var client := db.Get(Dot(SlotNamed(name, idx.n), "clientId"), "");
      var metadata := db.Get(Dot(SlotNamed(name, idx.n), "metadata"), "");
      RemoveByIdExactly(d, name, obsID, Entry(client, metadata));
      if client == "" && metadata == "" {
        return;
      }
      VarNames();
      InternalRemoveObserving(client, metadata);
    }

    method RemoveAllClientObservations(clientID: string)
      requires db.Valid()
      modifies db, db.nodes
      ensures db.Valid() && fresh(db.nodes - old(db.nodes))
      ensures db.Contents() == PurgedAll(old(db.Contents()), Var(), clientID)
    {
      hide Removed, EntryAt, Split, Count, Purged, RamCacheDB.Valid, RamCacheDB.Contents;
      ghost var d, v := db.Contents(), Var();
      var cnt := GetCount();
      var i := cnt - 1;
      while i >= 0
        invariant i >= 0 ==> i < cnt
        invariant db.Valid() && fresh(db.nodes - old(db.nodes))
        invariant Purged(db.Contents(), v, clientID, if i < 0 then 0 else i + 1) == Purged(d, v, clientID, Size(d, v))
        decreases i
      {
        PurgedStep(db.Contents(), v, clientID, i + 1);
        var e := GetEntry(i);
        if e.client == clientID {
          InternalRemoveObserving(e.client, e.tag);
        }
        i := i - 1;
      }
      PurgedNone(db.Contents(), v, clientID);
    }

    // ---- the lock flag ----

    method IsLocked() returns (locked: bool)
      requires db.Valid()
      ensures locked <==> Locked(db.Contents(), Var())
    {
      hide PathOf, Split, RamCacheDB.Valid, RamCacheDB.Contents;
      var lockVal := ReadKey(db, name, LockFlag(Split(name, '.')), "0");
      locked := lockVal != "0" && lockVal != "";
    }

    /** The body of the critical section of a lock attempt. */
    method TryLock() returns (locked: bool)
      requires db.Valid()
      modifies db, db.nodes
      ensures db.Valid() && fresh(db.nodes - old(db.nodes))
      ensures locked <==> !Locked(old(db.Contents()), Var())
      ensures db.Contents() == LockTried(old(db.Contents()), Var()) && Locked(db.Contents(), Var())
    {
      hide PutKey, View, Split, Locked, RamCacheDB.Valid, RamCacheDB.Contents;
      OneIsLocked(db.Contents(), Var());
      locked := false;
      var taken := IsLocked();
      if !taken {
        WriteKey(db, name, LockFlag(Split(name, '.')), "1");
        locked := IsLocked();
      }
    }

    /** Attempts until one succeeds or, after `retries` more than the first, the time is up; nobody else gets in between. */
    method Lock(retries: nat) returns (acquired: bool)
      requires db.Valid()
      modifies db, db.nodes
      ensures db.Valid() && fresh(db.nodes - old(db.nodes))
      ensures acquired <==> !Locked(old(db.Contents()), Var())
      ensures db.Contents() == LockTried(old(db.Contents()), Var())
    {
      hide PutKey, View, Split, Locked, RamCacheDB.Valid, RamCacheDB.Contents;
      acquired := TryLock();
      var left := retries;
      while !acquired && left > 0
        invariant db.Valid() && fresh(db.nodes - old(db.nodes)) && Locked(db.Contents(), Var())
        invariant acquired <==> !Locked(old(db.Contents()), Var())
        invariant db.Contents() == LockTried(old(db.Contents()), Var())
      {
        acquired := TryLock();
        left := left - 1;
      }
    }

    method Unlock()
      requires db.Valid()
      modifies db, db.nodes
      ensures db.Valid() && fresh(db.nodes - old(db.nodes))
      ensures db.Contents() == Unlocked(old(db.Contents()), Var()) && !Locked(db.Contents(), Var())
    {
      hide PutKey, View, Split, Locked, RamCacheDB.Valid, RamCacheDB.Contents;
      OneIsLocked(db.Contents(), Var());
      WriteKey(db, name, LockFlag(Split(name, '.')), "0");
    }

    // ---- value and children ----

    method GetValue() returns (x: string)
      requires db.Valid()
      ensures x == Val(db.Contents(), NodePath(name))
    {
      hide NodePath, RamCacheDB.Valid, RamCacheDB.Contents;
      x := db.Get(name, "");
    }

    /** A name with a wildcard in it is never written. */
    method SetValue(x: string)
      requires db.Valid()
      modifies db, db.nodes
      ensures db.Valid() && fresh(db.nodes - old(db.nodes))
      ensures db.Contents() == if '*' in name then old(db.Contents()) else Put(old(db.Contents()), NodePath(name), x)
    {
      hide NodePath, Put, RamCacheDB.Valid, RamCacheDB.Contents;
      if '*' in name {
        return;
      }
      db.Set(name, x);
    }

    method DeleteValue()
      requires db.Valid()
      modifies db, db.nodes
      ensures db.Valid() && fresh(db.nodes - old(db.nodes))
      ensures db.Contents() == Remove(old(db.Contents()), NodePath(name), false)
    {
      hide NodePath, Remove, RamCacheDB.Valid, RamCacheDB.Contents;
      db.DeleteValue(name, false);
    }

    /** The children a client may see. */
    method GetChildNames() returns (words: seq<string>)
      requires db.Valid() && name != ""
      ensures forall w :: w in words <==> w in ChildWords(db.Contents(), NodePath(name)) && w != "" && w[0] != '_'
      ensures forall i, j | 0 <= i < j < |words| :: words[i] != words[j]
    {
      hide NodePath, ChildWords, RamCacheDB.Valid, RamCacheDB.Contents;
      var childs := db.GetChilds(name);
      words := [];
      for i := 0 to |childs|
        invariant forall w :: w in words <==> w in childs[..i] && w != "" && w[0] != '_'
        invariant forall k, j | 0 <= k < j < |words| :: words[k] != words[j]
      {
        var w := childs[i];
        assert childs[..i + 1] == childs[..i] + [w];
        if w != "" && w[0] != '_' {
          words := words + [w];
        }
      }
      assert childs[..|childs|] == childs;
    }
  }

  // ---- removal by slot number ----

  /** `strconv.Itoa` on any integer. */
  function IntText(i: int): string { if i < 0 then "-" + Itoa(-i) else Itoa(i) }

  function SlotNamed(base: string, i: int): string { Dot(base, Dot("_observers", Dot("list", IntText(i)))) }

  function EntryUnder(d: Store, base: string, i: int): Entry {
    Entry(Lookup(d, NodePath(Dot(SlotNamed(base, i), "clientId")), ""),
          Lookup(d, NodePath(Dot(SlotNamed(base, i), "metadata")), ""))
  }

  function RemovedById(d: Store, base: string, obsID: string): Store {
    match Atoi(obsID)
    case NotANumber => d
    case Number(i) =>
      var e := EntryUnder(d, base, i);
      if e == Entry("", "") then d else Removed(d, Split(base, '.'), e)
  }

  /** An id in use removes the last entry like the one in its slot; an id past the end removes nothing. */
  lemma RemoveByIdDrops(d: Store, base: string, i: nat)
    requires Closed(d) && VarOk(Split(base, '.')) && ObserversOk(d, Split(base, '.'))
    ensures var v := Split(base, '.');
            Obs(RemovedById(d, base, Itoa(i)), v) ==
              if i < |Obs(d, v)| then DropLast(Obs(d, v), Obs(d, v)[i]) else Obs(d, v)
  {
    var v := Split(base, '.');
    hide Split, Itoa, Removed, NodePath, Closed, VarOk, Truthful, IndexNodes;
    AtoiItoa(i);
    SlotUnder(d, base, i);
    if i < |Obs(d, v)| {
      assert Obs(d, v)[i] in Obs(d, v);
      RemoveDropsLast(d, v, Obs(d, v)[i]);
    } else {
      StrayIsEmpty(d, v, i);
    }
  }

  /** An id that is empty, only a sign, or has a character that is neither a digit nor a sign in front removes nothing. */
  lemma StrangeIdRemovesNothing(d: Store, base: string, obsID: string)
    requires obsID == "" || obsID == "+" || obsID == "-" || obsID[0] !in "+-0123456789"
             || exists i :: 1 <= i < |obsID| && !('0' <= obsID[i] <= '9')
    ensures RemovedById(d, base, obsID) == d
  {
    NumbersExactly(obsID);
    hide Atoi, Removed, NodePath;
  }

  lemma NoNumberIs(d: Store, base: string, obsID: string)
    ensures Atoi(obsID).NotANumber? ==> RemovedById(d, base, obsID) == d
  {
    hide Atoi;
  }

  lemma StrangeIds(d: Store, base: string, obsID: string)
    ensures forall i | 0 <= i < |obsID| && !('0' <= obsID[i] <= '9') && (i > 0 || obsID[0] !in "+-") ::
              RemovedById(d, base, obsID) == d
  {
    hide RemovedById;
    forall i | 0 <= i < |obsID| && !('0' <= obsID[i] <= '9') && (i > 0 || obsID[0] !in "+-")
      ensures RemovedById(d, base, obsID) == d
    {
      if i == 0 {
        assert forall c | '0' <= c <= '9' || c in "+-" :: c != obsID[0];
      }
      StrangeIdRemovesNothing(d, base, obsID);
    }
  }

  /** Any other id is read as a number, and that number's slot says which entry goes; an empty slot removes nothing. */
  lemma RemoveByIdExactly(d: Store, base: string, obsID: string, e: Entry)
    requires Atoi(obsID).Number?
    requires e.client == Lookup(d, NodePath(Dot(SlotNamed(base, Atoi(obsID).n), "clientId")), "")
    requires e.tag == Lookup(d, NodePath(Dot(SlotNamed(base, Atoi(obsID).n), "metadata")), "")
    ensures RemovedById(d, base, obsID) ==
              if e.client == "" && e.tag == "" then d else Removed(d, Split(base, '.'), e)
  {
    hide Atoi, Removed, NodePath, Split, SlotNamed;
  }

  lemma IdSpelled(base: string, i: int)
    ensures SlotNamed(base, i) == base + "._observers.list." + if i < 0 then "-" + Itoa(-i) else Itoa(i)
  {
    hide Dot, Itoa;
    SlotSpelled(base, IntText(i));
  }

  lemma SlotUnder(d: Store, base: string, i: nat)
    ensures EntryUnder(d, base, i) == EntryAt(d, Split(base, '.'), i)
  {
    hide Split, Itoa, NodePath;
    NameDenotes(base, ObsClient(Split(base, '.'), i));
    NameDenotes(base, ObsTag(Split(base, '.'), i));
  }

  lemma StrayIsEmpty(d: Store, v: Path, i: nat)
    requires Closed(d) && NoStray(d, v) && i >= Size(d, v)
    ensures EntryAt(d, v, i) == Entry("", "")
  {
    hide Itoa;
    var p, q := PathOf(ObsClient(v, i)), PathOf(ObsTag(v, i));
    assert SlotPath(v, i) <= p && SlotPath(v, i) <= q;
    assert !HasSlot(d, v, i);
    if p in d {
      PrefixIn(d, p, SlotPath(v, i));
    }
    if q in d {
      PrefixIn(d, q, SlotPath(v, i));
    }
  }

  /** Exactly the entries with a client among the first `n`, each under its slot number. */
  ghost predicate Reported(res: map<string, Entry>, s: seq<Entry>, n: nat)
    requires n <= |s|
  {
    && (forall i: nat | i < n && s[i].client != "" :: Itoa(i) in res && res[Itoa(i)] == s[i])
    && (forall id | id in res :: exists i: nat :: i < n && id == Itoa(i) && s[i].client != "")
  }

  lemma NoneReported(s: seq<Entry>)
    ensures Reported(map[], s, 0)
  {
  }

  lemma ReportedStep(res: map<string, Entry>, s: seq<Entry>, n: nat)
    requires n < |s| && Reported(res, s, n)
    ensures Reported(if s[n].client != "" then res[Itoa(n) := s[n]] else res, s, n + 1)
  {
    hide Itoa;
    var res' := if s[n].client != "" then res[Itoa(n) := s[n]] else res;
    forall i: nat | i < n + 1 && s[i].client != "" ensures Itoa(i) in res' && res'[Itoa(i)] == s[i] {
      if i < n && Itoa(i) == Itoa(n) {
        ItoaInjective(i, n);
      }
    }
    forall id | id in res' ensures exists i: nat :: i < n + 1 && id == Itoa(i) && s[i].client != "" {
      if id in res {
        var i: nat :| i < n && id == Itoa(i) && s[i].client != "";
        assert i < n + 1;
      }
    }
  }

  // ---- the definitions the methods rest on, one line each ----

  lemma VarIs(vh: ControllerVarHelper, n: string)
    requires vh.name == Controlled(n)
    ensures vh.Var() == PathOfVar(n)
  {
  }

  lemma CutSlotIs(d: Store, v: Path, i: nat)
    ensures CutSlot(d, v, i) == Remove(d, SlotPath(v, i), true)
  {
  }

  lemma CutByIdIs(d: Store, v: Path, c: string)
    ensures CutById(d, v, c) == Remove(d, ByIdPath(v, c), true)
  {
  }

  lemma ObsSize(d: Store, v: Path)
    ensures |Obs(d, v)| == Size(d, v) && forall i | 0 <= i < Size(d, v) :: Obs(d, v)[i] == EntryAt(d, v, i)
  {
  }
}
