/** The controller: the operations clients reach, each proved to be a step of the runs, from any state they reach. */
module Controller {
  import opened Options
  import opened Text
  import opened Decimal
  import opened FlatStore
  import opened RamCache
  import opened Keys
  import opened Views
  import opened EntryLists
  import opened Observers
  import opened ObserverNodes
  import opened Registry
  import opened RegistryNodes
  import opened RegistryCount
  import opened Subscriptions
  import opened Runs
  import opened ServerRuns
  import opened KeyAccess
  import opened VarHelper
  import opened ClientHelper
  import opened Bookkeeping
  import opened Wildcard
  import opened Writes
  import opened Walks
  import opened Reading

  datatype SetResult = Accepted | EmptyName | InternalName | NameTooLong | ValueTooLong | WordTooLong | VariableLocked

  /** A client's connection: does a message get through, does a ping, and has it been silent too long. */
  datatype Answers = Answers(notified: bool, alive: bool, idleTooLong: bool, seenAt: string)

  /** The store after a message to a client: the client is seen, given up on, or waited for. */
  function AfterNotify(d: Store, c: string, connected: bool, a: Answers, names: seq<string>): Store {
    if connected && (a.notified || a.alive) then PutKey(d, RegLive(c), a.seenAt)
    else if a.idleTooLong then Deleted(d, c, names)
    else d
  }

  // ---- counters in a sound store ----

  lemma SoundRegistry(d: Store, c: string)
    requires Sound(d) && ClientOk(c)
    ensures RegisteredCount(d) >= 0
    ensures Position(d, c) > -1 ==> RegisteredCount(d) > 0
  {
    hide Ids, Closed, VarsFine, ClientsFine, View;
    HasId(d, c);
  }

  lemma SoundVariable(d: Store, n: string)
    requires Sound(d) && NameOk(n)
    ensures Count(d, PathOfVar(n)) >= 0
  {
    hide Closed, RegistryOk, ClientsFine, PathOfVar, NameOk;
    assert VarFine(d, n);
  }

  lemma SoundClient(d: Store, c: string, now: string)
    requires Sound(d) && ClientOk(c)
    ensures SubsCount(PutKey(d, RegLive(c), now), c) >= 0 && RecordOk(d, c)
  {
    hide Closed, RegistryOk, VarsFine, PutKey, View, ClientOk, KeyOk;
    assert ClientFine(d, c);
    RecordKeysOk(c, 0);
    PutViews(d, RegLive(c), now);
  }

  /** Halfway through an observation every counter is still a count. */
  lemma ObserveMidway(d: Store, n: string, e: Entry, apiId: Option<string>, now: string)
    requires Sound(d) && NameOk(n) && EntryOk(e)
    ensures RegisteredCount(d) >= 0
    ensures var d1 := Initialized(d, e.client, apiId, now);
            Count(d1, PathOfVar(n)) >= 0
            && SubsCount(PutKey(Registered(d1, PathOfVar(n), e), RegLive(e.client), now), e.client) >= 0
  {
    var c := e.client;
    assert ClientOk(c);
    hide *;
    SoundRegistry(d, c);
    var d1 := Initialized(d, c, apiId, now);
    EnlistHalf(d, c, apiId, now);
    SoundVariable(d1, n);
    var d2 := Registered(d1, PathOfVar(n), e);
    RegisteredIsSound(d1, n, e);
    SoundClient(d2, c, now);
  }

  lemma RegisteredIsSound(d: Store, n: string, e: Entry)
    requires Sound(d) && NameOk(n) && EntryOk(e)
    ensures Sound(Registered(d, PathOfVar(n), e))
  {
    hide Closed, RegistryOk, VarsFine, ClientsFine, NameOk, EntryOk, Registered, PathOfVar;
    RegisterHalf(d, n, e);
  }

  lemma StopMidway(d: Store, n: string, e: Entry)
    requires Sound(d) && NameOk(n) && EntryOk(e)
    ensures RegisteredCount(Removed(d, PathOfVar(n), e)) >= 0
  {
    hide VarsFine, ClientsFine, NameOk, EntryOk, Removed, PathOfVar, Ids;
    RemoveHalf(d, n, e);
  }

  lemma PurgedNamesStep(d: Store, c: string, names: seq<string>, i: nat)
    requires i < |names|
    ensures PurgedNames(d, c, names[i..]) == PurgedNames(PurgedAll(d, PathOfVar(names[i]), c), c, names[i + 1..])
  {
    assert names[i..][0] == names[i] && names[i..][1..] == names[i + 1..];
  }

  lemma DeletedClient(d: Store, c: string, names: seq<string>)
    requires Sound(d) && ClientOk(c) && Lists(names, Subs(d, c))
    ensures var d' := Deleted(d, c, names);
            && Sound(d') && (Healthy(d) ==> Healthy(d'))
            && !Has(d', RegPos(c)) && Subs(d', c) == [] && PurgedSubs(d, d', c)
    ensures Healthy(d) ==> forall n | NameOk(n) :: !Mentions(Obs(Deleted(d, c, names), PathOfVar(n)), c)
  {
    hide *;
    DeleteEffect(d, c, names);
    DeletePurges(d, c, names);
    if Healthy(d) {
      DeleteLeavesNoOrphan(d, c, names);
    }
  }

  lemma AfterNotifyKeeps(d: Store, c: string, connected: bool, a: Answers, names: seq<string>)
    requires Sound(d) && ClientOk(c) && Has(d, RegPos(c)) && Lists(names, Subs(d, c))
    ensures Sound(AfterNotify(d, c, connected, a, names))
    ensures Healthy(d) ==> Healthy(AfterNotify(d, c, connected, a, names))
  {
    hide Healthy, Sound, ClientOk, Has, PutKey, Deleted, Lists, Subs, PurgedSubs, ListsSame;
    SeenKeepsSound(d, c, a.seenAt);
    DeletedClient(d, c, names);
  }

  /** A client that answers is only seen; one that does not is taken off everything if it was silent too long, or left be. */
  lemma AfterNotifyExactly(d: Store, c: string, connected: bool, a: Answers, names: seq<string>)
    requires Sound(d) && ClientOk(c) && Lists(names, Subs(d, c))
    ensures var d' := AfterNotify(d, c, connected, a, names);
            if connected && (a.notified || a.alive) then
              forall k | KeyOk(k) :: View(d', k) == if k == RegLive(c) then a.seenAt else View(d, k)
            else if a.idleTooLong then !Has(d', RegPos(c)) && Subs(d', c) == [] && PurgedSubs(d, d', c)
            else d' == d
  {
    AfterNotifyIs(d, c, connected, a, names);
    SightingIs(c);
    hide *;
    PutViews(d, RegLive(c), a.seenAt);
    DeletedClient(d, c, names);
  }

  lemma SightingIs(c: string)
    requires ClientOk(c)
    ensures KeyOk(RegLive(c))
  {
  }

  lemma InitializedHas(d: Store, c: string, apiId: Option<string>, now: string)
    requires Sound(d) && ClientOk(c)
    ensures var d' := Initialized(d, c, apiId, now); Sound(d') && Has(d', RegPos(c)) && (Healthy(d) ==> Healthy(d'))
  {
    hide *;
    EnlistHalf(d, c, apiId, now);
    if Healthy(d) {
      HealthyInitialized(d, c, apiId, now);
    }
  }

  /** A client whose observation is listed is registered. */
  lemma ObserveRegisters(d: Store, n: string, e: Entry, apiId: Option<string>, now: string)
    requires Sound(d) && NameOk(n) && EntryOk(e)
    requires !HasIndex(d, PathOfVar(n), e.client, e.tag)
    ensures var d' := Observed(d, n, e, apiId, now);
            Sound(d') && Has(d', RegPos(e.client)) && (Healthy(d) ==> Healthy(d'))
  {
    var c := e.client;
    assert ClientOk(c);
    hide *;
    ObserveEffect(d, n, e, apiId, now);
    if Healthy(d) {
      ObserveKeepsHealthy(d, n, e, apiId, now);
    }
    ObservedIs(d, n, e, apiId, now);
    var d1 := Initialized(d, c, apiId, now);
    var d2 := Registered(d1, PathOfVar(n), e);
    EnlistHalf(d, c, apiId, now);
    RegisterKeepsId(d1, n, e);
    SubscribeKeepsId(d2, c, Full(n), now);
  }

  lemma RegisterKeepsId(d: Store, n: string, e: Entry)
    requires Sound(d) && NameOk(n) && EntryOk(e) && Has(d, RegPos(e.client))
    ensures Has(Registered(d, PathOfVar(n), e), RegPos(e.client))
  {
    hide Closed, RegistryOk, VarsFine, ClientsFine, NameOk, Registered, PathOfVar, ClientOk, Has, Ids;
    RegisterHalf(d, n, e);
    HasId(d, e.client);
    HasId(Registered(d, PathOfVar(n), e), e.client);
  }

  lemma PutKeepsNodes(d: Store, k: Key, x: string, p: Path)
    requires p in d
    ensures p in PutKey(d, k, x)
  {
    NonEmptyPath(k);
    hide PathOf;
    PutIn(d, PathOf(k), x, p);
  }

  lemma SubscribeKeepsId(d: Store, c: string, full: string, now: string)
    requires Has(d, RegPos(c))
    ensures Has(Subscribed(d, c, full, now), RegPos(c))
  {
    hide PathOf, PutKey, Itoa;
    var p := PathOf(RegPos(c));
    var d1 := PutKey(d, RegLive(c), now);
    var n := NatOf(SubsCount(d1, c));
    PutKeepsNodes(d, RegLive(c), now, p);
    PutKeepsNodes(d1, SubCount(c), Itoa(n + 1), p);
    PutKeepsNodes(PutKey(d1, SubCount(c), Itoa(n + 1)), SubSlot(c, n), full, p);
  }

  // ---- the operations are steps of the runs ----

  lemma StopIsStep(d: Store, n: string, e: Entry, apiId: Option<string>, now: string)
    requires NameOk(n) && EntryOk(e)
    ensures Effect(d, Op.Stop(n, e, apiId, now), Stopped(d, n, e, apiId, now))
  {
    hide NameOk, EntryOk, Stopped;
  }

  lemma ObserveIsStep(d: Store, n: string, e: Entry, apiId: Option<string>, now: string)
    requires NameOk(n) && EntryOk(e)
    ensures Effect(d, Op.Observe(n, e, apiId, now), Observed(d, n, e, apiId, now))
  {
    hide NameOk, EntryOk, Observed;
  }

  lemma ContactIsStep(d: Store, c: string, apiId: Option<string>, now: string)
    requires ClientOk(c)
    ensures Effect(d, Op.Contact(c, apiId, now), Initialized(d, c, apiId, now))
  {
    hide ClientOk, Initialized;
  }

  lemma ForgetIsStep(d: Store, c: string, names: seq<string>)
    requires ClientOk(c) && Lists(names, Subs(d, c))
    ensures Effect(d, Op.Forget(c), Deleted(d, c, names))
  {
    hide ClientOk, Lists, Subs, Deleted;
  }

  /** Telling a client something changes nothing, or is a sighting of it, or its removal. */
  lemma NotifyIsStep(d: Store, c: string, connected: bool, a: Answers, names: seq<string>)
    requires ClientOk(c) && Has(d, RegPos(c)) && Lists(names, Subs(d, c))
    ensures var d' := AfterNotify(d, c, connected, a, names);
            d' == d || Effect(d, Op.Seen(c, a.seenAt), d') || Effect(d, Op.Forget(c), d')
  {
    hide ClientOk, Has, PutKey, Lists, Subs, Deleted;
    ForgetIsStep(d, c, names);
  }

  lemma FlagIsStep(d: Store, n: string)
    ensures NameOk(n) ==> Effect(d, Op.LockVar(n), LockTried(d, PathOfVar(n)))
    ensures NameOk(n) ==> Effect(d, Op.UnlockVar(n), Unlocked(d, PathOfVar(n)))
  {
    hide NameOk, PathOfVar, LockTried, Unlocked;
  }

  lemma WriteIsStep(d: Store, rawName: string, v: string)
    ensures var n := Kept(rawName, NAME_CHARACTERS);
            n != "" && !HasHiddenWord(n) ==> Effect(d, Op.SetVar(n, v), Written(d, n, v))
  {
    var n := Kept(rawName, NAME_CHARACTERS);
    hide Kept, HasHiddenWord, Written;
    forall c | c in n ensures c in NAME_CHARACTERS {
      KeptIsClean(rawName, NAME_CHARACTERS, c);
      assert multiset(n)[c] > 0;
    }
  }

  /** Allowed characters with no underscore at the start of a word, no star, and no `vars.` in front. */
  predicate TakenAsIs(n: string) {
    && n != "" && n[0] != '_' && !HasPrefix(n, "vars.") && (forall i | 0 <= i < |n| :: !DotUnderscore(n, i))
    && forall i | 0 <= i < |n| ::
         || 'a' <= n[i] <= 'z' || 'A' <= n[i] <= 'Z' || '0' <= n[i] <= '9'
         || n[i] in {'.', '_', '/', '\\', ',', '-'}
  }

  lemma AsItIs(d: Store, n: string, v: string)
    ensures TakenAsIs(n) ==>
              && n != "" && Kept(n, NAME_CHARACTERS) == n && !HasHiddenWord(n)
              && Written(d, n, v) == Put(d, NodePath("vars." + n), v)
  {
    hide HasHiddenWord, Written, Put, NodePath;
    if TakenAsIs(n) {
      PlainName(n);
      WrittenThere(d, n, v);
    }
  }

  lemma DeleteIsStep(d: Store, ps: seq<Path>)
    ensures RecordsSame(d, Cleared(d, ps)) ==> Effect(d, Op.DelVar(ps), Cleared(d, ps))
  {
    hide RecordsSame, Cleared;
  }

  class TheController {
    const db: RamCacheDB
    const maxKeyLength: int
    const maxKeyWordLength: int
    const maxValueSize: int

    constructor (db: RamCacheDB, maxKeyLength: int, maxKeyWordLength: int, maxValueSize: int)
      ensures this.db == db && this.maxKeyLength == maxKeyLength
      ensures this.maxKeyWordLength == maxKeyWordLength && this.maxValueSize == maxValueSize
    {
      this.db := db;
      this.maxKeyLength := maxKeyLength;
      this.maxKeyWordLength := maxKeyWordLength;
      this.maxValueSize := maxValueSize;
    }

    /** In every reachable state the store is a tree and each record of each subscription is well kept. */
    ghost predicate Valid()
      reads this, db, db.nodes
    {
      db.Valid() && Sound(db.Contents())
    }

    /** And, as long as clients only stop what they observe, the two records of every subscription agree. */
    ghost predicate Agreed()
      requires db.Valid()
      reads this, db, db.nodes
    {
      Healthy(db.Contents())
    }

    // ---- observing ----

    /** Subscribes the client unless its index entry is there already, then tells it the current values. */
    method ObserveVar(varName: string, clientId: string, metadata: string, apiId: Option<string>, now: string, a: Answers)
      returns (payload: seq<Pair>, ghost names: seq<string>)
      requires Valid() && NameOk(varName) && EntryOk(Entry(clientId, metadata))
      modifies db, db.nodes
      ensures Valid() && fresh(db.nodes - old(db.nodes)) && (old(Agreed()) ==> Agreed())
      ensures var d, e := old(db.Contents()), Entry(clientId, metadata);
              var d1 := Observed(d, varName, e, apiId, now);
              if HasIndex(d, PathOfVar(varName), clientId, metadata) then db.Contents() == d && payload == []
              else Lists(names, Subs(d1, clientId))
                   && db.Contents() == AfterNotify(d1, clientId, apiId.Some?, a, names)
                   && TellsCurrent(payload, d1, varName)
                   && Effect(d, Op.Observe(varName, e, apiId, now), d1)
    {
      hide *;
      var vh := new ControllerVarHelper(db, varName);
      ValidIs();
      ghost var d, e := db.Contents(), Entry(clientId, metadata);
      VarIs(vh, varName);
      payload, names := [], [];
      var observing := vh.IsClientObserving(clientId, metadata);
      if !observing {
        EntryIs(e);
        ObserveIsStep(d, varName, e, apiId, now);
        ObserveMidway(d, varName, e, apiId, now);
        var client := new ControllerClientHelper(db, clientId, apiId, now);
        var _ := vh.RegisterObservation(clientId, metadata);
        client.RegisterNewObservation(varName, now);
        ObservedIs(d, varName, e, apiId, now);
        ObserveRegisters(d, varName, e, apiId, now);
        payload := GetVarInternal(varName);
        ValidIs();
        names := Notify(client, a);
      }
      ValidIs();
    }

    /** Takes the subscription off both records; if they agreed, they still do exactly when the stop matched. */
    method StopObservingVar(varName: string, clientId: string, metadata: string, apiId: Option<string>, now: string)
      requires Valid() && NameOk(varName) && EntryOk(Entry(clientId, metadata))
      modifies db, db.nodes
      ensures Valid() && fresh(db.nodes - old(db.nodes))
      ensures db.Contents() == Stopped(old(db.Contents()), varName, Entry(clientId, metadata), apiId, now)
      ensures Effect(old(db.Contents()), Op.Stop(varName, Entry(clientId, metadata), apiId, now), db.Contents())
      ensures old(Agreed()) ==> (Agreed() <==> StopMatches(old(db.Contents()), varName, Entry(clientId, metadata)))
    {
      hide *;
      var vh := new ControllerVarHelper(db, varName);
      ValidIs();
      ghost var d, e := db.Contents(), Entry(clientId, metadata);
      VarIs(vh, varName);
      EntryIs(e);
      StopMidway(d, varName, e);
      vh.InternalRemoveObserving(clientId, metadata);
      var ch := new ControllerClientHelper(db, clientId, apiId, now);
      ch.UnregisterObservation(varName, now);
      StoppedIs(d, varName, e, apiId, now);
      StopEffect(d, varName, e, apiId, now);
      if Healthy(d) {
        StopAgreesExactly(d, varName, e, apiId, now);
      }
      StopMatchesIs(d, varName, e);
      StopIsStep(d, varName, e, apiId, now);
      ValidIs();
    }

    // ---- clients ----

    /** Enlists or refreshes the client and counts what it observes; an empty id is replaced by a fresh one. */
    method ClientConnected(clientId: string, freshId: string, apiId: Option<string>, now: string)
      returns (id: string, observing: int)
      requires Valid() && ClientOk(freshId) && (clientId != "" ==> ClientOk(clientId))
      modifies db, db.nodes
      ensures Valid() && fresh(db.nodes - old(db.nodes)) && (old(Agreed()) ==> Agreed())
      ensures id == if clientId == "" then freshId else clientId
      ensures db.Contents() == Initialized(old(db.Contents()), id, apiId, now)
      ensures Effect(old(db.Contents()), Op.Contact(id, apiId, now), db.Contents())
      ensures observing == |Subs(old(db.Contents()), id)|
    {
      hide *;
      ValidIs();
      ghost var d := db.Contents();
      id := if clientId == "" then freshId else clientId;
      ClientIs(id);
      SoundRegistry(d, id);
      InitializedHas(d, id, apiId, now);
      InitializedSubs(d, id, apiId, now);
      ContactIsStep(d, id, apiId, now);
      var client := new ControllerClientHelper(db, id, apiId, now);
      observing := client.GetObservingVarsCount();
      ValidIs();
    }

    /** Tells a client something; one that cannot be reached and was silent too long is deleted. */
    method Notify(ch: ControllerClientHelper, a: Answers) returns (ghost names: seq<string>)
      requires Valid() && ch.db == db && ClientOk(ch.clientId) && Has(db.Contents(), RegPos(ch.clientId))
      modifies db, db.nodes
      ensures Valid() && fresh(db.nodes - old(db.nodes)) && (old(Agreed()) ==> Agreed())
      ensures Lists(names, Subs(old(db.Contents()), ch.clientId))
      ensures db.Contents() == AfterNotify(old(db.Contents()), ch.clientId, ch.apiId.Some?, a, names)
      ensures var d, d' := old(db.Contents()), db.Contents();
              d' == d || Effect(d, Op.Seen(ch.clientId, a.seenAt), d') || Effect(d, Op.Forget(ch.clientId), d')
    {
      hide *;
      ValidIs();
      ghost var d := db.Contents();
      names := SomeNames(d, ch.clientId);
      AfterNotifyIs(d, ch.clientId, ch.apiId.Some?, a, names);
      AfterNotifyKeeps(d, ch.clientId, ch.apiId.Some?, a, names);
      if ch.apiId.Some? && a.notified {
        ch.UpdateLiveTime(a.seenAt);
      } else if ch.apiId.Some? && a.alive {
        ch.UpdateLiveTime(a.seenAt);
      } else if a.idleTooLong {
        names := DeleteClient(ch);
        AfterNotifyIs(d, ch.clientId, ch.apiId.Some?, a, names);
      }
      NotifyIsStep(d, ch.clientId, ch.apiId.Some?, a, names);
      ValidIs();
    }

    /** Takes the client out of the registry, then off every variable its list named. */
    method DeleteClient(ch: ControllerClientHelper) returns (ghost names: seq<string>)
      requires Valid() && ch.db == db && ClientOk(ch.clientId)
      modifies db, db.nodes
      ensures Valid() && fresh(db.nodes - old(db.nodes)) && (old(Agreed()) ==> Agreed())
      ensures Lists(names, Subs(old(db.Contents()), ch.clientId))
      ensures db.Contents() == Deleted(old(db.Contents()), ch.clientId, names)
      ensures Effect(old(db.Contents()), Op.Forget(ch.clientId), db.Contents())
      ensures !Has(db.Contents(), RegPos(ch.clientId)) && Subs(db.Contents(), ch.clientId) == []
      ensures PurgedSubs(old(db.Contents()), db.Contents(), ch.clientId)
      ensures old(Agreed()) ==> forall n | NameOk(n) :: !Mentions(Obs(db.Contents(), PathOfVar(n)), ch.clientId)
    {
      hide *;
      ValidIs();
      ghost var d := db.Contents();
      var c := ch.clientId;
      ClientIs(c);
      SoundRegistry(d, c);
      SoundClient(d, c, "");
      var vars, order := ch.GetObservingVars();
      VisitListsSubs(d, c, order, vars);
      names := vars;
      ch.RemoveClientFromObservationSystem();
      ghost var d1 := db.Contents();
      EveryName(d1, c, names);
      for i := 0 to |vars|
        invariant db.Valid() && fresh(db.nodes - old(db.nodes))
        invariant PurgedNames(db.Contents(), c, names[i..]) == PurgedNames(d1, c, names)
      {
        var vh := new ControllerVarHelper(db, vars[i]);
        VarIs(vh, vars[i]);
        PurgedNamesStep(db.Contents(), c, names, i);
        vh.RemoveAllClientObservations(c);
      }
      NoMoreNames(db.Contents(), c, names);
      DeletedIs(d, c, names);
      DeletedClient(d, c, names);
      ForgetIsStep(d, c, names);
      ValidIs();
    }

    /** What happens for each observation a change is told to: the client is looked up by its API, told, or dropped. */
    method TellObserver(clientId: string, apis: set<string>, now: string, a: Answers) returns (ghost names: seq<string>)
      requires Valid() && ClientOk(clientId)
      modifies db, db.nodes
      ensures Valid() && fresh(db.nodes - old(db.nodes)) && (old(Agreed()) ==> Agreed())
      ensures var d, known := old(db.Contents()), old(View(db.Contents(), RegApi(clientId)));
              if known == "" || known !in apis
              then Lists(names, Subs(Initialized(d, clientId, None, now), clientId))
                   && db.Contents() == Deleted(Initialized(d, clientId, None, now), clientId, names)
              else Lists(names, Subs(Initialized(d, clientId, Some(known), now), clientId))
                   && db.Contents() == AfterNotify(Initialized(d, clientId, Some(known), now), clientId, true, a, names)
    {
      hide *;
      ValidIs();
      ghost var d := db.Contents();
      ClientIs(clientId);
      SoundRegistry(d, clientId);
      ApiKeyIs(clientId);
      var known := ReadKey(db, "", RegApi(clientId), "");
      LookupIsView(d, RegApi(clientId));
      if known == "" || known !in apis {
        InitializedHas(d, clientId, None, now);
        var ch2 := new ControllerClientHelper(db, clientId, None, now);
        ValidIs();
        names := DeleteClient(ch2);
      } else {
        InitializedHas(d, clientId, Some(known), now);
        var ch := new ControllerClientHelper(db, clientId, Some(known), now);
        ValidIs();
        names := Notify(ch, a);
      }
    }

    // ---- locking ----

    /** Succeeds exactly when the variable was not locked; under a variable's own name the invariant holds again. */
    method LockVar(varName: string, retries: nat) returns (acquired: bool)
      requires db.Valid()
      modifies db, db.nodes
      ensures db.Valid() && fresh(db.nodes - old(db.nodes))
      ensures acquired <==> !Locked(old(db.Contents()), PathOfVar(varName))
      ensures db.Contents() == LockTried(old(db.Contents()), PathOfVar(varName))
      ensures NameOk(varName) ==> Effect(old(db.Contents()), Op.LockVar(varName), db.Contents())
      ensures old(Valid()) && NameOk(varName) ==>
                Valid() && SameSubscriptions(old(db.Contents()), db.Contents()) && (old(Agreed()) ==> Agreed())
    {
      hide *;
      ValidIs();
      ghost var d := db.Contents();
      var vh := new ControllerVarHelper(db, varName);
      VarIs(vh, varName);
      acquired := vh.Lock(retries);
      if Sound(d) && NameOk(varName) {
        LockKeepsSound(d, varName);
      }
      FlagIsStep(d, varName);
      ValidIs();
    }

    method UnlockVar(varName: string)
      requires db.Valid()
      modifies db, db.nodes
      ensures db.Valid() && fresh(db.nodes - old(db.nodes))
      ensures db.Contents() == Unlocked(old(db.Contents()), PathOfVar(varName))
      ensures NameOk(varName) ==> Effect(old(db.Contents()), Op.UnlockVar(varName), db.Contents())
      ensures old(Valid()) && NameOk(varName) ==>
                Valid() && SameSubscriptions(old(db.Contents()), db.Contents()) && (old(Agreed()) ==> Agreed())
    {
      hide *;
      ValidIs();
      ghost var d := db.Contents();
      var vh := new ControllerVarHelper(db, varName);
      VarIs(vh, varName);
      vh.Unlock();
      if Sound(d) && NameOk(varName) {
        UnlockKeepsSound(d, varName);
      }
      FlagIsStep(d, varName);
      ValidIs();
    }

    method IsVarLocked(varName: string) returns (locked: bool)
      requires db.Valid()
      ensures locked <==> Locked(db.Contents(), PathOfVar(varName))
    {
      hide *;
      var vh := new ControllerVarHelper(db, varName);
      VarIs(vh, varName);
      locked := vh.IsLocked();
    }

    // ---- writing ----

    /** Accepts a write only under a clean, external, short enough, unlocked name. */
    method SetVar(rawName: string, value: string) returns (r: SetResult)
      requires Valid()
      modifies db, db.nodes
      ensures Valid() && fresh(db.nodes - old(db.nodes)) && (old(Agreed()) ==> Agreed())
      ensures var n := Kept(rawName, NAME_CHARACTERS);
              && (r.EmptyName? <==> n == "")
              && (r.InternalName? <==> n != "" && HasHiddenWord(n))
              && (r.NameTooLong? <==> n != "" && !HasHiddenWord(n) && |n| > maxKeyLength)
              && (r.ValueTooLong? <==> n != "" && !HasHiddenWord(n) && |n| <= maxKeyLength && |value| > maxValueSize)
              && (r.WordTooLong? <==> n != "" && !HasHiddenWord(n) && |n| <= maxKeyLength && |value| <= maxValueSize
                                      && !WordsFit(n, maxKeyWordLength))
              && (r.Accepted? <==> n != "" && !HasHiddenWord(n) && |n| <= maxKeyLength && |value| <= maxValueSize
                                   && WordsFit(n, maxKeyWordLength) && !Locked(old(db.Contents()), PathOfVar(n)))
              && db.Contents() == if r.Accepted? then Written(old(db.Contents()), n, value) else old(db.Contents())
      ensures TakenAsIs(rawName) && |rawName| <= maxKeyLength && |value| <= maxValueSize
              && WordsFit(rawName, maxKeyWordLength) && !Locked(old(db.Contents()), PathOfVar(rawName)) ==>
                r.Accepted? && db.Contents() == Put(old(db.Contents()), NodePath("vars." + rawName), value)
      ensures r.Accepted? ==> Effect(old(db.Contents()), Op.SetVar(Kept(rawName, NAME_CHARACTERS), value), db.Contents())
      ensures MetaSame(old(db.Contents()), db.Contents()) && OnlyClientValues(old(db.Contents()), db.Contents())
      ensures SameAnswers(old(db.Contents()), db.Contents())
    {
      hide *;
      ValidIs();
      NothingWritten(db.Contents());
      ghost var d := db.Contents();
      AsItIs(d, rawName, value);
      var name := GetOnly(rawName, NAME_CHARACTERS);
      if name == "" {
        return EmptyName;
      }
      var dotted := ContainsUnderscoreDot(name);
      LooksInternalIs(name);
      InternalNames(name);
      if name[0] == '_' || dotted {
        return InternalName;
      }
      if |name| > maxKeyLength {
        return NameTooLong;
      }
      if |value| > maxValueSize {
        return ValueTooLong;
      }
      var fits := EachWordFits(name, maxKeyWordLength);
      if !fits {
        return WordTooLong;
      }
      var vh := new ControllerVarHelper(db, name);
      VarIs(vh, name);
      var locked := vh.IsLocked();
      if locked {
        return VariableLocked;
      }
      WriteKeepsAnswers(db.Contents(), name, value);
      WrittenIs(db.Contents(), name, value);
      WriteIsStep(db.Contents(), rawName, value);
      vh.SetValue(value);
      ValidIs();
      return Accepted;
    }

    // ---- reading ----

    /** Collects a variable's value and, if asked, those below it; what is read later goes to the front. */
    method ReadFromDb(nname: string, childsToo: bool) returns (res: seq<Pair>, ghost rels: seq<Path>)
      requires db.Valid()
      ensures !childsToo ==> rels == [] && res == OwnPair(db.Contents(), nname)
      ensures childsToo ==> Walk(db.Contents(), nname, rels) && res == WalkPairs(db.Contents(), nname, rels)
      decreases Stage(nname), Below(db.Contents(), NodeOf(nname))
    {
      hide *;
      ghost var d := db.Contents();
      db.ContentsClosed();
      var vh := new ControllerVarHelper(db, nname);
      NodeIs(vh, nname);
      OwnPairIs(d, nname);
      res, rels := [], [];
      var dv := vh.GetValue();
      if dv != "" {
        res := [Pair(nname, dv)];
      }
      if !childsToo {
        return;
      }
      rels := if dv != "" then [[]] else [];
      OwnWalk(d, nname);
      var prefix := nname;
      if prefix != "" {
        prefix := prefix + ".";
      }
      var childs := vh.GetChildNames();
      PlainChildren(d, NodeOf(nname), childs);
      for i := 0 to |childs|
        invariant WalkSome(d, nname, childs[..i], rels) && res == WalkPairs(d, nname, rels)
      {
        var k := childs[i];
        NextWord(childs, i);
        ChildShrinks(d, nname, k);
        var tmp, below := ReadFromDb(prefix + k, childsToo);
        WalkStep(d, nname, childs[..i], rels, k, below);
        if |tmp| > 0 {
          res := tmp + res;
        }
        rels := Under(k, below) + rels;
      }
      assert childs[..|childs|] == childs;
      WalkAll(d, nname, childs, rels);
    }

    /** A name with `*` at its end reads everything below; the default stands in for an empty answer. */
    method GetVars(name: string, defaultValue: string) returns (r: GetResult, ghost rels: seq<Path>)
      requires db.Valid()
      ensures r.NoName? <==> name == ""
      ensures r.WildcardNotLast? <==> '*' in name && !EndsIn(name, '*')
      ensures name != "" && '*' !in name ==>
                var x := Val(db.Contents(), NodeOf(name));
                r == Values([Pair(name, if x != "" then x else defaultValue)])
      ensures EndsIn(name, '*') ==> AnswersWalk(db.Contents(), Base(name), defaultValue, r, rels)
      ensures EndsIn(name, '*') && Spellable(db.Contents(), Base(name)) ==>
                AnswersWildcard(db.Contents(), Base(name), defaultValue, r, PathsOf(NodeOf(Base(name)), rels))
    {
      hide *;
      ghost var d := db.Contents();
      db.ContentsClosed();
      StarIsThere(name);
      rels := [];
      if name == "" {
        return NoName, rels;
      }
      var ok, namep, childsToo := StripWildcard(name);
      if !ok {
        return WildcardNotLast, rels;
      }
      var values;
      values, rels := ReadFromDb(namep, childsToo);
      OwnPairIs(d, namep);
      NoPairs(d, namep, rels);
      if |values| == 0 {
        values := [Pair(namep, defaultValue)];
      }
      r := Values(values);
      AnswersIf(d, namep, defaultValue, r, rels);
      if childsToo && Spellable(d, namep) {
        WalkAnswers(d, namep, defaultValue, r, rels);
      }
    }

    /** Deletes every variable a read of the name returns, one by one, leaving whatever hangs below it. */
    method DelVar(name: string) returns (r: GetResult, ghost rels: seq<Path>)
      requires db.Valid()
      modifies db, db.nodes
      ensures db.Valid() && fresh(db.nodes - old(db.nodes))
      ensures r.NoName? <==> name == ""
      ensures r.WildcardNotLast? <==> '*' in name && !EndsIn(name, '*')
      ensures db.Contents() == if r.Values? then Cleared(old(db.Contents()), NodesOf(r.pairs)) else old(db.Contents())
      ensures name != "" && '*' !in name ==>
                && db.Contents() == Remove(old(db.Contents()), NodeOf(name), false)
                && (MetaSame(old(db.Contents()), db.Contents()) <==> Spares(old(db.Contents()), name, []))
                && (RecordsSame(old(db.Contents()), db.Contents()) <==> SparesRecords(old(db.Contents()), name, []))
      ensures EndsIn(name, '*') ==>
                && Walk(old(db.Contents()), Base(name), rels)
                && db.Contents() == Cleared(old(db.Contents()), Deletes(Base(name), rels))
                && Walk(db.Contents(), Base(name), [])
                && (MetaSame(old(db.Contents()), db.Contents()) <==> Spares(old(db.Contents()), Base(name), rels))
                && (RecordsSame(old(db.Contents()), db.Contents()) <==> SparesRecords(old(db.Contents()), Base(name), rels))
      ensures EndsIn(name, '*') && Spellable(old(db.Contents()), Base(name)) ==>
                Reads(old(db.Contents()), NodeOf(Base(name)), NamedNodes(Base(name), rels))
      ensures !HasHiddenWord(name) ==> MetaSame(old(db.Contents()), db.Contents())
      ensures r.Values? && RecordsSame(old(db.Contents()), db.Contents()) ==>
                Effect(old(db.Contents()), Op.DelVar(NodesOf(r.pairs)), db.Contents())
      ensures old(Valid()) && RecordsSame(old(db.Contents()), db.Contents()) ==>
                Valid() && SameSubscriptions(old(db.Contents()), db.Contents()) && (old(Agreed()) ==> Agreed())
      ensures old(Valid()) && MetaSame(old(db.Contents()), db.Contents()) ==>
                Valid() && SameAnswers(old(db.Contents()), db.Contents())
    {
      hide *;
      ValidIs();
      ghost var d := db.Contents();
      db.ContentsClosed();
      StarIsThere(name);
      r, rels := GetVars(name, "");
      if !r.Values? {
        NothingWritten(d);
        return;
      }
      var vals := r.pairs;
      AllNodes(d, vals);
      for i := 0 to |vals|
        invariant db.Valid() && fresh(db.nodes - old(db.nodes))
        invariant db.Contents() == Cleared(d, NodesOf(vals[..i]))
      {
        var vh := new ControllerVarHelper(db, vals[i].name);
        NodeIs(vh, vals[i].name);
        ClearedNext(d, vals, i);
        vh.DeleteValue();
      }
      assert vals[..|vals|] == vals;
      if '*' !in name {
        OneCleared(d, name, vals);
        OneSparesExactly(d, name);
        OneSparesRecords(d, name);
      }
      if EndsIn(name, '*') {
        AnswersIf(d, Base(name), "", r, rels);
        WalkedNodes(d, Base(name), rels, vals);
        NothingTold(d, Base(name), rels);
        SparesExactly(d, Base(name), rels);
        SparesRecordsExactly(d, Base(name), rels);
        if Spellable(d, Base(name)) {
          WalkReads(d, Base(name), rels);
        }
      }
      if !HasHiddenWord(name) {
        BaseHidden(name);
        NoHiddenSpares(d, Base(name), rels);
        NoHiddenSpares(d, name, []);
      }
      DeleteIsStep(d, NodesOf(vals));
      if Sound(d) && RecordsSame(d, db.Contents()) {
        db.ContentsClosed();
        RecordsKeepSound(d, db.Contents());
      }
      if Sound(d) && MetaSame(d, db.Contents()) {
        db.ContentsClosed();
        WritesKeepSound(d, db.Contents());
      }
      ValidIs();
    }

    method GetChildsOfVar(parentName: string) returns (words: seq<string>)
      requires db.Valid()
      ensures forall w :: w in words <==>
                '*' !in parentName && w in ChildWords(db.Contents(), NodeOf(parentName)) && Plain(w)
      ensures forall i, j | 0 <= i < j < |words| :: words[i] != words[j]
    {
      hide *;
      if '*' in parentName {
        return [];
      }
      var vh := new ControllerVarHelper(db, parentName);
      NodeIs(vh, parentName);
      words := vh.GetChildNames();
      PlainChildren(db.Contents(), NodeOf(parentName), words);
    }

    /** What a new observer is told: the variable's value if it has one, and every child it may see, valued or not. */
    method GetVarInternal(name: string) returns (res: seq<Pair>)
      requires db.Valid()
      ensures TellsCurrent(res, db.Contents(), name)
    {
      hide *;
      ghost var d := db.Contents();
      var vh := new ControllerVarHelper(db, name);
      NodeIs(vh, name);
      OwnPairIs(d, name);
      res := [];
      var dv := vh.GetValue();
      if dv != "" {
        res := [Pair(name, dv)];
      }
      ghost var own := res;
      assert own == own + [];
      var childs := vh.GetChildNames();
      PlainChildren(d, NodeOf(name), childs);
      assert childs[..0] == [];
      NoChildPairs(d, name);
      for i := 0 to |childs|
        invariant res == own + ChildPairs(d, name, childs[..i])
      {
        var full := name;
        if full != "" {
          full := Dot(full, childs[i]);
        } else {
          full := childs[i];
        }
        ChildNameIs(name, childs[i]);
        var vvh := new ControllerVarHelper(db, full);
        NodeIs(vvh, full);
        var dv2 := vvh.GetValue();
        MoreChildPairs(d, name, childs, i);
        res := res + [Pair(full, dv2)];
      }
      assert childs[..|childs|] == childs;
      Tells(d, name, childs);
    }

    lemma ValidIs()
      ensures Valid() <==> db.Valid() && Sound(db.Contents())
      ensures db.Valid() ==> (Agreed() <==> Healthy(db.Contents()))
    {
    }
  }

  // ---- the definitions the methods rest on ----

  lemma ClientIs(c: string)
    requires ClientOk(c)
    ensures c != ""
  {
  }

  lemma ApiKeyIs(c: string)
    ensures !OfVariable(RegApi(c))
  {
  }

  lemma LookupIsView(d: Store, k: Key)
    ensures Lookup(d, PathOf(k), "") == View(d, k)
  {
  }

  lemma EveryName(d: Store, c: string, names: seq<string>)
    ensures PurgedNames(d, c, names[0..]) == PurgedNames(d, c, names)
  {
    assert names[0..] == names;
  }

  lemma NoMoreNames(d: Store, c: string, names: seq<string>)
    ensures PurgedNames(d, c, names[|names|..]) == d
  {
  }

  lemma DeletedIs(d: Store, c: string, names: seq<string>)
    ensures Deleted(d, c, names) == PurgedNames(Unregistered(d, c), c, names)
  {
  }

  lemma AfterNotifyIs(d: Store, c: string, connected: bool, a: Answers, names: seq<string>)
    ensures AfterNotify(d, c, connected, a, names) ==
              if connected && (a.notified || a.alive) then PutKey(d, RegLive(c), a.seenAt)
              else if a.idleTooLong then Deleted(d, c, names)
              else d
  {
  }

  /** Some order in which a client's list can be visited. */
  lemma SomeNames(d: Store, c: string) returns (names: seq<string>)
    ensures Lists(names, Subs(d, c))
  {
    hide Strip, Subs;
    var s := Subs(d, c);
    names := seq(|s|, i requires 0 <= i < |s| => Strip(s[i]));
    forall x ensures x in names <==> exists y :: y in s && x == Strip(y) {
      if x in names {
        var i :| 0 <= i < |names| && names[i] == x;
        assert s[i] in s;
      }
      if y :| y in s && x == Strip(y) {
        var i :| 0 <= i < |s| && s[i] == y;
        assert names[i] == x;
      }
    }
  }

  lemma InitializedSubs(d: Store, c: string, apiId: Option<string>, now: string)
    requires Sound(d) && ClientOk(c)
    ensures SubsCount(Initialized(d, c, apiId, now), c) == |Subs(d, c)|
  {
    var d' := Initialized(d, c, apiId, now);
    hide Initialized, View, ClientOk, Sound, Closed, Has;
    EnlistHalf(d, c, apiId, now);
    assert !ClientOk("") by { EmptyIsNoClient(); }
    assert Subs(d', c) == Subs(d, c);
    SoundSubs(d', c);
  }

  lemma EmptyIsNoClient()
    ensures !ClientOk("")
  {
  }

  lemma SoundSubs(d: Store, c: string)
    requires Sound(d) && ClientOk(c)
    ensures SubsCount(d, c) == |Subs(d, c)|
  {
    hide Closed, RegistryOk, VarsFine, View, ClientOk;
    assert ClientFine(d, c);
  }

  lemma LooksInternalIs(n: string)
    ensures LooksInternal(n) <==> (n != "" && n[0] == '_') || exists i :: 0 <= i < |n| && DotUnderscore(n, i)
  {
  }

  lemma NothingWritten(d: Store)
    ensures MetaSame(d, d) && RecordsSame(d, d) && OnlyClientValues(d, d) && SameAnswers(d, d) && SameSubscriptions(d, d)
  {
    hide Obs, Subs, NameOk, PathOfVar, HasIndex, View, Meta;
  }

  lemma WriteKeepsAnswers(d: Store, n: string, v: string)
    requires Sound(d) && !HasHiddenWord(n)
    ensures var d' := Written(d, n, v);
            Sound(d') && (Healthy(d) ==> Healthy(d')) && MetaSame(d, d') && OnlyClientValues(d, d') && SameAnswers(d, d')
  {
    hide Healthy, Sound, HasHiddenWord, Written, Closed, MetaSame, SameAnswers;
    SoundIsClosed(d);
    WriteSparesMeta(d, n, v);
    WritesKeepSound(d, Written(d, n, v));
  }

  lemma WrittenIs(d: Store, n: string, v: string)
    ensures Written(d, n, v) == if '*' in Controlled(n) then d else Put(d, NodePath(Controlled(n)), v)
  {
  }

  lemma NodeIs(vh: ControllerVarHelper, n: string)
    requires vh.name == Controlled(n)
    ensures NodePath(vh.name) == NodeOf(n) && NodeOf(n) != [] && vh.name != ""
  {
  }

  lemma StarIsThere(name: string)
    ensures EndsIn(name, '*') ==> name != "" && '*' in name
    ensures '*' !in name ==> Base(name) == name
  {
  }

  lemma NoPairs(d: Store, n: string, rels: seq<Path>)
    ensures |WalkPairs(d, n, rels)| == 0 <==> rels == []
  {
  }

  lemma AnswersIf(d: Store, n: string, defaultValue: string, r: GetResult, rels: seq<Path>)
    ensures AnswersWalk(d, n, defaultValue, r, rels) <==>
              Walk(d, n, rels) && r == Values(if rels == [] then [Pair(n, defaultValue)] else WalkPairs(d, n, rels))
  {
    hide Walk, WalkPairs;
  }

  lemma EntryIs(e: Entry)
    requires EntryOk(e)
    ensures ClientOk(e.client) && e.client != ""
  {
  }

  lemma StopMatchesIs(d: Store, n: string, e: Entry)
    ensures StopMatches(d, n, e) <==> (e in Obs(d, PathOfVar(n)) <==> Mentions(Obs(d, PathOfVar(n)), e.client))
  {
  }
}
