/** What goes wrong when a client stops a subscription it does not have, and what keeps the index complete. */
module StopMismatch {
  import opened Options
  import opened Decimal
  import opened FlatStore
  import opened DumpText
  import opened RoundTrip
  import opened Keys
  import opened Views
  import opened EntryLists
  import opened Observers
  import opened ObserverIndex
  import opened ObserverNodes
  import opened Registry
  import opened RegistryNodes
  import opened RegistryCount
  import opened Subscriptions
  import opened Runs
  import opened Bookkeeping
  import opened Wildcard
  import opened Writes
  import opened ServerRuns
  import opened MapOrder

  /**
   A client with one subscription on a variable that stops another, which it does not hold, keeps its
   entry there but loses its own record of it: removing the client then leaves the entry behind.
   */
  lemma MismatchedStopOrphans(d: Store, n: string, e: Entry, apiId: Option<string>, now: string, names: seq<string>)
    requires Healthy(d) && NameOk(n) && EntryOk(e)
    requires e !in Obs(d, PathOfVar(n)) && CountOf(Obs(d, PathOfVar(n)), e.client) == 1
    requires Lists(names, Subs(Stopped(d, n, e, apiId, now), e.client))
    ensures Mentions(Obs(Deleted(Stopped(d, n, e, apiId, now), e.client, names), PathOfVar(n)), e.client)
  {
    hide *;
    var d1 := Stopped(d, n, e, apiId, now);
    HealthyIsSound(d);
    EntryHasClient(e);
    StopEffect(d, n, e, apiId, now);
    NothingDropped(Obs(d, PathOfVar(n)), e);
    OneIsMention(Obs(d, PathOfVar(n)), e.client);
    RecordLost(d, n, e.client);
    OrphansExactly(d1, e.client, names, n);
  }

  lemma EntryHasClient(e: Entry)
    requires EntryOk(e)
    ensures ClientOk(e.client)
  {
  }

  lemma NothingDropped(s: seq<Entry>, e: Entry)
    requires e !in s
    ensures DropLast(s, e) == s
  {
    LastIndexRange(s, e);
  }

  lemma OneIsMention(s: seq<Entry>, c: string)
    requires CountOf(s, c) == 1
    ensures Mentions(s, c)
  {
    CountZero(s, c);
  }

  /** A client listed once on a variable drops the variable from its own list with its next stop there. */
  lemma RecordLost(d: Store, n: string, c: string)
    requires Healthy(d) && NameOk(n) && ClientOk(c) && CountOf(Obs(d, PathOfVar(n)), c) == 1
    ensures Full(n) !in DropFirst(Subs(d, c), Full(n))
  {
    assert AgreeOn(d, n, c);
    hide Sound, Agree, Obs, Subs, NameOk, PathOfVar, Full, ClientOk, CountOf, DropFirst;
    DropFirstCounts(Subs(d, c), Full(n));
    assert multiset(DropFirst(Subs(d, c), Full(n)))[Full(n)] == 0;
  }

  /** The shortest such run, from any state where nobody observes `n`: observe with one tag, stop with another. */
  lemma ObserveThenMismatchedStop(
    d: Store, n: string, c: string, a: string, b: string, apiId: Option<string>, now: string, names: seq<string>
  )
    requires Healthy(d) && NameOk(n) && ClientOk(c) && TagOk(a) && TagOk(b) && a != b
    requires Obs(d, PathOfVar(n)) == [] && !HasIndex(d, PathOfVar(n), c, a)
    requires Lists(names, Subs(Stopped(Observed(d, n, Entry(c, a), apiId, now), n, Entry(c, b), apiId, now), c))
    ensures var d' := Stopped(Observed(d, n, Entry(c, a), apiId, now), n, Entry(c, b), apiId, now);
            Mentions(Obs(Deleted(d', c, names), PathOfVar(n)), c)
  {
    hide Healthy, Sound, Obs, NameOk, PathOfVar, Observed, Stopped, Deleted, Lists, Mentions, Subs, HasIndex, ClientOk, TagOk,
         CountOf, ListsSameBut, SubsSameBut;
    var e := Entry(c, a);
    var d1 := Observed(d, n, e, apiId, now);
    HealthyIsSound(d);
    ObserveEffect(d, n, e, apiId, now);
    ObserveKeepsHealthy(d, n, e, apiId, now);
    CountOne(e, c);
    assert Obs(d1, PathOfVar(n)) == [e];
    MismatchedStopOrphans(d1, n, Entry(c, b), apiId, now, names);
  }

  lemma NobodyObserves(n: string, c: string, t: string)
    ensures Obs(EMPTY, PathOfVar(n)) == [] && !HasIndex(EMPTY, PathOfVar(n), c, t)
  {
  }

  /** So a run of three operations from an empty store ends with a variable that lists a client just removed. */
  lemma OrphanReachable(
    n: string, c: string, a: string, b: string, apiId: Option<string>, now: string, names: seq<string>
  ) returns (ds: seq<Store>, ops: seq<Op>)
    requires NameOk(n) && ClientOk(c) && TagOk(a) && TagOk(b) && a != b
    requires Lists(names, Subs(Stopped(Observed(EMPTY, n, Entry(c, a), apiId, now), n, Entry(c, b), apiId, now), c))
    ensures ops == [Observe(n, Entry(c, a), apiId, now), Stop(n, Entry(c, b), apiId, now), Forget(c)]
    ensures AnyRun(ds, ops) && |ds| == 4 && Mentions(Obs(ds[3], PathOfVar(n)), c)
  {
    var d1 := Observed(EMPTY, n, Entry(c, a), apiId, now);
    var d2 := Stopped(d1, n, Entry(c, b), apiId, now);
    ds := [EMPTY, d1, d2, Deleted(d2, c, names)];
    ops := [Observe(n, Entry(c, a), apiId, now), Stop(n, Entry(c, b), apiId, now), Forget(c)];
    hide Healthy, Obs, NameOk, PathOfVar, Observed, Stopped, Deleted, Lists, Mentions, Subs, HasIndex, ClientOk, TagOk;
    EmptyIsHealthy();
    NobodyObserves(n, c, a);
    ObserveThenMismatchedStop(EMPTY, n, c, a, b, apiId, now, names);
    assert Effect(ds[0], ops[0], ds[1]) && Effect(ds[1], ops[1], ds[2]) && Effect(ds[2], ops[2], ds[3]);
    ThreeSteps(ds, ops);
  }

  lemma ThreeSteps(ds: seq<Store>, ops: seq<Op>)
    requires |ds| == 4 && |ops| == 3 && ds[0] == EMPTY && forall i | 0 <= i < 3 :: !ops[i].Restart?
    requires Effect(ds[0], ops[0], ds[1]) && Effect(ds[1], ops[1], ds[2]) && Effect(ds[2], ops[2], ds[3])
    ensures AnyRun(ds, ops)
  {
    hide Effect;
    forall i | 0 <= i < 3 ensures Effect(ds[i], ops[i], ds[i + 1]) && SafeRestart(ds[i], ops[i]) {
      assert i == 0 || i == 1 || i == 2;
    }
  }

  // ---- runs whose index answers every question ----

  ghost predicate AllComplete(d: Store) {
    forall n {:trigger Complete(d, PathOfVar(n))} | NameOk(n) :: Complete(d, PathOfVar(n))
  }

  /** Stopping a tag is only ever stopping the client's last one on that variable. */
  predicate StopsLastTag(d: Store, op: Op) {
    op.Stop? ==>
      var s := Obs(d, PathOfVar(op.n));
      op.e in s ==> !Mentions(DropLast(s, op.e), op.e.client)
  }

  lemma CompleteElsewhere(d: Store, d': Store, n: string)
    requires NameOk(n) && AllComplete(d) && SameOutside(d, d', PathOfVar(n)) && Complete(d', PathOfVar(n))
    ensures AllComplete(d')
  {
    hide NameOk, PathOfVar, SameOutside, ObserversSame, Complete;
    forall n' | NameOk(n') ensures Complete(d', PathOfVar(n')) {
      VarPathOk(n);
      VarPathOk(n');
      if PathOfVar(n') != PathOfVar(n) {
        OtherVariable(d, d', PathOfVar(n), PathOfVar(n'));
        ObserversCarry(d, d', PathOfVar(n'));
      }
    }
  }

  lemma CompleteVarsSame(d: Store, d': Store)
    requires AllComplete(d) && VarsSame(d, d')
    ensures AllComplete(d')
  {
    hide NameOk, PathOfVar, ObserversSame, Complete, VarsSame;
    forall n | NameOk(n) ensures Complete(d', PathOfVar(n)) {
      VarPathOk(n);
      VarsSameObservers(d, d', PathOfVar(n));
      ObserversCarry(d, d', PathOfVar(n));
    }
  }

  lemma KeptComplete(d: Store, d': Store, c: string)
    requires AllComplete(d) && KeptBut(d, d', c)
    ensures AllComplete(d')
  {
    hide VarsSame, Closed, ObservingSame;
    CompleteVarsSame(d, d');
  }

  lemma ObserveKeepsComplete(d: Store, n: string, e: Entry, apiId: Option<string>, now: string)
    requires Healthy(d) && AllComplete(d) && NameOk(n) && EntryOk(e)
    ensures AllComplete(Observed(d, n, e, apiId, now))
  {
    var v, c := PathOfVar(n), e.client;
    assert ClientOk(c);
    if !HasIndex(d, v, c, e.tag) {
      VarPathOk(n);
      var d1 := Initialized(d, c, apiId, now);
      InitializeFrame(d, c, apiId, now);
      HealthyInitialized(d, c, apiId, now);
      assert VarFine(d1, n);
      assert EntriesOk(Obs(d1, v)) && Closed(d1);
      hide Closed, Obs, NameOk, PathOfVar, Full, ClientOk, Initialized, Registered, Subscribed, HasIndex, AllComplete,
           KeptBut, SameOutside, CompleteBut, VarOk, EntryOk, EntriesOk;
      KeptComplete(d, d1, "");
      var d2 := Registered(d1, v, e);
      CompleteAt(d1, n);
      RegisterKeepsComplete(d1, v, e, "");
      RegisteredFramed(d1, v, e);
      RegisteredClosed(d1, v, e);
      CompleteElsewhere(d1, d2, n);
      SubscribeFrame(d2, c, Full(n), now);
      KeptComplete(d2, Subscribed(d2, c, Full(n), now), c);
    }
  }

  lemma CompleteAt(d: Store, n: string)
    requires AllComplete(d) && NameOk(n)
    ensures Complete(d, PathOfVar(n))
  {
  }

  lemma StopKeepsComplete(d: Store, n: string, e: Entry, apiId: Option<string>, now: string)
    requires Healthy(d) && AllComplete(d) && NameOk(n) && EntryOk(e)
    requires e in Obs(d, PathOfVar(n)) ==> !Mentions(DropLast(Obs(d, PathOfVar(n)), e), e.client)
    ensures AllComplete(Stopped(d, n, e, apiId, now))
  {
    var v, c := PathOfVar(n), e.client;
    assert ClientOk(c);
    VarPathOk(n);
    assert VarFine(d, n);
    assert EntriesOk(Obs(d, v)) && Closed(d);
    LastIndexRange(Obs(d, v), e);
    hide Closed, Obs, NameOk, PathOfVar, Full, ClientOk, Initialized, Unsubscribed, AllComplete,
         KeptBut, SameOutside, CompleteBut, VarOk, EntryOk, EntriesOk, RemovedAt, LastIn, Mentions, DropLast;
    CompleteAt(d, n);
    var d1 := Removed(d, v, e);
    RemovedFramed(d, v, e);
    RemoveDropsLast(d, v, e);
    FindLastFinds(d, v, e, Size(d, v));
    if e in Obs(d, v) {
      RemoveKeepsCompleteExactly(d, v, e);
    }
    CompleteElsewhere(d, d1, n);
    var d2 := Initialized(d1, c, apiId, now);
    InitializeFrame(d1, c, apiId, now);
    KeptComplete(d1, d2, "");
    KeptIsClosed(d1, d2, "");
    UnsubscribeFrame(d2, c, Full(n), now);
    KeptComplete(d2, Unsubscribed(d2, c, Full(n), now), c);
  }

  lemma {:induction false} PurgeNamesComplete(d: Store, c: string, names: seq<string>)
    requires Closed(d) && RegistryOk(d) && VarsFine(d) && ClientsFine(d) && ClientOk(c) && AllComplete(d)
    requires forall x | x in names :: Resolves(x)
    ensures AllComplete(PurgedNames(d, c, names))
    decreases |names|
  {
    if names != [] {
      var n := ResolvesTo(names[0]);
      var v := PathOfVar(n);
      VarPathOk(n);
      assert VarFine(d, n);
      assert EntriesOk(Obs(d, v));
      hide RegistryOk, VarsFine, ClientsFine, Closed, Obs, NameOk, PathOfVar, Full, ClientOk, Controlled, Resolves,
           PurgedAll, RegistrySame, SubsSameBut, ListsSameBut, AllComplete, CompleteBut, ObserversOk, EntriesOk, VarOk,
         SameOutside;
      var d1 := PurgedAll(d, v, c);
      PurgeHalf(d, n, c);
      CompleteAt(d, n);
      PurgeKeepsComplete(d, v, c);
      PurgeKeepsOk(d, v, c);
      CompleteElsewhere(d, d1, n);
      PurgeNamesComplete(d1, c, names[1..]);
    }
  }

  lemma DeleteKeepsComplete(d: Store, c: string, names: seq<string>)
    requires Healthy(d) && AllComplete(d) && ClientOk(c) && Lists(names, Subs(d, c))
    ensures AllComplete(Deleted(d, c, names))
  {
    assert ClientFine(d, c);
    var d1 := Unregistered(d, c);
    hide RegistryOk, VarsFine, ClientsFine, Closed, Subs, ClientOk, Unregistered, PurgedNames, Lists, Resolves, ClientFine,
         AllComplete, KeptBut, NameOk;
    UnregisterHalf(d, c);
    UnregisterFrame(d, c);
    KeptComplete(d, d1, c);
    ListedNamesResolve(d, c, names);
    PurgeNamesComplete(d1, c, names);
  }

  lemma RecordsKeepComplete(d: Store, d': Store)
    requires AllComplete(d) && RecordsSame(d, d')
    ensures AllComplete(d')
  {
    hide NameOk, PathOfVar, ObserversSame, Complete, RecordsSame;
    forall n | NameOk(n) ensures Complete(d', PathOfVar(n)) {
      RecordsSameObservers(d, d', PathOfVar(n));
      ObserversCarry(d, d', PathOfVar(n));
    }
  }

  lemma MetaKeepsComplete(d: Store, d': Store)
    requires AllComplete(d) && MetaSame(d, d')
    ensures AllComplete(d')
  {
    hide AllComplete, MetaSame, RecordsSame;
    MetaSameRecords(d, d');
    RecordsKeepComplete(d, d');
  }

  lemma ShrinkingKeepsComplete(d: Store, d': Store)
    requires Healthy(d) && AllComplete(d) && Closed(d') && Shrunk(d, d')
    ensures AllComplete(d')
  {
    assert VarsFine(d);
    hide NameOk, PathOfVar, Complete, Shrunk, Closed, ObserversOk;
    forall n | NameOk(n) ensures Complete(d', PathOfVar(n)) {
      assert VarFine(d, n);
      VarPathOk(n);
      ShrunkObservers(d, d', PathOfVar(n));
    }
  }

  lemma StepKeepsComplete(d: Store, op: Op, d': Store)
    requires Healthy(d) && AllComplete(d) && StopsLastTag(d, op) && Step(d, op, d')
    ensures AllComplete(d')
  {
    hide Obs, Subs, NameOk, PathOfVar, ClientOk, MetaSame, Initialized, Observed, Stopped, Deleted,
         Has, PutKey, Lists, Visits, DumpSafe, Reloaded, Mentions, AllComplete, KeptBut, RegistryOk, VarsFine, ClientsFine,
         HasHiddenWord, Written, Cleared, Locked, RecordsSame, Closed;
    match op
    case Observe(n, e, apiId, now) => ObserveKeepsComplete(d, n, e, apiId, now);
    case Stop(n, e, apiId, now) => StopKeepsComplete(d, n, e, apiId, now);
    case Contact(c, apiId, now) =>
      InitializeFrame(d, c, apiId, now);
      KeptComplete(d, d', "");
    case Seen(c, now) =>
      RecordKeysOk(c, 0);
      PutKept(d, RegLive(c), now, "");
      KeptComplete(d, d', "");
    case Forget(c) =>
      var names :| Lists(names, Subs(d, c)) && d' == Deleted(d, c, names);
      DeleteKeepsComplete(d, c, names);
    case SetVar(n, v) =>
      WriteSparesMeta(d, n, v);
      MetaKeepsComplete(d, d');
    case DelVar(ps) => RecordsKeepComplete(d, d');
    case LockVar(n) =>
      FlagSparesRecords(d, n, "1");
      if d' != d {
        RecordsKeepComplete(d, d');
      }
    case UnlockVar(n) =>
      FlagSparesRecords(d, n, "0");
      RecordsKeepComplete(d, d');
    case Restart =>
      var order :| Visits(d, [], order) && d' == Reloaded(d, order);
      ReloadShrinks(d, order);
      ShrinkingKeepsComplete(d, d');
  }

  // ---- and whose lists hold every entry once ----

  ghost predicate AllDistinct(d: Store) {
    forall n {:trigger Obs(d, PathOfVar(n))} | NameOk(n) :: NoRepeats(Obs(d, PathOfVar(n)))
  }

  lemma ListsSameDistinct(d: Store, d': Store)
    requires AllDistinct(d) && ListsSame(d, d')
    ensures AllDistinct(d')
  {
    hide Obs, PathOfVar, NameOk, NoRepeats;
  }

  lemma OneListDistinct(d: Store, d': Store, n: string)
    requires AllDistinct(d) && ListsSameBut(d, d', n) && NoRepeats(Obs(d', PathOfVar(n)))
    ensures AllDistinct(d')
  {
    hide Obs, PathOfVar, NameOk, NoRepeats;
  }

  lemma {:induction false} WithoutDistinct(s: seq<Entry>, c: string)
    requires NoRepeats(s)
    ensures NoRepeats(Without(s, c)) && forall e | e in Without(s, c) :: e in s
  {
    if s != [] {
      var n := |s| - 1;
      WithoutDistinct(s[..n], c);
      assert s[n] !in s[..n];
    }
  }

  lemma PurgedDistinct(d: Store, d': Store, c: string, names: seq<string>)
    requires AllDistinct(d) && PurgedLists(d, d', c, names)
    ensures AllDistinct(d')
  {
    hide Obs, PathOfVar, NameOk, NoRepeats, Targets;
    forall n | NameOk(n) ensures NoRepeats(Obs(d', PathOfVar(n))) {
      assert NoRepeats(Obs(d, PathOfVar(n)));
      WithoutDistinct(Obs(d, PathOfVar(n)), c);
    }
  }

  lemma AppendDistinct(s: seq<Entry>, e: Entry)
    requires NoRepeats(s) && e !in s
    ensures NoRepeats(s + [e])
  {
  }

  lemma DropLastDistinct(s: seq<Entry>, e: Entry)
    requires NoRepeats(s)
    ensures NoRepeats(DropLast(s, e))
  {
    hide LastIn;
  }

  lemma DistinctAt(d: Store, n: string)
    requires AllDistinct(d) && NameOk(n)
    ensures NoRepeats(Obs(d, PathOfVar(n)))
  {
  }

  lemma PartsAt(d: Store, n: string, e: Entry)
    requires Sound(d) && AllComplete(d) && NameOk(n) && EntryOk(e)
    ensures Closed(d) && VarOk(PathOfVar(n)) && ObserversOk(d, PathOfVar(n)) && Complete(d, PathOfVar(n))
    ensures ClientOk(e.client) && TagOk(e.tag)
  {
    VarPathOk(n);
    assert VarFine(d, n);
    CompleteAt(d, n);
  }

  /** A complete index screens every entry that is already there. */
  lemma ObserveKeepsDistinct(d: Store, n: string, e: Entry, apiId: Option<string>, now: string)
    requires Sound(d) && AllComplete(d) && AllDistinct(d) && NameOk(n) && EntryOk(e)
    ensures AllDistinct(Observed(d, n, e, apiId, now))
  {
    hide *;
    var v, d' := PathOfVar(n), Observed(d, n, e, apiId, now);
    PartsAt(d, n, e);
    DistinctAt(d, n);
    IsObservingExactly(d, v, e.client, e.tag);
    ObserveEffect(d, n, e, apiId, now);
    if HasIndex(d, v, e.client, e.tag) {
      ScreenedObserve(d, n, e, apiId, now);
    } else {
      NotListed(Obs(d, v), e);
      AppendDistinct(Obs(d, v), e);
      OneListDistinct(d, d', n);
    }
  }

  lemma ScreenedObserve(d: Store, n: string, e: Entry, apiId: Option<string>, now: string)
    requires HasIndex(d, PathOfVar(n), e.client, e.tag)
    ensures Observed(d, n, e, apiId, now) == d
  {
  }

  lemma NotListed(s: seq<Entry>, e: Entry)
    requires !(if e.tag != "" then Entry(e.client, e.tag) in s else Mentions(s, e.client))
    ensures e !in s
  {
  }

  lemma StopKeepsDistinct(d: Store, n: string, e: Entry, apiId: Option<string>, now: string)
    requires Sound(d) && AllDistinct(d) && NameOk(n) && EntryOk(e)
    ensures AllDistinct(Stopped(d, n, e, apiId, now))
  {
    hide *;
    DistinctAt(d, n);
    StopEffect(d, n, e, apiId, now);
    DropLastDistinct(Obs(d, PathOfVar(n)), e);
    OneListDistinct(d, Stopped(d, n, e, apiId, now), n);
  }

  lemma StepKeepsDistinct(d: Store, op: Op, d': Store)
    requires Sound(d) && AllComplete(d) && AllDistinct(d) && Step(d, op, d')
    ensures AllDistinct(d')
  {
    hide Sound, Obs, Subs, NameOk, PathOfVar, ClientOk, Initialized, Observed, Stopped, Deleted, Has, PutKey,
         Lists, AllDistinct, AllComplete, PurgedLists, ListsSame, SubsSameBut, Targets, StopMatches;
    if !OnSubscriptions(op) {
      VariableOpLists(d, op, d');
      ListsSameDistinct(d, d');
    } else {
      match op
      case Observe(n, e, apiId, now) => ObserveKeepsDistinct(d, n, e, apiId, now);
      case Stop(n, e, apiId, now) => StopKeepsDistinct(d, n, e, apiId, now);
      case Contact(c, apiId, now) =>
        EnlistHalf(d, c, apiId, now);
        ListsSameDistinct(d, d');
      case Seen(c, now) =>
        SeenKeepsSound(d, c, now);
        ListsSameDistinct(d, d');
      case Forget(c) =>
        var names :| Lists(names, Subs(d, c)) && d' == Deleted(d, c, names);
        DeleteEffect(d, c, names);
        PurgedDistinct(d, d', c, names);
    }
  }

  lemma VariableOpLists(d: Store, op: Op, d': Store)
    requires Sound(d) && Step(d, op, d') && !OnSubscriptions(op)
    ensures ListsSame(d, d')
  {
    hide Sound, Effect, SafeRestart, ListsSame, SubsSameBut, IndexesSame, Healthy;
    VariableOpKeepsSound(d, op, d');
  }

  ghost predicate LastTagRun(ds: seq<Store>, ops: seq<Op>) {
    Run(ds, ops) && forall i {:trigger StopsLastTag(ds[i], ops[i])} | 0 <= i < |ops| :: StopsLastTag(ds[i], ops[i])
  }

  lemma EmptyIsComplete()
    ensures AllComplete(EMPTY) && AllDistinct(EMPTY)
  {
    forall n | NameOk(n) ensures NoRepeats(Obs(EMPTY, PathOfVar(n))) {
      assert Obs(EMPTY, PathOfVar(n)) == [];
    }
    forall n | NameOk(n) ensures Complete(EMPTY, PathOfVar(n)) {
      assert Obs(EMPTY, PathOfVar(n)) == [];
    }
  }

  /** In every state of such a run the index finds every entry, and no two slots of a list hold the same one. */
  lemma {:induction false} RunsStayComplete(ds: seq<Store>, ops: seq<Op>, i: nat)
    requires LastTagRun(ds, ops) && i < |ds|
    ensures Healthy(ds[i]) && AllComplete(ds[i]) && AllDistinct(ds[i])
  {
    hide Healthy, Step, AllComplete, AllDistinct, StopsLastTag;
    RunsStayHealthy(ds, ops, i);
    if i == 0 {
      EmptyIsComplete();
    } else {
      var j := i - 1;
      RunsStayComplete(ds, ops, j);
      assert Step(ds[j], ops[j], ds[j + 1]) && StopsLastTag(ds[j], ops[j]);
      HealthyIsSound(ds[j]);
      StepKeepsComplete(ds[j], ops[j], ds[j + 1]);
      StepKeepsDistinct(ds[j], ops[j], ds[j + 1]);
    }
  }

  /** In such runs the screening question is answered by the list itself, in every state. */
  lemma ObservingIsMembership(ds: seq<Store>, ops: seq<Op>, i: nat, n: string, c: string, t: string)
    requires LastTagRun(ds, ops) && i < |ds| && NameOk(n) && ClientOk(c) && TagOk(t)
    ensures var s := Obs(ds[i], PathOfVar(n));
            HasIndex(ds[i], PathOfVar(n), c, t) <==> if t != "" then Entry(c, t) in s else Mentions(s, c)
  {
    RunsStayComplete(ds, ops, i);
    VarPathOk(n);
    assert VarFine(ds[i], n);
    CompleteAt(ds[i], n);
    hide NameOk, PathOfVar, Obs, HasIndex, Complete, VarOk, ClientOk, TagOk, Mentions, ObserversOk, Closed;
    IsObservingExactly(ds[i], PathOfVar(n), c, t);
  }

  /** In such runs list and index are inverse to each other: every slot's pair is indexed under that slot's number. */
  lemma IndexInverse(ds: seq<Store>, ops: seq<Op>, i: nat, n: string, j: nat, k: nat)
    requires LastTagRun(ds, ops) && i < |ds| && NameOk(n)
    requires j < |Obs(ds[i], PathOfVar(n))|
    ensures var s := Obs(ds[i], PathOfVar(n));
            && (k < |s| && k != j ==> s[k] != s[j])
            && Index(ds[i], PathOfVar(n), s[j].client, s[j].tag) != ""
            && GetInt(Index(ds[i], PathOfVar(n), s[j].client, s[j].tag)) == j
  {
    var d, v := ds[i], PathOfVar(n);
    RunsStayComplete(ds, ops, i);
    VarPathOk(n);
    assert VarFine(d, n);
    CompleteAt(d, n);
    var s := Obs(d, v);
    assert NoRepeats(s);
    hide Obs, Index, NameOk, PathOfVar, IndexNodes, NoStray;
    assert s[j] in s;
    assert EntryOk(s[j]) && s[j] == Entry(s[j].client, s[j].tag);
    assert IndexTrue(d, v, s[j].client, s[j].tag);
    IndexTrueMeans(d, v, s[j].client, s[j].tag);
  }
}
