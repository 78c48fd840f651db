/** Which operations leave a store the dump file can carry, exactly, and what restarts then keep, over whole runs. */
module CleanRuns {
  import opened Options
  import opened Text
  import opened Decimal
  import opened FlatStore
  import opened DumpText
  import opened RoundTrip
  import opened Keys
  import opened Views
  import opened EntryLists
  import opened Observers
  import opened ObserverIndex
  import opened ObserverNodes
  import opened Registry
  import opened RegistryNodes
  import opened RegistryCount
  import opened Subscriptions
  import opened Runs
  import opened Bookkeeping
  import opened Wildcard
  import opened Writes
  import opened ServerRuns
  import opened CleanStores

  // ---- clean operations ----

  predicate OneLine(x: Option<string>) { x.Some? ==> '\n' !in x.value }

  /** An operation none of whose arguments the dump file would take apart. */
  predicate CleanOp(op: Op) {
    match op
    case Observe(n, e, apiId, now) =>
      CleanText(n) && CleanText(e.client) && CleanText(e.tag) && OneLine(apiId) && '\n' !in now
    case Stop(_, e, apiId, now) => CleanText(e.client) && OneLine(apiId) && '\n' !in now
    case Contact(c, apiId, now) => CleanText(c) && OneLine(apiId) && '\n' !in now
    case Seen(_, now) => '\n' !in now
    case Forget(_) => true
    case SetVar(n, v) => Carried(n, v)
    case DelVar(_) => true
    case LockVar(n) => CleanText(n)
    case UnlockVar(n) => CleanText(n)
    case Restart => true
  }

  /** A clean operation, or an observation the index screens out. */
  predicate CleanStep(d: Store, op: Op) {
    CleanOp(op) || (op.Observe? && HasIndex(d, PathOfVar(op.n), op.e.client, op.e.tag))
  }

  lemma ObservedKeeps(d: Store, n: string, e: Entry, apiId: Option<string>, now: string)
    requires DumpSafe(d) && EntryOk(e) && CleanStep(d, Observe(n, e, apiId, now))
    ensures Keeps(d, Observed(d, n, e, apiId, now))
  {
    var v, c := PathOfVar(n), e.client;
    if !HasIndex(d, v, c, e.tag) {
      VarIsClean(n);
      FullIsClean(n);
      hide Tidy, DumpSafe, CleanVar, PathOfVar, Full, Initialized, Registered, Subscribed, Has, HasIndex;
      InitializedKeeps(d, c, apiId, now);
      var d1 := Initialized(d, c, apiId, now);
      RegisteredKeeps(d1, v, e);
      SubscribedKeeps(Registered(d1, v, e), c, Full(n), now);
    }
  }

  lemma FullIsClean(n: string)
    requires CleanText(n)
    ensures CleanText(Full(n))
  {
    assert forall c | c in Full(n) :: c in "vars." || c in n;
  }

  lemma StoppedTidy(d: Store, n: string, e: Entry, apiId: Option<string>, now: string)
    requires Tidy(d) && EntryOk(e) && CleanOp(Stop(n, e, apiId, now))
    ensures Tidy(Stopped(d, n, e, apiId, now))
  {
    var v, c := PathOfVar(n), e.client;
    assert ClientOk(c) && c != "";
    VarsFirst(n);
    hide Tidy, DumpSafe, Full, Initialized, Removed, Unsubscribed, ClientOk, Controlled, Split;
    RemovedTidy(d, v, e);
    TidyIsSafe(Removed(d, v, e));
    InitializedKeeps(Removed(d, v, e), c, apiId, now);
    UnsubscribedKeeps(Initialized(Removed(d, v, e), c, apiId, now), c, Full(n), now);
  }

  /** A registered client's id is one the dump can carry, if the store is. */
  lemma EnlistedIsClean(d: Store, c: string)
    requires Sound(d) && DumpSafe(d) && ClientOk(c) && Has(d, RegPos(c))
    ensures CleanText(c)
  {
    assert RegistryOk(d);
    hide Sound, DumpSafe, View, Ids;
    HasId(d, c);
    assert Enlisted(d, c);
    IdOf(c);
    ValuedIsClean(d, RegPos(c));
    assert c in PathOf(RegPos(c)) by {
      assert IdPath(c)[3] == c;
    }
  }

  lemma ValuedIsClean(d: Store, k: Key)
    requires DumpSafe(d) && View(d, k) != ""
    ensures '\n' !in View(d, k) && forall w | w in PathOf(k) :: CleanText(w)
  {
    hide Canonical, PathOf;
    var p := PathOf(k);
    assert p in d && Clean(p, d[p]);
  }

  lemma SubscriptionOpKeepsTidy(d: Store, op: Op, d': Store)
    requires Sound(d) && Tidy(d) && Effect(d, op, d') && CleanStep(d, op) && OnSubscriptions(op)
    ensures Tidy(d')
  {
    TidyIsSafe(d);
    hide Sound, Tidy, DumpSafe, Initialized, Observed, Stopped, Deleted, Has, PutKey, Lists, Subs, NameOk, EntryOk, ClientOk,
         PathOfVar, CleanText, HasIndex;
    match op
    case Observe(n, e, apiId, now) => ObservedKeeps(d, n, e, apiId, now);
    case Stop(n, e, apiId, now) => StoppedTidy(d, n, e, apiId, now);
    case Contact(c, apiId, now) => InitializedKeeps(d, c, apiId, now);
    case Seen(c, now) =>
      EnlistedIsClean(d, c);
      IsRecordKey(c);
      PutRecord(d, c, 0, RegLive(c), now);
    case Forget(c) =>
      var names :| Lists(names, Subs(d, c)) && d' == Deleted(d, c, names);
      DeletedTidy(d, c, names);
  }

  lemma IsRecordKey(c: string)
    ensures RecordKey(RegLive(c), c, 0)
  {
  }

  lemma VariableOpKeepsTidy(d: Store, op: Op, d': Store)
    requires Sound(d) && Tidy(d) && Effect(d, op, d') && CleanStep(d, op) && !OnSubscriptions(op)
    ensures Tidy(d')
  {
    TidyIsSafe(d);
    SoundIsClosed(d);
    hide Sound, Closed, Tidy, DumpSafe, MetaSame, Written, Cleared, Visits, Reloaded, NameOk, PathOfVar, Locked, PutKey,
         Acceptable, Carried, CleanText, HasIndex;
    match op
    case SetVar(n, v) => WrittenKeeps(d, n, v);
    case DelVar(ps) => ClearedKeeps(d, ps);
    case LockVar(n) => FlagKeeps(d, n, "1");
    case UnlockVar(n) => FlagKeeps(d, n, "0");
    case Restart =>
      var order :| Visits(d, [], order) && d' == Reloaded(d, order);
      ReloadKeeps(d, order);
  }

  /** A clean operation leaves a store that the next dump can carry. */
  lemma CleanOpKeepsTidy(d: Store, op: Op, d': Store)
    requires Sound(d) && Tidy(d) && Effect(d, op, d') && CleanStep(d, op)
    ensures Tidy(d')
  {
    hide *;
    if OnSubscriptions(op) {
      SubscriptionOpKeepsTidy(d, op, d');
    } else {
      VariableOpKeepsTidy(d, op, d');
    }
  }

  // ---- and no other does ----

  lemma {:induction false} JoinIsClean(ws: seq<string>)
    requires |ws| > 0 && forall w | w in ws :: CleanText(w)
    ensures CleanText(Join(ws, '.'))
  {
    assert CleanText(ws[0]);
    if |ws| > 1 {
      JoinIsClean(ws[1..]);
    }
  }

  lemma NameIsClean(n: string)
    requires NameOk(n) && forall w | w in PathOfVar(n) :: CleanText(w)
    ensures CleanText(n)
  {
    VarPathOk(n);
    hide PathOfVar, NameOk, Split, CleanText;
    assert forall w | w in Split(n, '.') :: w in PathOfVar(n);
    JoinIsClean(Split(n, '.'));
    JoinSplit(n, '.');
  }

  lemma ContactKeepsSafeExactly(d: Store, c: string, apiId: Option<string>, now: string)
    requires Sound(d) && DumpSafe(d) && ClientOk(c)
    ensures DumpSafe(Initialized(d, c, apiId, now)) <==> CleanOp(Contact(c, apiId, now))
  {
    var d' := Initialized(d, c, apiId, now);
    hide Sound, DumpSafe, Tidy, Initialized, ClientOk, View, Has, CleanText;
    if CleanOp(Contact(c, apiId, now)) {
      InitializedKeeps(d, c, apiId, now);
    }
    if DumpSafe(d') {
      EnlistHalf(d, c, apiId, now);
      EnlistedIsClean(d', c);
      InitializedViews(d, c, apiId, now);
      ViewIsOneLine(d', RegLive(c));
      ViewIsOneLine(d', RegApi(c));
    }
  }

  lemma SubscribedClient(d: Store, c: string, full: string, now: string)
    requires ClientOk(c)
    ensures View(Subscribed(d, c, full, now), RegLive(c)) == now
    ensures View(Subscribed(d, c, full, now), RegApi(c)) == View(d, RegApi(c))
  {
    hide View, PutKey, KeyOk, Itoa, ClientOk, SubsCount, NatOf;
    var d1 := PutKey(d, RegLive(c), now);
    var n := NatOf(SubsCount(d1, c));
    RecordKeysOk(c, n);
    LiveClient(d, c, now);
    forall k | k == RegLive(c) || k == RegApi(c) ensures View(Subscribed(d, c, full, now), k) == View(d1, k) {
      Put1(d1, SubCount(c), Itoa(n + 1), k);
      Put1(PutKey(d1, SubCount(c), Itoa(n + 1)), SubSlot(c, n), full, k);
    }
  }

  lemma RegisteredClient(d: Store, v: Path, e: Entry)
    requires VarOk(v) && EntryOk(e)
    ensures View(Registered(d, v, e), RegApi(e.client)) == View(d, RegApi(e.client))
  {
    var k := RegApi(e.client);
    RecordKeysOk(e.client, 0);
    hide View, PutKey, KeyOk, Itoa, VarOk, EntryOk, Size;
    var n := Size(d, v);
    SlotKeysOk(v, n);
    KeysOk(v, n, e);
    var d1 := PutKey(d, ObsClient(v, n), e.client);
    var d2 := PutKey(d1, ObsTag(v, n), e.tag);
    Put1(d, ObsClient(v, n), e.client, k);
    Put1(d1, ObsTag(v, n), e.tag, k);
    Put1(d2, ObsIndex(v, e.client, e.tag), Itoa(n), k);
    Put1(PutEntry(d, v, n, e), ObsCount(v), Itoa(n + 1), k);
  }

  lemma ObservedClient(d: Store, n: string, e: Entry, apiId: Option<string>, now: string)
    requires NameOk(n) && EntryOk(e) && !HasIndex(d, PathOfVar(n), e.client, e.tag)
    ensures var d' := Observed(d, n, e, apiId, now);
            && View(d', RegLive(e.client)) == now
            && (apiId.Some? ==> View(d', RegApi(e.client)) == apiId.value)
  {
    var v, c := PathOfVar(n), e.client;
    assert ClientOk(c);
    hide *;
    VarPathOk(n);
    var d1 := Initialized(d, c, apiId, now);
    ObservedIs(d, n, e, apiId, now);
    InitializedViews(d, c, apiId, now);
    RegisteredClient(d1, v, e);
    SubscribedClient(Registered(d1, v, e), c, Full(n), now);
  }

  lemma IndexedIsClean(d: Store, v: Path, e: Entry)
    requires DumpSafe(d) && EntryOk(e) && Index(d, v, e.client, e.tag) != ""
    ensures CleanText(e.client) && CleanText(e.tag) && forall w | w in v :: CleanText(w)
  {
    ValuedIsClean(d, ObsIndex(v, e.client, e.tag));
    IndexPath(v, e.client, e.tag);
    hide PathOf, View, DumpSafe;
    var p := PathOf(ObsIndex(v, e.client, e.tag));
    assert p[|v| + 2] == e.client && (e.tag != "" ==> p[|v| + 4] == e.tag);
    assert forall w | w in v :: w in p;
  }

  /** An observation leaves a dump-safe store dump-safe exactly when it is screened out or its arguments are clean. */
  lemma ObserveKeepsSafeExactly(d: Store, n: string, e: Entry, apiId: Option<string>, now: string)
    requires Sound(d) && DumpSafe(d) && NameOk(n) && EntryOk(e)
    ensures DumpSafe(Observed(d, n, e, apiId, now)) <==>
              HasIndex(d, PathOfVar(n), e.client, e.tag) || CleanOp(Observe(n, e, apiId, now))
  {
    var d' := Observed(d, n, e, apiId, now);
    hide Sound, DumpSafe, Tidy, Observed, View, HasIndex, CleanText, NameOk, EntryOk, PathOfVar;
    if CleanStep(d, Observe(n, e, apiId, now)) {
      ObservedKeeps(d, n, e, apiId, now);
    }
    if DumpSafe(d') && !HasIndex(d, PathOfVar(n), e.client, e.tag) {
      ObservedIndex(d, n, e, apiId, now);
      IndexedIsClean(d', PathOfVar(n), e);
      NameIsClean(n);
      ObservedClient(d, n, e, apiId, now);
      ViewIsOneLine(d', RegLive(e.client));
      ViewIsOneLine(d', RegApi(e.client));
    }
  }

  lemma SubRemovedClient(d: Store, c: string, i: nat, n: nat)
    requires Closed(d) && ClientOk(c) && i < n
    ensures View(SubRemovedAt(d, c, i, n), RegLive(c)) == View(d, RegLive(c))
    ensures View(SubRemovedAt(d, c, i, n), RegApi(c)) == View(d, RegApi(c))
  {
    RecordKeysOk(c, 0);
    hide View, KeyOk, Itoa, ClientOk, Closed, SubRemovedAt;
    SubRemovedAtViews(d, c, i, n);
  }

  lemma LiveClient(d: Store, c: string, now: string)
    requires ClientOk(c)
    ensures View(PutKey(d, RegLive(c), now), RegLive(c)) == now
    ensures View(PutKey(d, RegLive(c), now), RegApi(c)) == View(d, RegApi(c))
  {
    RecordKeysOk(c, 0);
    hide View, KeyOk, ClientOk, PutKey;
    PutViews(d, RegLive(c), now);
  }

  lemma UnsubscribedClient(d: Store, c: string, full: string, now: string)
    requires Closed(d) && ClientOk(c)
    ensures View(Unsubscribed(d, c, full, now), RegLive(c)) == now
    ensures View(Unsubscribed(d, c, full, now), RegApi(c)) == View(d, RegApi(c))
  {
    RecordKeysOk(c, 0);
    hide PutKey, View, KeyOk, ClientOk, Closed, SubRemovedAt, FindSub, SubsCount, NatOf;
    var d1 := PutKey(d, RegLive(c), now);
    LiveClient(d, c, now);
    PutKeyClosed(d, RegLive(c), now);
    var n := NatOf(SubsCount(d1, c));
    var i := FindSub(d1, c, full, 0, n);
    if i >= 0 {
      SubRemovedClient(d1, c, i, n);
    }
  }

  lemma StoppedClient(d: Store, n: string, e: Entry, apiId: Option<string>, now: string)
    requires Sound(d) && NameOk(n) && EntryOk(e)
    ensures var d' := Stopped(d, n, e, apiId, now);
            && Sound(d') && Has(d', RegPos(e.client)) && View(d', RegLive(e.client)) == now
            && (apiId.Some? ==> View(d', RegApi(e.client)) == apiId.value)
  {
    var c := e.client;
    assert ClientOk(c);
    hide *;
    var d1 := Removed(d, PathOfVar(n), e);
    var d2 := Initialized(d1, c, apiId, now);
    StopEffect(d, n, e, apiId, now);
    RemoveHalf(d, n, e);
    EnlistHalf(d1, c, apiId, now);
    SoundIsClosed(d2);
    InitializedViews(d1, c, apiId, now);
    UnsubscribedClient(d2, c, Full(n), now);
    UnsubscribeRegistry(d2, c, Full(n), now);
    HasCarries(d2, Unsubscribed(d2, c, Full(n), now), c);
    StoppedIs(d, n, e, apiId, now);
  }

  lemma StopKeepsSafeExactly(d: Store, n: string, e: Entry, apiId: Option<string>, now: string)
    requires Sound(d) && Tidy(d) && NameOk(n) && EntryOk(e)
    ensures DumpSafe(Stopped(d, n, e, apiId, now)) <==> CleanOp(Stop(n, e, apiId, now))
  {
    var d', c := Stopped(d, n, e, apiId, now), e.client;
    assert ClientOk(c);
    hide Sound, DumpSafe, Tidy, Stopped, View, CleanText, NameOk, EntryOk, ClientOk, Has;
    if CleanOp(Stop(n, e, apiId, now)) {
      StoppedTidy(d, n, e, apiId, now);
      TidyIsSafe(d');
    }
    if DumpSafe(d') {
      StoppedClient(d, n, e, apiId, now);
      EnlistedIsClean(d', c);
      ViewIsOneLine(d', RegLive(c));
      ViewIsOneLine(d', RegApi(c));
    }
  }

  lemma FlaggedIsClean(d: Store, n: string)
    requires DumpSafe(d) && NameOk(n) && View(d, LockFlag(PathOfVar(n))) != ""
    ensures CleanText(n)
  {
    var v := PathOfVar(n);
    ValuedIsClean(d, LockFlag(v));
    FlagPath(v);
    hide PathOf, View, DumpSafe, PathOfVar, NameOk;
    assert forall w | w in v :: w in v + ["_lock"];
    NameIsClean(n);
  }

  lemma FlagKeepsSafeExactly(d: Store, n: string)
    requires DumpSafe(d) && NameOk(n)
    ensures DumpSafe(LockTried(d, PathOfVar(n))) <==> CleanText(n)
    ensures DumpSafe(Unlocked(d, PathOfVar(n))) <==> CleanText(n)
  {
    var v := PathOfVar(n);
    FlagViews(d, v, "0");
    FlagViews(d, v, "1");
    hide DumpSafe, NameOk, PathOfVar, PutKey, View, CleanText;
    if CleanText(n) {
      FlagKeeps(d, n, "1");
      FlagKeeps(d, n, "0");
    }
    if DumpSafe(LockTried(d, v)) {
      FlaggedIsClean(LockTried(d, v), n);
    }
    if DumpSafe(Unlocked(d, v)) {
      FlaggedIsClean(Unlocked(d, v), n);
    }
  }

  lemma SeenKeepsSafeExactly(d: Store, c: string, now: string)
    requires Sound(d) && DumpSafe(d) && ClientOk(c) && Has(d, RegPos(c))
    ensures DumpSafe(PutKey(d, RegLive(c), now)) <==> '\n' !in now
  {
    EnlistedIsClean(d, c);
    RecordKeysOk(c, 0);
    hide Sound, DumpSafe, Tidy, PutKey, View, ClientOk, Has, CleanText, KeyOk;
    PutViews(d, RegLive(c), now);
    if '\n' !in now {
      PutRecord(d, c, 0, RegLive(c), now);
    }
    if DumpSafe(PutKey(d, RegLive(c), now)) {
      ViewIsOneLine(PutKey(d, RegLive(c), now), RegLive(c));
    }
  }

  /** What an unclean operation does to a tidy store is never dump-safe. */
  lemma OpStaysSafeExactly(d: Store, op: Op, d': Store)
    requires Sound(d) && Tidy(d) && Effect(d, op, d')
    ensures DumpSafe(d') <==> CleanStep(d, op)
    ensures DumpSafe(d') ==> Tidy(d')
  {
    TidyIsSafe(d);
    hide Sound, Tidy, DumpSafe, Initialized, Observed, Stopped, Deleted, Has, PutKey, Lists, MetaSame, Written, Cleared,
         Visits, Reloaded, Subs, NameOk, EntryOk, ClientOk, PathOfVar, LockTried, Unlocked, Acceptable, Carried, CleanText,
         HasIndex;
    if CleanStep(d, op) {
      CleanOpKeepsTidy(d, op, d');
      TidyIsSafe(d');
    } else {
      match op
      case Observe(n, e, apiId, now) => ObserveKeepsSafeExactly(d, n, e, apiId, now);
      case Stop(n, e, apiId, now) => StopKeepsSafeExactly(d, n, e, apiId, now);
      case Contact(c, apiId, now) => ContactKeepsSafeExactly(d, c, apiId, now);
      case Seen(c, now) => SeenKeepsSafeExactly(d, c, now);
      case SetVar(n, v) => WriteKeepsSafeExactly(d, n, v);
      case LockVar(n) => FlagKeepsSafeExactly(d, n);
      case UnlockVar(n) => FlagKeepsSafeExactly(d, n);
      case _ =>
    }
  }

  // ---- clean runs ----

  /** A run from an empty store in which every operation is clean; nothing is asked of the states it reaches. */
  ghost predicate CleanRun(ds: seq<Store>, ops: seq<Op>) {
    && |ds| == |ops| + 1 && ds[0] == EMPTY
    && forall i {:trigger Effect(ds[i], ops[i], ds[i + 1])} | 0 <= i < |ops| ::
         Effect(ds[i], ops[i], ds[i + 1]) && CleanOp(ops[i])
  }

  /** A run from an empty store in which anything may happen, restarts from any state included. */
  ghost predicate FreeRun(ds: seq<Store>, ops: seq<Op>) {
    && |ds| == |ops| + 1 && ds[0] == EMPTY
    && forall i {:trigger Effect(ds[i], ops[i], ds[i + 1])} | 0 <= i < |ops| :: Effect(ds[i], ops[i], ds[i + 1])
  }

  lemma {:induction false} SafeUntil(ds: seq<Store>, ops: seq<Op>, i: nat)
    requires FreeRun(ds, ops) && i < |ds| && forall j | 0 <= j < i :: CleanStep(ds[j], ops[j])
    ensures Sound(ds[i]) && Tidy(ds[i]) && DumpSafe(ds[i])
  {
    hide Sound, Effect, Tidy, CleanStep, DumpSafe;
    if i == 0 {
      EmptyIsSound();
      EmptyIsTidy();
      TidyIsSafe(ds[0]);
    } else {
      var j := i - 1;
      SafeUntil(ds, ops, j);
      assert Effect(ds[j], ops[j], ds[j + 1]) && CleanStep(ds[j], ops[j]);
      OpStaysSafeExactly(ds[j], ops[j], ds[j + 1]);
      EffectKeepsSound(ds[j], ops[j], ds[j + 1]);
    }
  }

  /**
   Every state of a run is one the dump file can carry exactly when every operation of it is clean, or an
   observation the index screens out.
   */
  lemma RunsSafeExactly(ds: seq<Store>, ops: seq<Op>)
    requires FreeRun(ds, ops)
    ensures (forall i | 0 <= i < |ds| :: DumpSafe(ds[i])) <==> (forall i | 0 <= i < |ops| :: CleanStep(ds[i], ops[i]))
  {
    hide Sound, Effect, Tidy, CleanStep, DumpSafe;
    if forall i | 0 <= i < |ops| :: CleanStep(ds[i], ops[i]) {
      forall i | 0 <= i < |ds| ensures DumpSafe(ds[i]) {
        SafeUntil(ds, ops, i);
      }
    }
    if forall i | 0 <= i < |ds| :: DumpSafe(ds[i]) {
      StepsAreClean(ds, ops, |ops|);
    }
  }

  lemma {:induction false} StepsAreClean(ds: seq<Store>, ops: seq<Op>, n: nat)
    requires FreeRun(ds, ops) && n <= |ops| && forall i | 0 <= i < |ds| :: DumpSafe(ds[i])
    ensures forall i | 0 <= i < n :: CleanStep(ds[i], ops[i])
  {
    hide Sound, Effect, Tidy, CleanStep, DumpSafe;
    if n > 0 {
      var j := n - 1;
      StepsAreClean(ds, ops, j);
      SafeUntil(ds, ops, j);
      assert DumpSafe(ds[j + 1]) && Effect(ds[j], ops[j], ds[j + 1]);
      OpStaysSafeExactly(ds[j], ops[j], ds[j + 1]);
    }
  }

  /** Every state of a clean run is one the dump file can carry. */
  lemma CleanRunsStaySafe(ds: seq<Store>, ops: seq<Op>, i: nat)
    requires CleanRun(ds, ops) && i < |ds|
    ensures Tidy(ds[i]) && DumpSafe(ds[i]) && Sound(ds[i])
  {
    hide Sound, Effect, Tidy, CleanOp, DumpSafe, HasIndex;
    forall j | 0 <= j < |ops| ensures Effect(ds[j], ops[j], ds[j + 1]) && CleanStep(ds[j], ops[j]) {
    }
    SafeUntil(ds, ops, i);
  }

  /** So whatever is proved of runs holds of clean runs, where a restart can come at any time. */
  lemma CleanRunIsRun(ds: seq<Store>, ops: seq<Op>)
    requires CleanRun(ds, ops)
    ensures AnyRun(ds, ops)
    ensures (forall i | 0 <= i < |ops| && ops[i].Stop? :: StopMatches(ds[i], ops[i].n, ops[i].e)) ==> Run(ds, ops)
  {
    hide Effect, CleanOp, DumpSafe, StopMatches;
    forall i | 0 <= i < |ops| ensures Effect(ds[i], ops[i], ds[i + 1]) && SafeRestart(ds[i], ops[i]) {
      CleanRunsStaySafe(ds, ops, i);
    }
  }

  /**
   A restart anywhere in a clean run, under any order of the dump, keeps every subscription, index answer,
   client list and lock, and the agreement of the two records.
   */
  lemma RestartInCleanRun(ds: seq<Store>, ops: seq<Op>, i: nat, order: seq<Path>)
    requires CleanRun(ds, ops) && i < |ds| && Visits(ds[i], [], order)
    ensures var d' := Reloaded(ds[i], order);
            SameValues(ds[i], d') && Sound(d') && SameAnswers(ds[i], d') && (Healthy(ds[i]) ==> Healthy(d'))
  {
    hide *;
    CleanRunsStaySafe(ds, ops, i);
    SoundIsClosed(ds[i]);
    RoundTripExactly(ds[i], order);
    RestartKeepsAnswers(ds[i], order);
  }
}
