/** Runs of the whole server, restarts included, from an empty store. */
module ServerRuns {
  import opened Options
  import opened Decimal
  import opened FlatStore
  import opened DumpText
  import opened RoundTrip
  import opened Keys
  import opened Views
  import opened EntryLists
  import opened Observers
  import opened ObserverIndex
  import opened ObserverNodes
  import opened Registry
  import opened RegistryNodes
  import opened RegistryCount
  import opened Subscriptions
  import opened Runs
  import opened Bookkeeping
  import opened Wildcard
  import opened Writes

  /** Everything the server answers about subscriptions and clients. */
  ghost predicate SameSubscriptions(d: Store, d': Store) {
    ListsSame(d, d') && SubsSameBut(d, d', "") && IndexesSame(d, d')
  }

  /** And about locks. */
  ghost predicate SameAnswers(d: Store, d': Store) {
    && SameSubscriptions(d, d')
    && forall v {:trigger View(d', LockFlag(v))} :: View(d', LockFlag(v)) == View(d, LockFlag(v))
  }

  predicate SameIndex(d: Store, d': Store, n: string, c: string, t: string) {
    && Index(d', PathOfVar(n), c, t) == Index(d, PathOfVar(n), c, t)
    && (HasIndex(d', PathOfVar(n), c, t) <==> HasIndex(d, PathOfVar(n), c, t))
  }

  ghost predicate IndexesSame(d: Store, d': Store) {
    forall n, c, t {:trigger SameIndex(d, d', n, c, t)} | NameOk(n) && ClientOk(c) && TagOk(t) :: SameIndex(d, d', n, c, t)
  }

  /** Whatever leaves the subscriptions' paths alone keeps every answer about them, and every record. */
  lemma RecordsKeepSound(d: Store, d': Store)
    requires Sound(d) && Closed(d') && RecordsSame(d, d')
    ensures Sound(d') && SameSubscriptions(d, d')
    ensures Healthy(d) ==> Healthy(d')
  {
    assert !ClientOk("");
    hide RegistryOk, VarsFine, Closed, Obs, Subs, NameOk, PathOfVar, ObserversOk, RecordsSame, InternalSame,
         ObserversSame, RegistrySame, Index, HasIndex, ClientOk, TagOk, ClientsFine, SubsSameBut, ObservingSame,
         ListsSame, Agree;
    RecordsSameInternal(d, d');
    InternalSameRegistry(d, d');
    RegistryCarries(d, d');
    forall c ensures ObservingSame(d, d', c) {
      InternalSameObserving(d, d', c);
    }
    ClientsCarry(d, d', "");
    assert VarsFine(d') && ListsSame(d, d') by {
      RecordsVarsFine(d, d');
    }
    forall n, c, t | NameOk(n) && ClientOk(c) && TagOk(t) ensures SameIndex(d, d', n, c, t) {
      RecordsSameObservers(d, d', PathOfVar(n));
      IndexSame(d, d', PathOfVar(n), c, t);
    }
    if Healthy(d) {
      AgreeSame(d, d');
    }
  }

  /** Whatever leaves the bookkeeping alone keeps every answer and every record. */
  lemma WritesKeepSound(d: Store, d': Store)
    requires Sound(d) && Closed(d') && MetaSame(d, d')
    ensures Sound(d') && SameAnswers(d, d')
    ensures Healthy(d) ==> Healthy(d')
  {
    hide Sound, Closed, MetaSame, RecordsSame, Agree, ListsSame, SubsSameBut, IndexesSame, View, Healthy;
    MetaSameRecords(d, d');
    RecordsKeepSound(d, d');
    forall v ensures View(d', LockFlag(v)) == View(d, LockFlag(v)) {
      MetaSameLock(d, d', v);
    }
  }

  lemma MetaSameLock(d: Store, d': Store, v: Path)
    requires MetaSame(d, d')
    ensures View(d', LockFlag(v)) == View(d, LockFlag(v))
  {
    var p := PathOf(LockFlag(v));
    assert p[|v|] == "_lock" && p[|v|] in p && Hidden("_lock");
    assert SameAt(d, d', p);
  }

  lemma RecordsVarsFine(d: Store, d': Store)
    requires VarsFine(d) && RecordsSame(d, d')
    ensures VarsFine(d') && ListsSame(d, d')
  {
    hide Obs, NameOk, PathOfVar, ObserversOk, RecordsSame, ObserversSame;
    forall n | NameOk(n) ensures Obs(d', PathOfVar(n)) == Obs(d, PathOfVar(n)) && VarFine(d', n) {
      assert VarFine(d, n);
      RecordsSameObservers(d, d', PathOfVar(n));
      ObserversCarry(d, d', PathOfVar(n));
    }
  }

  /** Locking and unlocking keep every record and every subscription, and move no other variable's flag. */
  lemma FlagKeepsSound(d: Store, n: string, x: string)
    requires Sound(d) && NameOk(n)
    ensures var v, d' := PathOfVar(n), PutKey(d, LockFlag(PathOfVar(n)), x);
            && Sound(d') && SameSubscriptions(d, d') && (Healthy(d) ==> Healthy(d'))
            && forall v' :: View(d', LockFlag(v')) == if v' == v then x else View(d, LockFlag(v'))
  {
    var d' := PutKey(d, LockFlag(PathOfVar(n)), x);
    assert Closed(d);
    hide Sound, Healthy, Closed, PutKey, NameOk, PathOfVar, RecordsSame, ListsSame, SubsSameBut, IndexesSame, View;
    FlagSparesRecords(d, n, x);
    RecordsKeepSound(d, d');
    FlagViews(d, PathOfVar(n), x);
  }

  lemma LockKeepsSound(d: Store, n: string)
    requires Sound(d) && NameOk(n)
    ensures var d' := LockTried(d, PathOfVar(n));
            Sound(d') && SameSubscriptions(d, d') && (Healthy(d) ==> Healthy(d'))
    ensures forall v' | v' != PathOfVar(n) :: View(LockTried(d, PathOfVar(n)), LockFlag(v')) == View(d, LockFlag(v'))
  {
    SubscriptionsRefl(d);
    hide Sound, Healthy, PutKey, NameOk, PathOfVar, SameSubscriptions, Locked, View;
    FlagKeepsSound(d, n, "1");
  }

  lemma UnlockKeepsSound(d: Store, n: string)
    requires Sound(d) && NameOk(n)
    ensures var d' := Unlocked(d, PathOfVar(n));
            Sound(d') && SameSubscriptions(d, d') && (Healthy(d) ==> Healthy(d'))
    ensures forall v' | v' != PathOfVar(n) :: View(Unlocked(d, PathOfVar(n)), LockFlag(v')) == View(d, LockFlag(v'))
  {
    hide Sound, Healthy, PutKey, NameOk, PathOfVar, SameSubscriptions, View;
    FlagKeepsSound(d, n, "0");
  }

  lemma SubscriptionsRefl(d: Store)
    ensures SameSubscriptions(d, d)
  {
    hide Obs, Subs, NameOk, PathOfVar, Index, HasIndex;
  }

  // ---- runs of writes ----

  datatype SetVarCall = SetVarCall(name: string, value: string)

  /** Stores of a run in which every step is an accepted write. */
  ghost predicate WriteRun(ds: seq<Store>, calls: seq<SetVarCall>) {
    && |ds| == |calls| + 1
    && forall i | 0 <= i < |calls| ::
         !HasHiddenWord(calls[i].name) && ds[i + 1] == Written(ds[i], calls[i].name, calls[i].value)
  }

  /** However many writes are accepted, only client paths change value and every answer stays as it was. */
  lemma {:induction false} WriteRunSparesMeta(ds: seq<Store>, calls: seq<SetVarCall>, i: nat)
    requires WriteRun(ds, calls) && i < |ds| && Closed(ds[0])
    ensures Closed(ds[i]) && MetaSame(ds[0], ds[i]) && OnlyClientValues(ds[0], ds[i])
    ensures Sound(ds[0]) ==> Sound(ds[i]) && SameAnswers(ds[0], ds[i]) && (Healthy(ds[0]) ==> Healthy(ds[i]))
  {
    hide Healthy, Sound, SameAnswers, Written, HasHiddenWord, Closed;
    if i > 0 {
      var j := i - 1;
      WriteRunSparesMeta(ds, calls, j);
      WriteSparesMeta(ds[j], calls[j].name, calls[j].value);
      forall p | Meta(p) ensures SameAt(ds[0], ds[i], p) {
        assert SameAt(ds[0], ds[j], p) && SameAt(ds[j], ds[i], p);
      }
    }
    if Sound(ds[0]) {
      assert MetaSame(ds[0], ds[i]);
      WritesKeepSound(ds[0], ds[i]);
    }
  }

  // ---- restarts ----

  /** Every value as before, on no more nodes than before. */
  ghost predicate Shrunk(d: Store, d': Store) {
    SameValues(d, d') && forall p {:trigger p in d'} :: p in d' ==> p in d
  }

  lemma ShrunkViews(d: Store, d': Store)
    requires Shrunk(d, d')
    ensures forall k :: View(d', k) == View(d, k)
  {
    forall k ensures View(d', k) == View(d, k) {
      assert Val(d', PathOf(k)) == Val(d, PathOf(k));
    }
  }

  lemma ShrunkObservers(d: Store, d': Store, v: Path)
    requires Shrunk(d, d') && Closed(d') && VarOk(v) && ObserversOk(d, v)
    ensures ObserversOk(d', v) && Obs(d', v) == Obs(d, v)
    ensures forall c, t {:trigger HasIndex(d', v, c, t)} | ClientOk(c) && TagOk(t) ::
              HasIndex(d', v, c, t) <==> HasIndex(d, v, c, t)
    ensures Complete(d, v) ==> Complete(d', v)
  {
    ShrunkViews(d, d');
    hide View, Closed, VarOk, ClientOk, TagOk, SameValues, EntriesOk, LastIndex, PathOf, SlotPath;
    assert Obs(d', v) == Obs(d, v);
    forall i: nat | HasSlot(d', v, i) ensures HasSlot(d, v, i) {
    }
    forall c, t | ClientOk(c) && TagOk(t)
      ensures IndexTrue(d', v, c, t)
      ensures HasIndex(d', v, c, t) <==> HasIndex(d, v, c, t)
      ensures HasIndex(d', v, c, t) ==> Shown(d', v, c, t)
    {
      assert IndexTrue(d, v, c, t);
      if HasIndex(d, v, c, t) {
        var t' :| TagOk(t') && (t == "" || t' == t) && Index(d, v, c, t') != "";
        assert Index(d', v, c, t') != "";
        ShownIsThere(d', v, c, t, t');
      }
    }
  }

  lemma ShrunkRecord(d: Store, d': Store, c: string)
    requires Shrunk(d, d') && ClientFine(d, c)
    ensures ClientFine(d', c) && Subs(d', c) == Subs(d, c)
  {
    ShrunkViews(d, d');
    hide View, SameValues, NumeralBelow, Named, ObservingPath;
    assert Subs(d', c) == Subs(d, c) && SubsCount(d', c) == SubsCount(d, c);
    assert Flat(d', c);
    forall w | HasChild(d', c, w) ensures w == "count" || NumeralBelow(|Subs(d', c)|, w) {
      assert HasChild(d, c, w);
    }
    assert ChildrenOk(d', c, |Subs(d', c)|);
  }

  lemma ShrunkRegistry(d: Store, d': Store)
    requires Shrunk(d, d') && Closed(d') && RegistryOk(d)
    ensures RegistryOk(d') && Ids(d') == Ids(d)
  {
    ShrunkViews(d, d');
    forall c ensures c in Ids(d') <==> c in Ids(d) {
      IdsIn(d, c);
      IdsIn(d', c);
      if c in Ids(d) {
        assert Enlisted(d, c);
        IdOf(c);
        assert Val(d', IdPath(c)) != "";
      }
    }
    hide View, ClientOk, Ids;
    assert Ids(d') == Ids(d);
    forall c | c in Ids(d') ensures Enlisted(d', c) {
      assert Enlisted(d, c);
    }
    assert RegisteredCount(d') == RegisteredCount(d) == |Ids(d')|;
  }

  /** Losing only nodes without a value changes no answer. */
  lemma ShrinkingKeepsSound(d: Store, d': Store)
    requires Sound(d) && Closed(d') && Shrunk(d, d')
    ensures Sound(d') && SameAnswers(d, d')
  {
    ShrunkViews(d, d');
    hide RegistryOk, Closed, Obs, Subs, NameOk, PathOfVar, ObserversOk, Shrunk, Index, HasIndex, ClientOk, TagOk,
         ClientFine, View, Complete;
    ShrunkRegistry(d, d');
    forall n | NameOk(n) ensures VarFine(d', n) && Obs(d', PathOfVar(n)) == Obs(d, PathOfVar(n)) {
      assert VarFine(d, n);
      VarPathOk(n);
      ShrunkObservers(d, d', PathOfVar(n));
    }
    forall c | ClientOk(c) ensures ClientFine(d', c) && Subs(d', c) == Subs(d, c) {
      assert ClientFine(d, c);
      ShrunkRecord(d, d', c);
    }
    forall n, c, t | NameOk(n) && ClientOk(c) && TagOk(t) ensures SameIndex(d, d', n, c, t) {
      ShrunkIndex(d, d', n, c, t);
    }
  }

  lemma ShrunkIndex(d: Store, d': Store, n: string, c: string, t: string)
    requires VarsFine(d) && Closed(d') && Shrunk(d, d') && NameOk(n) && ClientOk(c) && TagOk(t)
    ensures SameIndex(d, d', n, c, t)
  {
    ShrunkViews(d, d');
    hide Closed, Obs, NameOk, PathOfVar, ObserversOk, Shrunk, HasIndex, ClientOk, TagOk, View, Complete;
    assert VarFine(d, n);
    VarPathOk(n);
    ShrunkObservers(d, d', PathOfVar(n));
  }

  lemma ReloadShrinks(d: Store, order: seq<Path>)
    requires Closed(d) && Visits(d, [], order) && DumpSafe(d)
    ensures Shrunk(d, Reloaded(d, order)) && Closed(Reloaded(d, order))
  {
    var d' := Reloaded(d, order);
    forall p ensures Val(d', p) == Val(d, p) && (p in d' ==> p in d) {
      ReloadedNode(d, order, p);
    }
    forall p | p in d' ensures Rooted(d', p) {
      ReloadedNode(d, order, p);
      assert Rooted(d, p);
      forall k | 1 <= k < |p| ensures p[..k] in d' {
        ReloadedPrefix(d, order, p, k);
      }
    }
  }

  lemma ReloadedNode(d: Store, order: seq<Path>, p: Path)
    requires Closed(d) && Visits(d, [], order) && DumpSafe(d)
    ensures Val(Reloaded(d, order), p) == Val(d, p)
    ensures p in Reloaded(d, order) ==> p in d
  {
    hide Reloaded, DumpSafe;
    SafeStoreReturns(d, order, p);
    if p in Reloaded(d, order) {
      var q :| q in order && p <= q;
      PrefixIn(d, q, p);
    }
  }

  lemma ReloadedPrefix(d: Store, order: seq<Path>, p: Path, k: nat)
    requires Closed(d) && Visits(d, [], order) && DumpSafe(d)
    requires p in Reloaded(d, order) && 1 <= k < |p|
    ensures p[..k] in Reloaded(d, order)
  {
    hide Reloaded, DumpSafe, Closed, Visits;
    SafeStoreReturns(d, order, p);
    SafeStoreReturns(d, order, p[..k]);
    var q :| q in order && p <= q;
    assert p[..k] <= p <= q;
  }

  /** A restart from a dump-safe state keeps every subscription, index answer, client list and lock. */
  lemma RestartKeepsAnswers(d: Store, order: seq<Path>)
    requires Sound(d) && Visits(d, [], order) && DumpSafe(d)
    ensures Sound(Reloaded(d, order)) && SameAnswers(d, Reloaded(d, order))
    ensures Healthy(d) ==> Healthy(Reloaded(d, order))
  {
    var d' := Reloaded(d, order);
    assert Closed(d);
    hide Reloaded, Sound, Visits, DumpSafe, Closed, Shrunk, Agree, ListsSame, SubsSameBut, IndexesSame, View;
    ReloadShrinks(d, order);
    ShrinkingKeepsSound(d, d');
    if Healthy(d) {
      AgreeSame(d, d');
    }
  }

  // ---- runs ----

  /** What can happen to the server's store: `DelVar` names the nodes a delete visits. */
  datatype Op =
    | Observe(n: string, e: Entry, apiId: Option<string>, now: string)
    | Stop(n: string, e: Entry, apiId: Option<string>, now: string)
    | Contact(c: string, apiId: Option<string>, now: string)
    | Seen(c: string, now: string)
    | Forget(c: string)
    | SetVar(n: string, v: string)
    | DelVar(ps: seq<Path>)
    | LockVar(n: string)
    | UnlockVar(n: string)
    | Restart

  /** A stop for a subscription that exists, or from a client with none on the variable. */
  predicate StopMatches(d: Store, n: string, e: Entry) {
    e in Obs(d, PathOfVar(n)) <==> Mentions(Obs(d, PathOfVar(n)), e.client)
  }

  /** What an operation does to the store; of deletes, those that spare the records of subscriptions. */
  ghost predicate Effect(d: Store, op: Op, d': Store) {
    match op
    case Observe(n, e, apiId, now) => NameOk(n) && EntryOk(e) && d' == Observed(d, n, e, apiId, now)
    case Stop(n, e, apiId, now) => NameOk(n) && EntryOk(e) && d' == Stopped(d, n, e, apiId, now)
    case Contact(c, apiId, now) => ClientOk(c) && d' == Initialized(d, c, apiId, now)
    case Seen(c, now) => ClientOk(c) && Has(d, RegPos(c)) && d' == PutKey(d, RegLive(c), now)
    case Forget(c) => ClientOk(c) && exists names :: Lists(names, Subs(d, c)) && d' == Deleted(d, c, names)
    case SetVar(n, v) => Acceptable(n) && d' == Written(d, n, v)
    case DelVar(ps) => RecordsSame(d, d') && d' == Cleared(d, ps)
    case LockVar(n) => NameOk(n) && d' == LockTried(d, PathOfVar(n))
    case UnlockVar(n) => NameOk(n) && d' == Unlocked(d, PathOfVar(n))
    case Restart => exists order :: Visits(d, [], order) && d' == Reloaded(d, order)
  }

  /** A restart whose dump the file format can carry. */
  ghost predicate SafeRestart(d: Store, op: Op) { op.Restart? ==> DumpSafe(d) }

  /** An operation, where clients only stop what they observe. */
  ghost predicate Step(d: Store, op: Op, d': Store) {
    Effect(d, op, d') && SafeRestart(d, op) && (op.Stop? ==> StopMatches(d, op.n, op.e))
  }

  lemma SeenKeepsSound(d: Store, c: string, now: string)
    requires Sound(d) && ClientOk(c) && Has(d, RegPos(c))
    ensures Sound(PutKey(d, RegLive(c), now)) && ListsSame(d, PutKey(d, RegLive(c), now))
    ensures Healthy(d) ==> Healthy(PutKey(d, RegLive(c), now))
  {
    var d' := PutKey(d, RegLive(c), now);
    hide PutKey, KeptBut, RegistryOk, VarsFine, ClientsFine, Closed, Obs, Subs, Has, RegistrySame;
    RecordKeysOk(c, 0);
    PutKept(d, RegLive(c), now, "");
    PutSubRegistry(d, RegLive(c), now);
    RegistryCarries(d, d');
    OneClientChanged(d, d', "");
    if Agree(d) {
      AgreeSame(d, d');
    }
  }

  predicate OnSubscriptions(op: Op) { op.Observe? || op.Stop? || op.Contact? || op.Seen? || op.Forget? }

  lemma SubscriptionOpKeepsSound(d: Store, op: Op, d': Store)
    requires Sound(d) && Effect(d, op, d') && OnSubscriptions(op)
    ensures Sound(d')
  {
    hide Sound, Obs, Subs, NameOk, PathOfVar, ClientOk, Initialized, Observed, Stopped, Deleted, Has, PutKey, Lists,
         HasIndex, Full, PurgedLists, Targets, DropLast, DropFirst, ListsSame, ListsSameBut, SubsSameBut;
    match op
    case Observe(n, e, apiId, now) => ObserveEffect(d, n, e, apiId, now);
    case Stop(n, e, apiId, now) => StopEffect(d, n, e, apiId, now);
    case Contact(c, apiId, now) => EnlistHalf(d, c, apiId, now);
    case Seen(c, now) => SeenKeepsSound(d, c, now);
    case Forget(c) =>
      var names :| Lists(names, Subs(d, c)) && d' == Deleted(d, c, names);
      DeleteEffect(d, c, names);
  }

  lemma VariableOpKeepsSound(d: Store, op: Op, d': Store)
    requires Sound(d) && Effect(d, op, d') && SafeRestart(d, op) && !OnSubscriptions(op)
    ensures Sound(d') && SameSubscriptions(d, d') && (Healthy(d) ==> Healthy(d'))
    ensures op.SetVar? || op.Restart? || (op.DelVar? && MetaSame(d, d')) ==> SameAnswers(d, d')
  {
    assert Closed(d);
    hide Sound, Healthy, NameOk, PathOfVar, Closed, MetaSame, RecordsSame, Visits, DumpSafe, Reloaded, SameSubscriptions, View,
         HasHiddenWord, LockTried, Unlocked, Written, Cleared;
    match op
    case SetVar(n, v) =>
      WriteSparesMeta(d, n, v);
      WritesKeepSound(d, d');
    case DelVar(ps) =>
      ClearedClosed(d, ps);
      RecordsKeepSound(d, d');
      if MetaSame(d, d') {
        WritesKeepSound(d, d');
      }
    case LockVar(n) => LockKeepsSound(d, n);
    case UnlockVar(n) => UnlockKeepsSound(d, n);
    case Restart =>
      var order :| Visits(d, [], order) && d' == Reloaded(d, order);
      RestartKeepsAnswers(d, order);
  }

  /** Whatever is stopped, each record stays well kept. */
  lemma EffectKeepsSound(d: Store, op: Op, d': Store)
    requires Sound(d) && Effect(d, op, d') && SafeRestart(d, op)
    ensures Sound(d')
    ensures !OnSubscriptions(op) ==> SameSubscriptions(d, d')
    ensures op.SetVar? || op.Restart? || (op.DelVar? && MetaSame(d, d')) ==> SameAnswers(d, d')
  {
    hide *;
    if OnSubscriptions(op) {
      SubscriptionOpKeepsSound(d, op, d');
      OnSubscriptionsIs(op);
    } else {
      VariableOpKeepsSound(d, op, d');
    }
  }

  lemma OnSubscriptionsIs(op: Op)
    ensures OnSubscriptions(op) <==> op.Observe? || op.Stop? || op.Contact? || op.Seen? || op.Forget?
  {
  }

  lemma StepKeepsHealthy(d: Store, op: Op, d': Store)
    requires Healthy(d) && Step(d, op, d')
    ensures Healthy(d')
    ensures op.Forget? ==> forall n | NameOk(n) :: !Mentions(Obs(d', PathOfVar(n)), op.c)
  {
    assert Sound(d);
    hide Healthy, Sound, Obs, Subs, NameOk, PathOfVar, ClientOk, Initialized, Observed, Stopped, Deleted, Has, PutKey,
         Lists, Mentions, SameSubscriptions, SameAnswers;
    if !OnSubscriptions(op) {
      VariableOpKeepsSound(d, op, d');
    } else {
      match op
      case Observe(n, e, apiId, now) => ObserveKeepsHealthy(d, n, e, apiId, now);
      case Stop(n, e, apiId, now) => StopAgreesExactly(d, n, e, apiId, now);
      case Contact(c, apiId, now) => HealthyInitialized(d, c, apiId, now);
      case Seen(c, now) => SeenKeepsSound(d, c, now);
      case Forget(c) =>
        var names :| Lists(names, Subs(d, c)) && d' == Deleted(d, c, names);
        DeleteLeavesNoOrphan(d, c, names);
    }
  }

  lemma EmptyIsSound()
    ensures Sound(EMPTY)
  {
    hide *;
    EmptyIsHealthy();
    HealthyIsSound(EMPTY);
  }

  lemma HealthyIsSound(d: Store)
    requires Healthy(d)
    ensures Sound(d)
  {
  }

  lemma EmptyIsHealthy()
    ensures Healthy(EMPTY)
  {
    assert Ids(EMPTY) == {};
    assert RegistryOk(EMPTY);
    forall n | NameOk(n) ensures VarFine(EMPTY, n) {
      assert Obs(EMPTY, PathOfVar(n)) == [];
    }
    forall c | ClientOk(c) ensures ClientFine(EMPTY, c) {
      assert Subs(EMPTY, c) == [];
    }
  }

  /** A run from an empty store; stops are of any kind. */
  ghost predicate AnyRun(ds: seq<Store>, ops: seq<Op>) {
    && |ds| == |ops| + 1 && ds[0] == EMPTY
    && forall i {:trigger Effect(ds[i], ops[i], ds[i + 1])} | 0 <= i < |ops| ::
         Effect(ds[i], ops[i], ds[i + 1]) && SafeRestart(ds[i], ops[i])
  }

  lemma {:induction false} AnyRunsStaySound(ds: seq<Store>, ops: seq<Op>, i: nat)
    requires AnyRun(ds, ops) && i < |ds|
    ensures Sound(ds[i])
  {
    hide Sound, Effect;
    if i == 0 {
      EmptyIsSound();
    } else {
      var j := i - 1;
      AnyRunsStaySound(ds, ops, j);
      assert Effect(ds[j], ops[j], ds[j + 1]);
      EffectKeepsSound(ds[j], ops[j], ds[j + 1]);
    }
  }

  /** In every reachable state an index entry names the last slot its client and tag are listed in. */
  lemma ReachableIndexTrue(ds: seq<Store>, ops: seq<Op>, i: nat, n: string, c: string, t: string)
    requires AnyRun(ds, ops) && i < |ds| && NameOk(n) && ClientOk(c) && TagOk(t)
    requires Index(ds[i], PathOfVar(n), c, t) != ""
    ensures var s, j := Obs(ds[i], PathOfVar(n)), GetInt(Index(ds[i], PathOfVar(n), c, t));
            0 <= j < |s| && s[j] == Entry(c, t) && forall m | j < m < |s| :: s[m] != Entry(c, t)
  {
    var d, v := ds[i], PathOfVar(n);
    AnyRunsStaySound(ds, ops, i);
    assert VarFine(d, n);
    assert IndexTrue(d, v, c, t);
    IndexTrueMeans(d, v, c, t);
  }

  /** A run in which clients only stop what they observe. */
  ghost predicate Run(ds: seq<Store>, ops: seq<Op>) {
    && |ds| == |ops| + 1 && ds[0] == EMPTY
    && forall i {:trigger Step(ds[i], ops[i], ds[i + 1])} | 0 <= i < |ops| :: Step(ds[i], ops[i], ds[i + 1])
  }

  /** In every reachable state the two records of every subscription agree. */
  lemma {:induction false} RunsStayHealthy(ds: seq<Store>, ops: seq<Op>, i: nat)
    requires Run(ds, ops) && i < |ds|
    ensures Healthy(ds[i])
  {
    hide Healthy, Step;
    if i == 0 {
      EmptyIsHealthy();
    } else {
      var j := i - 1;
      RunsStayHealthy(ds, ops, j);
      assert Step(ds[j], ops[j], ds[j + 1]);
      StepKeepsHealthy(ds[j], ops[j], ds[j + 1]);
    }
  }

  /** Whatever happened before, right after a client is removed no variable lists it. */
  lemma NoOrphans(ds: seq<Store>, ops: seq<Op>, i: nat, n: string)
    requires Run(ds, ops) && i < |ops| && ops[i].Forget? && NameOk(n)
    ensures !Mentions(Obs(ds[i + 1], PathOfVar(n)), ops[i].c)
  {
    hide Healthy, Mentions, Obs, NameOk, PathOfVar;
    RunsStayHealthy(ds, ops, i);
    assert Step(ds[i], ops[i], ds[i + 1]);
    StepKeepsHealthy(ds[i], ops[i], ds[i + 1]);
  }

  /** Counted out: a variable lists a client as often as the client lists the variable, under its full name. */
  lemma ReachableCountsAgree(ds: seq<Store>, ops: seq<Op>, i: nat, n: string, c: string)
    requires Run(ds, ops) && i < |ds| && NameOk(n) && ClientOk(c)
    ensures CountOf(Obs(ds[i], PathOfVar(n)), c) == multiset(Subs(ds[i], c))["vars." + n]
  {
    RunsStayHealthy(ds, ops, i);
    hide Sound, Obs, Subs, NameOk, ClientOk, PathOfVar, CountOf;
    assert AgreeOn(ds[i], n, c);
  }

  /** In every reachable state the client counter is the number of ids on record, and no listed name or client is malformed. */
  lemma ReachableRecords(ds: seq<Store>, ops: seq<Op>, i: nat, n: string, c: string)
    requires AnyRun(ds, ops) && i < |ds| && NameOk(n) && ClientOk(c)
    ensures RegisteredCount(ds[i]) == |Ids(ds[i])|
    ensures forall e | e in Obs(ds[i], PathOfVar(n)) :: e.client != "" && '.' !in e.client && '.' !in e.tag
    ensures forall x | x in Subs(ds[i], c) :: exists m :: NameOk(m) && x == "vars." + m
    ensures Count(ds[i], PathOfVar(n)) == |Obs(ds[i], PathOfVar(n))| && SubsCount(ds[i], c) == |Subs(ds[i], c)|
  {
    AnyRunsStaySound(ds, ops, i);
    var d := ds[i];
    assert VarFine(d, n) && ClientFine(d, c);
    hide Ids, View, PathOfVar, NameOk, ChildrenOk, Flat, Truthful;
    forall e | e in Obs(d, PathOfVar(n)) ensures EntryOk(e) {
    }
    forall x | x in Subs(d, c) ensures exists m :: NameOk(m) && x == "vars." + m {
      NamedIsFull(x);
      assert x == "vars." + x[5..];
    }
  }
}
