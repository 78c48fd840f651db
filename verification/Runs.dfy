/** Whole-server runs: what every step keeps, and what a removed client leaves behind. */
module Runs {
  import opened Options
  import opened Text
  import opened Decimal
  import opened FlatStore
  import opened Keys
  import opened Views
  import opened EntryLists
  import opened Observers
  import opened ObserverIndex
  import opened ObserverNodes
  import opened Registry
  import opened RegistryNodes
  import opened RegistryCount
  import opened Subscriptions

  // ---- the controller's operations on the store ----

  /** A client that is not observing yet is enlisted, added at the variable, then at its own list. */
  function Observed(d: Store, n: string, e: Entry, apiId: Option<string>, now: string): Store {
    if HasIndex(d, PathOfVar(n), e.client, e.tag) then d
    else Subscribed(Registered(Initialized(d, e.client, apiId, now), PathOfVar(n), e), e.client, Full(n), now)
  }

  function Stopped(d: Store, n: string, e: Entry, apiId: Option<string>, now: string): Store {
    Unsubscribed(Initialized(Removed(d, PathOfVar(n), e), e.client, apiId, now), e.client, Full(n), now)
  }

  /** Takes the client off every variable named. */
  function PurgedNames(d: Store, c: string, names: seq<string>): Store
    decreases |names|
  {
    if names == [] then d else PurgedNames(PurgedAll(d, PathOfVar(names[0]), c), c, names[1..])
  }

  /** The names a client's list yields, in whatever order its nodes are visited. */
  ghost predicate Lists(names: seq<string>, subs: seq<string>) {
    forall x :: x in names <==> exists y :: y in subs && x == Strip(y)
  }

  function Deleted(d: Store, c: string, names: seq<string>): Store { PurgedNames(Unregistered(d, c), c, names) }

  // ---- single operations keep the invariant ----

  lemma EnlistHalf(d: Store, c: string, apiId: Option<string>, now: string)
    requires Sound(d) && ClientOk(c)
    ensures var d' := Initialized(d, c, apiId, now);
            && Sound(d') && Has(d', RegPos(c))
            && ListsSame(d, d') && SubsSameBut(d, d', "")
  {
    var d' := Initialized(d, c, apiId, now);
    hide Initialized, KeptBut, RegistryOk, VarsFine, ClientsFine, Closed, Obs, Subs, Has;
    InitializeFrame(d, c, apiId, now);
    InitializeKeepsRegistry(d, c, apiId, now);
    OneClientChanged(d, d', "");
  }

  lemma HealthyInitialized(d: Store, c: string, apiId: Option<string>, now: string)
    requires Healthy(d) && ClientOk(c)
    ensures var d' := Initialized(d, c, apiId, now);
            Healthy(d') && Has(d', RegPos(c)) && ListsSame(d, d') && SubsSameBut(d, d', "")
  {
    hide Initialized, RegistryOk, VarsFine, ClientsFine, Closed, Obs, Subs, NameOk, PathOfVar, Has;
    EnlistHalf(d, c, apiId, now);
    AgreeSame(d, Initialized(d, c, apiId, now));
  }

  lemma AgreeSame(d: Store, d': Store)
    requires Agree(d) && ListsSame(d, d') && SubsSameBut(d, d', "")
    ensures Agree(d')
  {
    hide Obs, Subs, NameOk, PathOfVar;
    forall n, c | NameOk(n) && ClientOk(c) ensures AgreeOn(d', n, c) {
      assert AgreeOn(d, n, c);
    }
  }

  lemma FullIsNamed(n: string)
    requires NameOk(n)
    ensures Named(Full(n)) && Full(n) != ""
  {
    assert Full(n)[5..] == n && Full(n)[..5] == "vars.";
  }

  /** The variable's half of a subscription. */
  lemma RegisterHalf(d: Store, n: string, e: Entry)
    requires Sound(d) && NameOk(n) && EntryOk(e)
    ensures var d' := Registered(d, PathOfVar(n), e);
            && Sound(d') && RegistrySame(d, d')
            && ListsSameBut(d, d', n) && SubsSameBut(d, d', "")
            && Obs(d', PathOfVar(n)) == Obs(d, PathOfVar(n)) + [e]
  {
    var v, d' := PathOfVar(n), Registered(d, PathOfVar(n), e);
    VarPathOk(n);
    assert VarFine(d, n);
    hide Registered, RegistryOk, VarsFine, ClientsFine, Closed, Obs, Subs, NameOk, PathOfVar, ObserversOk, SameOutside,
         ListsSameBut, SubsSameBut, RegistrySame, VarOk, EntryOk;
    RegisteredFramed(d, v, e);
    RegisteredClosed(d, v, e);
    RegisterKeepsOk(d, v, e);
    RegisterAppends(d, v, e);
    OneVarChanged(d, d', n);
  }

  lemma RemoveHalf(d: Store, n: string, e: Entry)
    requires Sound(d) && NameOk(n) && EntryOk(e)
    ensures var d' := Removed(d, PathOfVar(n), e);
            && Sound(d') && RegistrySame(d, d')
            && ListsSameBut(d, d', n) && SubsSameBut(d, d', "")
            && Obs(d', PathOfVar(n)) == DropLast(Obs(d, PathOfVar(n)), e)
  {
    var v, d' := PathOfVar(n), Removed(d, PathOfVar(n), e);
    VarPathOk(n);
    assert VarFine(d, n);
    assert EntriesOk(Obs(d, v));
    hide Removed, RegistryOk, VarsFine, ClientsFine, Closed, Obs, Subs, NameOk, PathOfVar, ObserversOk, SameOutside,
         ListsSameBut, SubsSameBut, RegistrySame, VarOk, EntryOk, EntriesOk;
    RemovedFramed(d, v, e);
    RemoveKeepsOk(d, v, e);
    RemoveDropsLast(d, v, e);
    OneVarChanged(d, d', n);
  }

  lemma PurgeHalf(d: Store, n: string, c: string)
    requires Sound(d) && NameOk(n) && ClientOk(c)
    ensures var d' := PurgedAll(d, PathOfVar(n), c);
            && Sound(d') && RegistrySame(d, d')
            && ListsSameBut(d, d', n) && SubsSameBut(d, d', "")
            && Obs(d', PathOfVar(n)) == Without(Obs(d, PathOfVar(n)), c)
  {
    var v, d' := PathOfVar(n), PurgedAll(d, PathOfVar(n), c);
    VarPathOk(n);
    assert VarFine(d, n);
    assert EntriesOk(Obs(d, v));
    hide PurgedAll, RegistryOk, VarsFine, ClientsFine, Closed, Obs, Subs, NameOk, PathOfVar, ObserversOk, SameOutside,
         ListsSameBut, SubsSameBut, RegistrySame, VarOk, ClientOk, EntriesOk;
    PurgeKeepsOk(d, v, c);
    PurgeFilters(d, v, c);
    OneVarChanged(d, d', n);
  }

  /** The client's half. */
  lemma SubscribeHalf(d: Store, c: string, n: string, now: string)
    requires Sound(d)
    requires NameOk(n) && ClientOk(c) && Has(d, RegPos(c))
    ensures var d' := Subscribed(d, c, Full(n), now);
            && Sound(d')
            && ListsSame(d, d') && SubsSameBut(d, d', c)
            && Subs(d', c) == Subs(d, c) + [Full(n)]
  {
    var d' := Subscribed(d, c, Full(n), now);
    assert ClientFine(d, c);
    FullIsNamed(n);
    assert ClientFine(d', c) by {
      hide Subscribed, Closed, Obs, Subs, NameOk, RecordOk, Named, Full, ClientOk;
      SubscribeKeepsRecord(d, c, Full(n), now);
      SubscribeAppends(d, c, Full(n), now);
    }
    hide Subscribed, RegistryOk, VarsFine, ClientsFine, Closed, Obs, Subs, NameOk, RegistrySame, ClientFine,
         ListsSame, SubsSameBut, KeptBut, Has, ClientOk, Full;
    SubscribeFrame(d, c, Full(n), now);
    SubscribeAppends(d, c, Full(n), now);
    SubscribeRegistry(d, c, Full(n), now);
    RegistryCarries(d, d');
    OneClientChanged(d, d', c);
  }

  lemma UnsubscribeHalf(d: Store, c: string, n: string, now: string)
    requires Sound(d)
    requires NameOk(n) && ClientOk(c) && Has(d, RegPos(c))
    ensures var d' := Unsubscribed(d, c, Full(n), now);
            && Sound(d')
            && ListsSame(d, d') && SubsSameBut(d, d', c)
            && Subs(d', c) == DropFirst(Subs(d, c), Full(n))
  {
    var d' := Unsubscribed(d, c, Full(n), now);
    assert ClientFine(d, c);
    assert ClientFine(d', c) by {
      hide Unsubscribed, Closed, Obs, Subs, NameOk, RecordOk, Named, Full, ClientOk, FirstFrom;
      UnsubscribeKeepsRecord(d, c, Full(n), now);
      UnsubscribeDropsFirst(d, c, Full(n), now);
      DroppedAreOld(Subs(d, c), Full(n));
    }
    hide Unsubscribed, RegistryOk, VarsFine, ClientsFine, Closed, Obs, Subs, NameOk, RegistrySame, ClientFine,
         ListsSame, SubsSameBut, KeptBut, Has, ClientOk, Full;
    UnsubscribeFrame(d, c, Full(n), now);
    UnsubscribeDropsFirst(d, c, Full(n), now);
    UnsubscribeRegistry(d, c, Full(n), now);
    RegistryCarries(d, d');
    OneClientChanged(d, d', c);
  }

  lemma DroppedAreOld(s: seq<string>, x: string)
    ensures forall y | y in DropFirst(s, x) :: y in s
  {
  }

  // ---- observing ----

  /** Observing adds one entry at the variable and one at the client, or, if the index finds it, changes nothing. */
  lemma ObserveEffect(d: Store, n: string, e: Entry, apiId: Option<string>, now: string)
    requires Sound(d) && NameOk(n) && EntryOk(e)
    ensures var d' := Observed(d, n, e, apiId, now);
            Sound(d') && ListsSameBut(d, d', n) && SubsSameBut(d, d', e.client)
    ensures !HasIndex(d, PathOfVar(n), e.client, e.tag) ==>
              var d' := Observed(d, n, e, apiId, now);
              && Obs(d', PathOfVar(n)) == Obs(d, PathOfVar(n)) + [e]
              && Subs(d', e.client) == Subs(d, e.client) + [Full(n)]
  {
    var c := e.client;
    assert ClientOk(c);
    hide RegistryOk, VarsFine, ClientsFine, Closed, Obs, Subs, NameOk, PathOfVar, Full, ClientOk,
         Initialized, Registered, Subscribed, Has, HasIndex, RegistrySame, ListsSame, ListsSameBut, SubsSameBut;
    if HasIndex(d, PathOfVar(n), c, e.tag) {
      SameAsItself(d, n, c);
    } else {
      var d1 := Initialized(d, c, apiId, now);
      var d2 := Registered(d1, PathOfVar(n), e);
      var d3 := Subscribed(d2, c, Full(n), now);
      EnlistHalf(d, c, apiId, now);
      RegisterHalf(d1, n, e);
      HasCarries(d1, d2, c);
      SubscribeHalf(d2, c, n, now);
      ChainLists(d, d1, d2, d3, n, c);
    }
  }

  lemma SubscribeKeepsIndex(d: Store, v: Path, e: Entry, full: string, now: string)
    requires VarOk(v) && EntryOk(e)
    ensures Index(Subscribed(d, e.client, full, now), v, e.client, e.tag) == Index(d, v, e.client, e.tag)
  {
    hide View, Subscribed, KeyOk, Itoa;
    IndexKeyOk(v, e.client, e.tag);
    SubscribedViews(d, e.client, full, now);
  }

  lemma RegisterIndexes(d: Store, v: Path, e: Entry)
    requires VarOk(v) && EntryOk(e)
    ensures Index(Registered(d, v, e), v, e.client, e.tag) != ""
  {
    hide Index, Registered, Itoa, VarOk;
    RegisteredIndex(d, v, e, e.client, e.tag);
  }

  lemma ObservedIndex(d: Store, n: string, e: Entry, apiId: Option<string>, now: string)
    requires NameOk(n) && EntryOk(e) && !HasIndex(d, PathOfVar(n), e.client, e.tag)
    ensures Index(Observed(d, n, e, apiId, now), PathOfVar(n), e.client, e.tag) != ""
  {
    VarPathOk(n);
    hide NameOk, PathOfVar, Initialized, Registered, Subscribed, HasIndex, Index, VarOk, EntryOk, Full;
    var d1 := Initialized(d, e.client, apiId, now);
    RegisterIndexes(d1, PathOfVar(n), e);
    SubscribeKeepsIndex(Registered(d1, PathOfVar(n), e), PathOfVar(n), e, Full(n), now);
  }

  lemma ObservedIs(d: Store, n: string, e: Entry, apiId: Option<string>, now: string)
    requires !HasIndex(d, PathOfVar(n), e.client, e.tag)
    ensures Observed(d, n, e, apiId, now)
         == Subscribed(Registered(Initialized(d, e.client, apiId, now), PathOfVar(n), e), e.client, Full(n), now)
  {
  }

  lemma ObserveKeepsHealthy(d: Store, n: string, e: Entry, apiId: Option<string>, now: string)
    requires Healthy(d) && NameOk(n) && EntryOk(e)
    ensures Healthy(Observed(d, n, e, apiId, now))
  {
    hide Sound, Obs, Subs, NameOk, PathOfVar, Full, EntryOk, Agree, ListsSameBut, SubsSameBut, HasIndex,
         Initialized, Registered, Subscribed;
    ObserveEffect(d, n, e, apiId, now);
    if !HasIndex(d, PathOfVar(n), e.client, e.tag) {
      AgreeAfterObserve(d, Observed(d, n, e, apiId, now), n, e);
    }
  }

  lemma SameAsItself(d: Store, n: string, c: string)
    ensures ListsSameBut(d, d, n) && SubsSameBut(d, d, c)
  {
  }

  lemma HasCarries(d: Store, d': Store, c: string)
    requires ClientOk(c) && RegistrySame(d, d')
    ensures Has(d', RegPos(c)) <==> Has(d, RegPos(c))
  {
    hide Has, Ids;
    HasId(d, c);
    HasId(d', c);
  }

  lemma ChainLists(d: Store, d1: Store, d2: Store, d3: Store, n: string, c: string)
    requires NameOk(n) && ClientOk(c)
    requires ListsSame(d, d1) && ListsSameBut(d1, d2, n) && ListsSame(d2, d3)
    requires SubsSameBut(d, d1, "") && SubsSameBut(d1, d2, "") && SubsSameBut(d2, d3, c)
    ensures ListsSameBut(d, d3, n) && SubsSameBut(d, d3, c)
    ensures Obs(d1, PathOfVar(n)) == Obs(d, PathOfVar(n)) && Obs(d3, PathOfVar(n)) == Obs(d2, PathOfVar(n))
    ensures Subs(d2, c) == Subs(d, c)
  {
    hide Obs, Subs, PathOfVar, NameOk;
    forall n' | NameOk(n') && n' != n ensures Obs(d3, PathOfVar(n')) == Obs(d, PathOfVar(n')) {
      assert Obs(d1, PathOfVar(n')) == Obs(d, PathOfVar(n'));
      assert Obs(d2, PathOfVar(n')) == Obs(d1, PathOfVar(n'));
    }
    forall c' | ClientOk(c') && c' != c ensures Subs(d3, c') == Subs(d, c') {
      assert Subs(d1, c') == Subs(d, c');
      assert Subs(d2, c') == Subs(d1, c');
    }
    assert Subs(d1, c) == Subs(d, c);
  }

  lemma AgreeAfterObserve(d: Store, d': Store, n: string, e: Entry)
    requires Agree(d) && NameOk(n) && EntryOk(e)
    requires ListsSameBut(d, d', n) && SubsSameBut(d, d', e.client)
    requires Obs(d', PathOfVar(n)) == Obs(d, PathOfVar(n)) + [e]
    requires Subs(d', e.client) == Subs(d, e.client) + [Full(n)]
    ensures Agree(d')
  {
    hide Obs, Subs, NameOk, PathOfVar, Full;
    forall n', c | NameOk(n') && ClientOk(c) ensures AgreeOn(d', n', c) {
      assert AgreeOn(d, n', c);
      if n' == n {
        CountOfConcat(Obs(d, PathOfVar(n)), [e], c);
        CountOne(e, c);
      } else if Full(n') == Full(n) {
        FullInjective(n', n);
      }
    }
  }

  lemma CountOne(e: Entry, c: string)
    ensures CountOf([e], c) == if e.client == c then 1 else 0
  {
    assert [e][..0] == [];
  }

  // ---- stopping ----

  /** Stopping takes the last matching entry off the variable and the first matching one off the client. */
  lemma StopEffect(d: Store, n: string, e: Entry, apiId: Option<string>, now: string)
    requires Sound(d) && NameOk(n) && EntryOk(e)
    ensures var d' := Stopped(d, n, e, apiId, now);
            && Sound(d')
            && ListsSameBut(d, d', n) && SubsSameBut(d, d', e.client)
            && Obs(d', PathOfVar(n)) == DropLast(Obs(d, PathOfVar(n)), e)
            && Subs(d', e.client) == DropFirst(Subs(d, e.client), Full(n))
  {
    var c := e.client;
    assert ClientOk(c);
    hide RegistryOk, VarsFine, ClientsFine, Closed, Obs, Subs, NameOk, PathOfVar, Full, ClientOk, Agree,
         Initialized, Removed, Unsubscribed, Has, RegistrySame, ListsSame, ListsSameBut, SubsSameBut, DropLast, DropFirst;
    var d1 := Removed(d, PathOfVar(n), e);
    var d2 := Initialized(d1, c, apiId, now);
    var d3 := Unsubscribed(d2, c, Full(n), now);
    RemoveHalf(d, n, e);
    EnlistHalf(d1, c, apiId, now);
    UnsubscribeHalf(d2, c, n, now);
    ChainStop(d, d1, d2, d3, n, c);
  }

  lemma ChainStop(d: Store, d1: Store, d2: Store, d3: Store, n: string, c: string)
    requires NameOk(n) && ClientOk(c)
    requires ListsSameBut(d, d1, n) && ListsSame(d1, d2) && ListsSame(d2, d3)
    requires SubsSameBut(d, d1, "") && SubsSameBut(d1, d2, "") && SubsSameBut(d2, d3, c)
    ensures ListsSameBut(d, d3, n) && SubsSameBut(d, d3, c)
    ensures Obs(d3, PathOfVar(n)) == Obs(d1, PathOfVar(n)) && Subs(d2, c) == Subs(d, c)
  {
    hide Obs, Subs, PathOfVar, NameOk;
    forall n' | NameOk(n')
      ensures Obs(d3, PathOfVar(n')) == Obs(d1, PathOfVar(n'))
      ensures n' != n ==> Obs(d3, PathOfVar(n')) == Obs(d, PathOfVar(n'))
    {
      assert Obs(d2, PathOfVar(n')) == Obs(d1, PathOfVar(n'));
      assert n' != n ==> Obs(d1, PathOfVar(n')) == Obs(d, PathOfVar(n'));
    }
    forall c' | ClientOk(c') && c' != c ensures Subs(d3, c') == Subs(d, c') {
      assert Subs(d1, c') == Subs(d, c');
      assert Subs(d2, c') == Subs(d1, c');
    }
    assert Subs(d1, c) == Subs(d, c);
  }

  /**
   The two records still agree after a stop exactly when the stop was for a subscription that exists,
   or came from a client with none on the variable.
   */
  lemma StopAgreesExactly(d: Store, n: string, e: Entry, apiId: Option<string>, now: string)
    requires Healthy(d) && NameOk(n) && EntryOk(e)
    ensures Healthy(Stopped(d, n, e, apiId, now)) <==>
              (e in Obs(d, PathOfVar(n)) <==> Mentions(Obs(d, PathOfVar(n)), e.client))
  {
    var d' := Stopped(d, n, e, apiId, now);
    hide RegistryOk, VarsFine, ClientsFine, Closed, Obs, Subs, NameOk, PathOfVar, Full, Stopped, DropLast, DropFirst;
    StopEffect(d, n, e, apiId, now);
    forall n', c | NameOk(n') && ClientOk(c)
      ensures (n' != n || c != e.client) ==> AgreeOn(d', n', c)
    {
      if n' != n || c != e.client {
        AgreeElsewhere(d, d', n, e, n', c);
      }
    }
    AgreeHere(d, d', n, e);
  }

  lemma AgreeElsewhere(d: Store, d': Store, n: string, e: Entry, n': string, c: string)
    requires Agree(d) && NameOk(n) && EntryOk(e) && NameOk(n') && ClientOk(c) && (n' != n || c != e.client)
    requires ListsSameBut(d, d', n) && SubsSameBut(d, d', e.client)
    requires Obs(d', PathOfVar(n)) == DropLast(Obs(d, PathOfVar(n)), e)
    requires Subs(d', e.client) == DropFirst(Subs(d, e.client), Full(n))
    ensures AgreeOn(d', n', c)
  {
    hide Obs, Subs, NameOk, PathOfVar, Full, DropFirst, DropLast, CountOf;
    assert AgreeOn(d, n', c);
    DropLastCounts(Obs(d, PathOfVar(n)), e, c);
    DropFirstCounts(Subs(d, e.client), Full(n));
    if Full(n') == Full(n) {
      FullInjective(n', n);
    }
  }

  lemma AgreeHere(d: Store, d': Store, n: string, e: Entry)
    requires Agree(d) && NameOk(n) && EntryOk(e)
    requires Obs(d', PathOfVar(n)) == DropLast(Obs(d, PathOfVar(n)), e)
    requires Subs(d', e.client) == DropFirst(Subs(d, e.client), Full(n))
    ensures AgreeOn(d', n, e.client) <==>
              (e in Obs(d, PathOfVar(n)) <==> Mentions(Obs(d, PathOfVar(n)), e.client))
  {
    var s, c := Obs(d, PathOfVar(n)), e.client;
    assert ClientOk(c);
    assert AgreeOn(d, n, c);
    hide Obs, Subs, NameOk, PathOfVar, Full, DropFirst, DropLast, CountOf, Mentions;
    DropLastCounts(s, e, c);
    CountZero(s, c);
    if e in s {
      EntryIsMention(s, e);
    }
    DropFirstCounts(Subs(d, c), Full(n));
  }

  lemma EntryIsMention(s: seq<Entry>, e: Entry)
    requires e in s
    ensures Mentions(s, e.client)
  {
  }

  lemma StoppedIs(d: Store, n: string, e: Entry, apiId: Option<string>, now: string)
    ensures Stopped(d, n, e, apiId, now)
         == Unsubscribed(Initialized(Removed(d, PathOfVar(n), e), e.client, apiId, now), e.client, Full(n), now)
  {
  }

  // ---- removing a client ----

  /** Some name in the list leads to variable `n`. */
  predicate Targets(names: seq<string>, n: string) { exists x :: x in names && Controlled(x) == Full(n) }

  predicate Resolves(x: string) { HasPrefix(Controlled(x), "vars.") && NameOk(Controlled(x)[5..]) }

  lemma ResolvesTo(x: string) returns (n: string)
    requires Resolves(x)
    ensures NameOk(n) && Controlled(x) == Full(n) && PathOfVar(x) == PathOfVar(n)
  {
    n := Controlled(x)[5..];
    assert Controlled(x) == Controlled(x)[..5] + n;
  }

  ghost predicate PurgedLists(d: Store, d': Store, c: string, names: seq<string>) {
    forall n {:trigger Obs(d', PathOfVar(n))} | NameOk(n) ::
      Obs(d', PathOfVar(n)) == if Targets(names, n) then Without(Obs(d, PathOfVar(n)), c) else Obs(d, PathOfVar(n))
  }

  lemma {:induction false} PurgeNamesEffect(d: Store, c: string, names: seq<string>)
    requires Sound(d) && ClientOk(c)
    requires forall x | x in names :: Resolves(x)
    ensures var d' := PurgedNames(d, c, names);
            && Sound(d')
            && SubsSameBut(d, d', "") && PurgedLists(d, d', c, names) && RegistrySame(d, d')
    decreases |names|
  {
    hide RegistryOk, VarsFine, ClientsFine, Closed, Obs, Subs, NameOk, PathOfVar, Full, ClientOk, Controlled, Resolves,
         PurgedAll, RegistrySame, PurgedLists, SubsSameBut, ListsSameBut, Targets;
    if names == [] {
      NoTargets(d, c);
      RegistrySameRefl(d);
    } else {
      var n := ResolvesTo(names[0]);
      var d1 := PurgedAll(d, PathOfVar(names[0]), c);
      PurgeHalf(d, n, c);
      PurgeNamesEffect(d1, c, names[1..]);
      PurgeNamesStep(d, d1, PurgedNames(d1, c, names[1..]), c, names, n);
      RegistrySameTrans(d, d1, PurgedNames(d1, c, names[1..]));
    }
  }

  lemma NoTargets(d: Store, c: string)
    ensures PurgedLists(d, d, c, []) && SubsSameBut(d, d, "")
  {
  }

  lemma PurgeNamesStep(d: Store, d1: Store, d2: Store, c: string, names: seq<string>, n: string)
    requires names != [] && NameOk(n) && Controlled(names[0]) == Full(n)
    requires ListsSameBut(d, d1, n) && Obs(d1, PathOfVar(n)) == Without(Obs(d, PathOfVar(n)), c)
    requires SubsSameBut(d, d1, "") && SubsSameBut(d1, d2, "") && PurgedLists(d1, d2, c, names[1..])
    ensures PurgedLists(d, d2, c, names) && SubsSameBut(d, d2, "")
  {
    hide Obs, Subs, NameOk, PathOfVar, Full, Controlled, ClientOk;
    forall c' | ClientOk(c') && c' != "" ensures Subs(d2, c') == Subs(d, c') {
      assert Subs(d1, c') == Subs(d, c');
    }
    forall n' | NameOk(n')
      ensures Obs(d2, PathOfVar(n')) ==
              if Targets(names, n') then Without(Obs(d, PathOfVar(n')), c) else Obs(d, PathOfVar(n'))
    {
      TargetsStep(names, n');
      if n' == n {
        WithoutTwice(Obs(d, PathOfVar(n)), c);
        assert Targets(names, n);
      } else if Full(n') == Full(n) {
        FullInjective(n', n);
      } else {
        assert Obs(d1, PathOfVar(n')) == Obs(d, PathOfVar(n'));
      }
    }
  }

  lemma TargetsStep(names: seq<string>, n: string)
    requires names != []
    ensures Targets(names, n) <==> Controlled(names[0]) == Full(n) || Targets(names[1..], n)
  {
    hide Controlled, Full;
    assert forall x :: x in names <==> x == names[0] || x in names[1..];
  }

  lemma {:induction false} WithoutTwice(s: seq<Entry>, c: string)
    ensures Without(Without(s, c), c) == Without(s, c)
  {
    if s != [] {
      var n := |s| - 1;
      WithoutTwice(s[..n], c);
      var rest := Without(s[..n], c);
      assert (rest + [s[n]])[..|rest|] == rest;
    }
  }

  lemma UnregisterHalf(d: Store, c: string)
    requires Sound(d) && ClientOk(c)
    ensures var d' := Unregistered(d, c);
            && Sound(d')
            && ListsSame(d, d') && SubsSameBut(d, d', c) && Subs(d', c) == [] && !Has(d', RegPos(c))
  {
    var d' := Unregistered(d, c);
    assert ClientFine(d', c) by {
      hide Unregistered, Closed, Subs, RecordOk, Named, ClientOk;
      UnregisterEmpties(d, c);
    }
    hide Unregistered, RegistryOk, VarsFine, ClientsFine, Closed, Obs, Subs, ClientFine, ListsSame, SubsSameBut,
         KeptBut, Has, ClientOk, Ids;
    UnregisterFrame(d, c);
    UnregisterEmpties(d, c);
    UnregisterKeepsRegistry(d, c);
    OneClientChanged(d, d', c);
  }

  /** The names a healthy client's list yields all resolve, and reach every variable on it. */
  lemma ListedNamesResolve(d: Store, c: string, names: seq<string>)
    requires ClientFine(d, c) && Lists(names, Subs(d, c))
    ensures forall x | x in names :: Resolves(x)
    ensures forall n | NameOk(n) && Full(n) in Subs(d, c) :: Targets(names, n)
  {
    hide Subs, NameOk, Strip, Full, Controlled, RecordOk;
    forall x | x in names ensures Resolves(x) {
      var y :| y in Subs(d, c) && x == Strip(y);
      NamedResolves(y);
    }
    forall n | NameOk(n) && Full(n) in Subs(d, c) ensures Targets(names, n) {
      StripFinds(n);
      assert Strip(Full(n)) in names;
    }
  }

  lemma NamedResolves(y: string)
    requires Named(y)
    ensures Resolves(Strip(y))
  {
    var n := y[5..];
    assert y == y[..5] + n == Full(n);
    StripFinds(n);
    assert Full(n)[5..] == n;
  }

  lemma {:induction false} WithoutNone(s: seq<Entry>, c: string)
    requires !Mentions(s, c)
    ensures Without(s, c) == s
  {
    if s != [] {
      var n := |s| - 1;
      assert s[n] in s;
      assert forall e | e in s[..n] :: e in s;
      WithoutNone(s[..n], c);
      assert s == s[..n] + [s[n]];
    }
  }

  lemma DeletedList(d: Store, d': Store, n: string, c: string, names: seq<string>)
    requires Agree(d) && NameOk(n) && ClientOk(c) && PurgedLists(d, d', c, names)
    requires Full(n) in Subs(d, c) ==> Targets(names, n)
    ensures Obs(d', PathOfVar(n)) == Without(Obs(d, PathOfVar(n)), c)
    ensures !Mentions(Obs(d', PathOfVar(n)), c)
  {
    var s := Obs(d, PathOfVar(n));
    assert AgreeOn(d, n, c);
    hide Obs, Subs, NameOk, PathOfVar, Full, ClientOk, Targets, Mentions;
    CountZero(s, c);
    WithoutCounts(s, c, c);
    CountZero(Without(s, c), c);
    if !Targets(names, n) {
      WithoutNone(s, c);
    }
  }

  /** Removing a client purges it from every variable its list names, and touches no other list. */
  lemma DeleteEffect(d: Store, c: string, names: seq<string>)
    requires Sound(d) && ClientOk(c) && Lists(names, Subs(d, c))
    ensures var d' := Deleted(d, c, names);
            && Sound(d') && !Has(d', RegPos(c)) && Subs(d', c) == [] && SubsSameBut(d, d', c)
            && PurgedLists(d, d', c, names)
    ensures forall n | NameOk(n) && Full(n) in Subs(d, c) :: Targets(names, n)
  {
    var d1 := Unregistered(d, c);
    var d' := PurgedNames(d1, c, names);
    assert ClientFine(d, c);
    hide RegistryOk, VarsFine, ClientsFine, Closed, Obs, Subs, NameOk, PathOfVar, Full, ClientOk, Unregistered, PurgedNames,
         Has, Lists, Resolves, Targets, ClientFine, Ids;
    UnregisterHalf(d, c);
    ListedNamesResolve(d, c, names);
    PurgeNamesEffect(d1, c, names);
    HasCarries(d1, d', c);
    assert Subs(d', c) == Subs(d1, c) == [];
    forall c' | ClientOk(c') && c' != c ensures Subs(d', c') == Subs(d, c') {
      assert Subs(d', c') == Subs(d1, c');
    }
    forall n | NameOk(n)
      ensures Obs(d', PathOfVar(n)) ==
              if Targets(names, n) then Without(Obs(d, PathOfVar(n)), c) else Obs(d, PathOfVar(n))
    {
      assert Obs(d1, PathOfVar(n)) == Obs(d, PathOfVar(n));
    }
  }

  lemma UntargetedList(d: Store, c: string, names: seq<string>, n: string)
    requires ClientFine(d, c) && Lists(names, Subs(d, c)) && NameOk(n) && Full(n) !in Subs(d, c)
    ensures !Targets(names, n)
  {
    hide Subs, Strip, Full, Controlled, RecordOk;
    if Targets(names, n) {
      var x :| x in names && Controlled(x) == Full(n);
      var y :| y in Subs(d, c) && x == Strip(y);
      NamedIsFull(y);
      StripFinds(y[5..]);
      assert false;
    }
  }

  lemma NamedIsFull(y: string)
    requires Named(y)
    ensures y == Full(y[5..]) && NameOk(y[5..])
  {
    assert y == y[..5] + y[5..];
  }

  /** The client's entries go from the variables its own list names, and from no other. */
  ghost predicate PurgedSubs(d: Store, d': Store, c: string) {
    forall n {:trigger Obs(d', PathOfVar(n))} | NameOk(n) ::
      Obs(d', PathOfVar(n)) == if Full(n) in Subs(d, c) then Without(Obs(d, PathOfVar(n)), c) else Obs(d, PathOfVar(n))
  }

  lemma DeletePurges(d: Store, c: string, names: seq<string>)
    requires Sound(d) && ClientOk(c) && Lists(names, Subs(d, c))
    ensures PurgedSubs(d, Deleted(d, c, names), c)
  {
    assert ClientFine(d, c);
    hide Sound, Obs, Subs, NameOk, PathOfVar, Full, ClientOk, Deleted, Has, Lists, Targets, ClientFine;
    DeleteEffect(d, c, names);
    forall n | NameOk(n)
      ensures Obs(Deleted(d, c, names), PathOfVar(n)) ==
              if Full(n) in Subs(d, c) then Without(Obs(d, PathOfVar(n)), c) else Obs(d, PathOfVar(n))
    {
      if Full(n) !in Subs(d, c) {
        UntargetedList(d, c, names, n);
      }
    }
  }

  /** A removed client is left behind at exactly the variables that listed it without being on its own list. */
  lemma OrphansExactly(d: Store, c: string, names: seq<string>, n: string)
    requires Sound(d) && ClientOk(c) && Lists(names, Subs(d, c)) && NameOk(n)
    ensures Mentions(Obs(Deleted(d, c, names), PathOfVar(n)), c) <==>
              Mentions(Obs(d, PathOfVar(n)), c) && Full(n) !in Subs(d, c)
  {
    hide Sound, Obs, Subs, NameOk, PathOfVar, Full, ClientOk, Deleted, Lists, Mentions;
    DeletePurges(d, c, names);
    NoneLeft(Obs(d, PathOfVar(n)), c);
  }

  lemma NoneLeft(s: seq<Entry>, c: string)
    ensures !Mentions(Without(s, c), c)
  {
    WithoutCounts(s, c, c);
  }

  /** Removing a client takes it off every variable, and leaves everyone else's subscriptions as they were. */
  lemma DeleteLeavesNoOrphan(d: Store, c: string, names: seq<string>)
    requires Healthy(d) && ClientOk(c) && Lists(names, Subs(d, c))
    ensures var d' := Deleted(d, c, names);
            && Healthy(d') && !Has(d', RegPos(c)) && Subs(d', c) == [] && SubsSameBut(d, d', c)
    ensures forall n | NameOk(n) :: Obs(Deleted(d, c, names), PathOfVar(n)) == Without(Obs(d, PathOfVar(n)), c)
    ensures forall n | NameOk(n) :: !Mentions(Obs(Deleted(d, c, names), PathOfVar(n)), c)
  {
    var d' := Deleted(d, c, names);
    hide Sound, Obs, Subs, NameOk, PathOfVar, Full, ClientOk, Deleted, Has, Lists, Targets, Mentions;
    DeleteEffect(d, c, names);
    forall n | NameOk(n)
      ensures Obs(d', PathOfVar(n)) == Without(Obs(d, PathOfVar(n)), c)
      ensures !Mentions(Obs(d', PathOfVar(n)), c)
    {
      DeletedList(d, d', n, c, names);
    }
    forall n, c' | NameOk(n) && ClientOk(c') ensures AgreeOn(d', n, c') {
      assert AgreeOn(d, n, c');
      WithoutCounts(Obs(d, PathOfVar(n)), c, c');
      if c' != c {
        assert Subs(d', c') == Subs(d, c');
      }
    }
  }
}
