/**
 Both records of every subscription, the variable's and the client's, over whole runs of the server.
 */
module Subscriptions {
  import opened Text
  import opened FlatStore
  import opened Keys
  import opened EntryLists
  import opened Observers
  import opened ObserverNodes
  import opened Registry
  import opened RegistryNodes
  import opened RegistryCount

  // ---- variable names ----

  function Full(n: string): string { "vars." + n }

  /** The full name a helper controls: names that already start with `vars.` are taken as they are. */
  function Controlled(n: string): string { if HasPrefix(n, "vars.") then n else Full(n) }

  function PathOfVar(n: string): Path { Split(Controlled(n), '.') }

  /** What a client is told it observes: the full name without its first five characters, if any are left. */
  function Strip(full: string): string {
    if |full| > 5 && HasPrefix(full, "vars.") then full[5..] else full
  }

  /** A name that starts with `vars.` is an alias of the name without it. */
  lemma Aliases(n: string)
    requires !HasPrefix(n, "vars.")
    ensures Controlled(n) == Controlled("vars." + n) == "vars." + n
  {
    assert ("vars." + n)[..5] == "vars.";
  }

  /** Clients are told names without `vars.`, unless nothing would be left. */
  lemma StripExactly(n: string, x: string)
    ensures Strip("vars." + n) == if n == "" then "vars." else n
    ensures !HasPrefix(x, "vars.") ==> Strip(x) == x
  {
    assert ("vars." + n)[..5] == "vars." && ("vars." + n)[5..] == n;
    if n == "" {
      assert "vars." + n == "vars.";
    }
  }

  /** A name that is not an alias and cannot reach into another variable's bookkeeping. */
  predicate NameOk(n: string) { !HasPrefix(n, "vars.") && "_observers" !in Split(n, '.') }

  lemma VarPathOk(n: string)
    requires NameOk(n)
    ensures PathOfVar(n) == ["vars"] + Split(n, '.') && VarOk(PathOfVar(n))
  {
    hide Split;
    SplitConcat("vars", n, '.');
    assert Full(n) == "vars" + ['.'] + n;
    WordPath("vars");
    SplitWords(n, '.');
  }

  lemma VarPathInjective(n: string, n': string)
    requires NameOk(n) && NameOk(n') && PathOfVar(n) == PathOfVar(n')
    ensures n == n'
  {
    hide Split;
    VarPathOk(n);
    VarPathOk(n');
    assert Split(n, '.') == PathOfVar(n)[1..];
    SplitInjective(n, n', '.');
  }

  lemma FullInjective(n: string, n': string)
    requires Full(n) == Full(n')
    ensures n == n'
  {
    assert Full(n)[5..] == n && Full(n')[5..] == n';
  }

  /** Removing a client finds each of its variables again. */
  lemma StripFinds(n: string)
    requires NameOk(n)
    ensures Controlled(Strip(Full(n))) == Full(n) == Controlled(n)
  {
    assert Full(n)[..5] == "vars.";
    assert Full(n)[5..] == n;
    if n == "" {
      assert Full(n) == "vars.";
    }
  }

  // ---- the invariant ----

  predicate Named(x: string) { HasPrefix(x, "vars.") && NameOk(x[5..]) }

  ghost predicate VarFine(d: Store, n: string) { ObserversOk(d, PathOfVar(n)) }

  ghost predicate ClientFine(d: Store, c: string) { RecordOk(d, c) && forall x | x in Subs(d, c) :: Named(x) }

  /** A client is listed at a variable as often as the variable is listed at the client. */
  predicate AgreeOn(d: Store, n: string, c: string) {
    CountOf(Obs(d, PathOfVar(n)), c) == multiset(Subs(d, c))[Full(n)]
  }

  ghost predicate VarsFine(d: Store) { forall n {:trigger VarFine(d, n)} | NameOk(n) :: VarFine(d, n) }

  ghost predicate ClientsFine(d: Store) { forall c {:trigger ClientFine(d, c)} | ClientOk(c) :: ClientFine(d, c) }

  ghost predicate Agree(d: Store) {
    forall n, c {:trigger AgreeOn(d, n, c)} | NameOk(n) && ClientOk(c) :: AgreeOn(d, n, c)
  }

  /** Each record is well kept by itself. */
  ghost predicate Sound(d: Store) { Closed(d) && RegistryOk(d) && VarsFine(d) && ClientsFine(d) }

  lemma SoundIsClosed(d: Store)
    requires Sound(d)
    ensures Closed(d)
  {
  }

  /** And the two records of every subscription agree. */
  ghost predicate Healthy(d: Store) { Sound(d) && Agree(d) }

  // ---- what one half of the store not changing means ----

  ghost predicate ListsSameBut(d: Store, d': Store, n: string) {
    forall n' {:trigger Obs(d', PathOfVar(n'))} | NameOk(n') && n' != n :: Obs(d', PathOfVar(n')) == Obs(d, PathOfVar(n'))
  }

  ghost predicate SubsSameBut(d: Store, d': Store, c: string) {
    forall c' {:trigger Subs(d', c')} | ClientOk(c') && c' != c :: Subs(d', c') == Subs(d, c')
  }

  lemma ClientsCarry(d: Store, d': Store, c: string)
    requires ClientsFine(d) && (ClientOk(c) ==> ClientFine(d', c))
    requires forall c' {:trigger ObservingSame(d, d', c')} | ClientOk(c') && c' != c :: ObservingSame(d, d', c')
    ensures ClientsFine(d') && SubsSameBut(d, d', c)
  {
    hide Subs, RecordOk, ClientOk, ObservingSame, Named;
    forall c' | ClientOk(c')
      ensures c' != c ==> Subs(d', c') == Subs(d, c')
      ensures ClientFine(d', c')
    {
      if c' != c {
        assert ClientFine(d, c');
        RecordCarries(d, d', c');
      }
    }
  }

  lemma VarsCarry(d: Store, d': Store)
    requires VarsFine(d) && VarsSame(d, d')
    ensures VarsFine(d')
    ensures forall n {:trigger Obs(d', PathOfVar(n))} | NameOk(n) :: Obs(d', PathOfVar(n)) == Obs(d, PathOfVar(n))
  {
    hide Obs, NameOk, ObserversOk, VarsSame, PathOfVar;
    forall n | NameOk(n)
      ensures Obs(d', PathOfVar(n)) == Obs(d, PathOfVar(n))
      ensures VarFine(d', n)
    {
      assert VarFine(d, n);
      VarPathOk(n);
      VarsSameObservers(d, d', PathOfVar(n));
      ObserversCarry(d, d', PathOfVar(n));
    }
  }

  /** An operation on one variable's observers. */
  lemma OneVarChanged(d: Store, d': Store, n: string)
    requires NameOk(n) && VarsFine(d) && ClientsFine(d) && RegistryOk(d)
    requires SameOutside(d, d', PathOfVar(n)) && VarFine(d', n)
    ensures VarsFine(d') && ClientsFine(d') && RegistryOk(d')
    ensures ListsSameBut(d, d', n) && SubsSameBut(d, d', "")
    ensures RegistrySame(d, d')
  {
    hide Obs, NameOk, ObserversOk, SameOutside, PathOfVar, RegistryOk, InternalSame, ClientsFine, RegistrySame,
         ObservingSame;
    VarPathOk(n);
    OutsideIsInternal(d, d', PathOfVar(n));
    InternalSameRegistry(d, d');
    RegistryCarries(d, d');
    forall c ensures ObservingSame(d, d', c) {
      InternalSameObserving(d, d', c);
    }
    ClientsCarry(d, d', "");
    forall n' | NameOk(n')
      ensures n' != n ==> Obs(d', PathOfVar(n')) == Obs(d, PathOfVar(n'))
      ensures VarFine(d', n')
    {
      if n' != n {
        assert VarFine(d, n');
        OtherListKept(d, d', n, n');
      }
    }
  }

  lemma OtherListKept(d: Store, d': Store, n: string, n': string)
    requires NameOk(n) && NameOk(n') && n != n' && SameOutside(d, d', PathOfVar(n))
    ensures Obs(d', PathOfVar(n')) == Obs(d, PathOfVar(n'))
    ensures VarFine(d, n') ==> VarFine(d', n')
  {
    hide Obs, NameOk, ObserversOk, SameOutside, PathOfVar, ObserversSame;
    VarPathOk(n);
    VarPathOk(n');
    if PathOfVar(n) == PathOfVar(n') {
      VarPathInjective(n, n');
    }
    OtherVariable(d, d', PathOfVar(n), PathOfVar(n'));
    ObserversCarry(d, d', PathOfVar(n'));
  }

  /** An operation on one client's list. */
  lemma OneClientChanged(d: Store, d': Store, c: string)
    requires VarsFine(d) && ClientsFine(d) && KeptBut(d, d', c) && (ClientOk(c) ==> ClientFine(d', c))
    ensures Closed(d') && VarsFine(d') && ClientsFine(d')
    ensures ListsSame(d, d') && SubsSameBut(d, d', c)
  {
    hide VarsFine, ClientsFine, VarsSame, ObservingSame, ClientFine, ClientOk, Closed, Obs, PathOfVar, NameOk, SubsSameBut;
    VarsCarry(d, d');
    ClientsCarry(d, d', c);
  }

  ghost predicate ListsSame(d: Store, d': Store) {
    forall n {:trigger Obs(d', PathOfVar(n))} | NameOk(n) :: Obs(d', PathOfVar(n)) == Obs(d, PathOfVar(n))
  }
}
