/** The part of the store the server keeps for itself, and the lock flags in it. */
module Bookkeeping {
  import opened FlatStore
  import opened Keys
  import opened Views
  import opened ObserverNodes
  import opened RegistryNodes
  import opened Subscriptions

  // ---- the paths clients cannot write ----

  predicate Hidden(w: string) { w != "" && w[0] == '_' }

  /** Bookkeeping: anything outside `vars`, and anything at or below a word that starts with an underscore. */
  predicate Meta(p: Path) { p != [] && (p[0] != "vars" || exists w :: w in p && Hidden(w)) }

  ghost predicate MetaSame(d: Store, d': Store) {
    forall p {:trigger SameAt(d, d', p)} | Meta(p) :: SameAt(d, d', p)
  }

  /** The subscriptions' share of it: the clients' records and everything below an `_observers`. */
  predicate OfRecords(p: Path) { p != [] && (p[0] != "vars" || "_observers" in p) }

  ghost predicate RecordsSame(d: Store, d': Store) {
    forall p {:trigger SameAt(d, d', p)} | OfRecords(p) :: SameAt(d, d', p)
  }

  lemma MetaSameRecords(d: Store, d': Store)
    requires MetaSame(d, d')
    ensures RecordsSame(d, d')
  {
    forall p | OfRecords(p) ensures SameAt(d, d', p) {
      assert Hidden("_observers");
    }
  }

  lemma RecordsSameObservers(d: Store, d': Store, v: Path)
    requires RecordsSame(d, d')
    ensures ObserversSame(d, d', v)
  {
    forall p | ObserversPath(v) <= p ensures SameAt(d, d', p) {
      assert p[|v|] == ObserversPath(v)[|v|] == "_observers";
      assert p[|v|] in p;
    }
  }

  lemma RecordsSameInternal(d: Store, d': Store)
    requires RecordsSame(d, d')
    ensures InternalSame(d, d')
  {
    forall p | p != [] && p[0] == "internal" ensures SameAt(d, d', p) {
      assert OfRecords(p);
    }
  }

  // ---- lock flags ----

  predicate Locked(d: Store, v: Path) { View(d, LockFlag(v)) != "0" && View(d, LockFlag(v)) != "" }

  /** One attempt: a variable that is not locked gets its flag. */
  function LockTried(d: Store, v: Path): Store { if Locked(d, v) then d else PutKey(d, LockFlag(v), "1") }

  function Unlocked(d: Store, v: Path): Store { PutKey(d, LockFlag(v), "0") }

  lemma FlagPath(v: Path)
    ensures PathOf(LockFlag(v)) == v + ["_lock"]
  {
  }

  /** Writing one flag changes what that flag says and no other. */
  lemma FlagViews(d: Store, v: Path, x: string)
    ensures forall v' :: View(PutKey(d, LockFlag(v), x), LockFlag(v')) == if v' == v then x else View(d, LockFlag(v'))
  {
    forall v' ensures View(PutKey(d, LockFlag(v), x), LockFlag(v')) == if v' == v then x else View(d, LockFlag(v')) {
      FlagPath(v);
      FlagPath(v');
      assert (v + ["_lock"])[..|v|] == v && (v' + ["_lock"])[..|v'|] == v';
    }
  }

  lemma OneIsLocked(d: Store, v: Path)
    ensures Locked(LockTried(d, v), v) && !Locked(Unlocked(d, v), v)
  {
    FlagViews(d, v, "1");
    FlagViews(d, v, "0");
  }

  /** A variable is locked exactly when its flag is there and holds something other than nothing and `0`. */
  lemma LockedExactly(d: Store, v: Path)
    ensures Locked(d, v) <==> v + ["_lock"] in d && d[v + ["_lock"]] != "" && d[v + ["_lock"]] != "0"
  {
    FlagPath(v);
  }

  /** A lock that succeeds writes `1`, one that does not writes nothing, an unlock writes `0`; no other value changes. */
  lemma FlagExactly(d: Store, v: Path, p: Path)
    ensures Val(LockTried(d, v), p) == if p == v + ["_lock"] && !Locked(d, v) then "1" else Val(d, p)
    ensures Val(Unlocked(d, v), p) == if p == v + ["_lock"] then "0" else Val(d, p)
    ensures Locked(d, v) ==> LockTried(d, v) == d
  {
    FlagPath(v);
    hide PathOf;
    PutVal(d, PathOf(LockFlag(v)), "1", p);
    PutVal(d, PathOf(LockFlag(v)), "0", p);
  }

  /** And touches no subscription. */
  lemma FlagSparesRecords(d: Store, n: string, x: string)
    requires Closed(d) && NameOk(n)
    ensures var d' := PutKey(d, LockFlag(PathOfVar(n)), x); Closed(d') && RecordsSame(d, d')
  {
    var v := PathOfVar(n);
    VarPathOk(n);
    var q, d' := v + ["_lock"], PutKey(d, LockFlag(v), x);
    FlagPath(v);
    assert q[0] == v[0] == "vars";
    forall w | w in q ensures '.' !in w && w != "_observers" {
      assert w in v || w == "_lock";
    }
    hide PathOfVar, NameOk;
    PutClosed(d, q, x);
    forall p | OfRecords(p) ensures SameAt(d, d', p) {
      PutVal(d, q, x, p);
      PutIn(d, q, x, p);
      if p <= q {
        assert forall w | w in p :: w in q;
      }
    }
  }
}
