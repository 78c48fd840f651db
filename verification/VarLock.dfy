/**
 Variable locks on top of the named lock: every attempt and every unlock runs its few reads and writes of
 the flag inside one named lock, while other calls run between any two of those steps.
 */
module VarLock {
  import opened NamedLock

  const LOCKER := "varLockerSystem"

  /** How far a body has come: an attempt tests, sets and reads back the flag, an unlock clears it. */
  datatype Progress =
    | AtTest(v: string)
    | AtSet(v: string)
    | AtReread(v: string)
    | AtClear(v: string)
    | Over

  datatype Event = Locked(v: string, c: Call) | Unlocked(v: string, c: Call)

  /** `locked` holds the variables whose flag reads as locked; `log` the successes and unlocks so far. */
  datatype VarState = VarState(lock: State, locked: set<string>, work: map<Call, Progress>, log: seq<Event>)

  datatype Move =
    | Attempt(c: Call, v: string, made: Channel)
    | Unlock(c: Call, v: string, made: Channel)
    | Inner(c: Call)
    | Lock(t: Step)

  predicate InBody(s: VarState, c: Call) {
    c in s.work && c in s.lock.calls && s.lock.calls[c].Holding?
  }

  /** Bodies of other names are arbitrary, but none of them touches a flag; a body ends when its steps are over. */
  predicate Can(s: VarState, m: Move) {
    match m
    case Attempt(c, v, made) => Enabled(s.lock, Enter(c, LOCKER, false, made))
    case Unlock(c, v, made) => Enabled(s.lock, Enter(c, LOCKER, false, made))
    case Inner(c) => InBody(s, c) && !s.work[c].Over?
    case Lock(t) =>
      && Enabled(s.lock, t)
      && (t.Enter? ==> t.name != LOCKER)
      && (t.Finish? && t.c in s.work ==> s.work[t.c].Over?)
  }

  function Do(s: VarState, m: Move): VarState
    requires Can(s, m)
  {
    match m
    case Attempt(c, v, made) =>
      s.(lock := Apply(s.lock, Enter(c, LOCKER, false, made)), work := s.work[c := AtTest(v)])
    case Unlock(c, v, made) =>
      s.(lock := Apply(s.lock, Enter(c, LOCKER, false, made)), work := s.work[c := AtClear(v)])
    case Inner(c) => Body(s, c)
    case Lock(t) => s.(lock := Apply(s.lock, t), work := if t.PutBack? then s.work - {t.c} else s.work)
  }

  function Body(s: VarState, c: Call): VarState
    requires c in s.work && !s.work[c].Over?
  {
    match s.work[c]
    case AtTest(v) => s.(work := s.work[c := if v in s.locked then Over else AtSet(v)])
    case AtSet(v) => s.(locked := s.locked + {v}, work := s.work[c := AtReread(v)])
    case AtReread(v) =>
      s.(work := s.work[c := Over], log := if v in s.locked then s.log + [Locked(v, c)] else s.log)
    case AtClear(v) => s.(locked := s.locked - {v}, work := s.work[c := Over], log := s.log + [Unlocked(v, c)])
  }

  // ---- the invariant ----

  /** The last thing that happened to `v` was a successful lock. */
  predicate LastIsLock(log: seq<Event>, v: string) {
    log != [] && var e := log[|log| - 1]; if e.v == v then e.Locked? else LastIsLock(log[..|log| - 1], v)
  }

  predicate WorkFine(s: VarState, c: Call)
    requires c in s.work
  {
    && c in s.lock.calls
    && s.lock.calls[c].name == LOCKER
    && (s.lock.calls[c].Waiting? ==> !s.lock.calls[c].timed)
    && (s.work[c].AtSet? || s.work[c].AtReread? ==> s.lock.calls[c].Holding?)
    && (s.work[c].AtSet? ==> s.work[c].v !in s.locked)
    && (s.work[c].AtReread? ==> s.work[c].v in s.locked && !LastIsLock(s.log, s.work[c].v))
  }

  /** Between two successes on a variable there is an unlock of it. */
  predicate UnlockBetween(log: seq<Event>, i: nat, j: nat, v: string) {
    exists k :: i < k < j && k < |log| && log[k].Unlocked? && log[k].v == v
  }

  ghost predicate Alternates(log: seq<Event>) {
    forall i, j | 0 <= i < j < |log| && log[i].Locked? && log[j].Locked? && log[i].v == log[j].v ::
      UnlockBetween(log, i, j, log[i].v)
  }

  ghost predicate Safe(s: VarState) {
    && Inv(s.lock)
    && (forall c | c in s.work :: WorkFine(s, c))
    && (forall v | LastIsLock(s.log, v) :: v in s.locked)
    && Alternates(s.log)
  }

  /** If `v` was locked once and that is not the last thing that happened to it, it was unlocked since. */
  lemma {:induction false} UnlockedSince(log: seq<Event>, i: nat, v: string)
    requires i < |log| && log[i].Locked? && log[i].v == v && !LastIsLock(log, v)
    ensures UnlockBetween(log, i, |log|, v)
  {
    var n := |log| - 1;
    if log[n].v == v {
      assert log[n].Unlocked?;
    } else {
      UnlockedSince(log[..n], i, v);
      var k :| i < k < n && log[..n][k].Unlocked? && log[..n][k].v == v;
      assert log[k].Unlocked? && log[k].v == v;
    }
  }

  lemma LogStep(log: seq<Event>, e: Event)
    requires Alternates(log) && (e.Locked? ==> !LastIsLock(log, e.v))
    ensures Alternates(log + [e])
    ensures forall v :: LastIsLock(log + [e], v) == if v == e.v then e.Locked? else LastIsLock(log, v)
  {
    var log' := log + [e];
    var n := |log|;
    assert log'[..n] == log;
    hide LastIsLock;
    forall i, j | 0 <= i < j < |log'| && log'[i].Locked? && log'[j].Locked? && log'[i].v == log'[j].v
      ensures UnlockBetween(log', i, j, log'[i].v)
    {
      if j == n {
        UnlockedSince(log, i, e.v);
      } else {
        assert UnlockBetween(log, i, j, log[i].v);
      }
      var k :| i < k < j && k < n && log[k].Unlocked? && log[k].v == log'[i].v;
      assert log'[k] == log[k];
    }
    forall v ensures LastIsLock(log', v) == if v == e.v then e.Locked? else LastIsLock(log, v) {
      LastOfLonger(log, e, v);
    }
  }

  lemma LastOfLonger(log: seq<Event>, e: Event, v: string)
    ensures LastIsLock(log + [e], v) == if v == e.v then e.Locked? else LastIsLock(log, v)
  {
    assert (log + [e])[..|log|] == log;
  }

  /** A step of one body happens while no other body of the locker is under way. */
  lemma AloneInBody(s: VarState, c: Call, x: Call)
    requires Safe(s) && InBody(s, c) && x in s.work && x != c
    ensures !s.lock.calls[x].Holding? && !s.work[x].AtSet? && !s.work[x].AtReread?
  {
    assert WorkFine(s, x) && WorkFine(s, c);
    if s.lock.calls[x].Holding? {
      OneHolder(s.lock, c, x);
    }
  }

  lemma BodyKeepsSafe(s: VarState, c: Call)
    requires Safe(s) && Can(s, Inner(c))
    ensures Safe(Body(s, c))
    ensures s.work[c].AtReread? ==> Body(s, c).log == s.log + [Locked(s.work[c].v, c)]
  {
    var s' := Body(s, c);
    assert WorkFine(s, c);
    hide LastIsLock, Alternates, Inv;
    var v := s.work[c].v;
    if s.work[c].AtReread? {
      LogStep(s.log, Locked(v, c));
    } else if s.work[c].AtClear? {
      LogStep(s.log, Unlocked(v, c));
    }
    forall x | x in s'.work ensures WorkFine(s', x) {
      if x != c {
        AloneInBody(s, c, x);
        assert WorkFine(s, x);
      }
    }
  }

  lemma LockKeepsSafe(s: VarState, t: Step)
    requires Safe(s) && Can(s, Lock(t))
    ensures Safe(Do(s, Lock(t)))
  {
    var s' := Do(s, Lock(t));
    StepKeepsInv(s.lock, t);
    forall x | x in s.work ensures OnItsChannel(s.lock, x) {
      assert WorkFine(s, x);
    }
    hide LastIsLock, Alternates, Inv, Apply, Enabled, WorkFine;
    forall x | x in s'.work ensures WorkFine(s', x) {
      LockKeepsWork(s, t, x);
    }
  }

  lemma LockKeepsWork(s: VarState, t: Step, x: Call)
    requires Can(s, Lock(t)) && x in Do(s, Lock(t)).work && WorkFine(s, x) && OnItsChannel(s.lock, x)
    ensures WorkFine(Do(s, Lock(t)), x)
  {
    hide LastIsLock;
  }

  lemma EnterKeepsSafe(s: VarState, c: Call, w: Progress, made: Channel)
    requires Safe(s) && Enabled(s.lock, Enter(c, LOCKER, false, made)) && (w.AtTest? || w.AtClear?)
    ensures Safe(s.(lock := Apply(s.lock, Enter(c, LOCKER, false, made)), work := s.work[c := w]))
  {
    var s' := s.(lock := Apply(s.lock, Enter(c, LOCKER, false, made)), work := s.work[c := w]);
    StepKeepsInv(s.lock, Enter(c, LOCKER, false, made));
    hide LastIsLock, Alternates, Inv;
    forall x | x in s'.work ensures WorkFine(s', x) {
      if x != c {
        assert WorkFine(s, x);
      }
    }
  }

  lemma MoveKeepsSafe(s: VarState, m: Move)
    requires Safe(s) && Can(s, m)
    ensures Safe(Do(s, m))
  {
    hide Safe;
    match m
    case Attempt(c, v, made) => EnterKeepsSafe(s, c, AtTest(v), made);
    case Unlock(c, v, made) => EnterKeepsSafe(s, c, AtClear(v), made);
    case Inner(c) => BodyKeepsSafe(s, c);
    case Lock(t) => LockKeepsSafe(s, t);
  }

  // ---- every interleaving ----

  /** A run may start with any flags set, as after a restart. */
  ghost predicate VarRun(ss: seq<VarState>, ms: seq<Move>) {
    && |ss| == |ms| + 1
    && ss[0].lock == Start() && ss[0].work == map[] && ss[0].log == []
    && forall i | 0 <= i < |ms| :: Can(ss[i], ms[i]) && ss[i + 1] == Do(ss[i], ms[i])
  }

  lemma {:induction false} VarRunSafe(ss: seq<VarState>, ms: seq<Move>, i: nat)
    requires VarRun(ss, ms) && i < |ss|
    ensures Safe(ss[i])
  {
    if i == 0 {
      StartInv();
    } else {
      hide Safe, Do, Can;
      VarRunSafe(ss, ms, i - 1);
      MoveKeepsSafe(ss[i - 1], ms[i - 1]);
    }
  }

  /** In every interleaving, an unlock of the variable lies between any two successful locks of it. */
  lemma LocksExclude(ss: seq<VarState>, ms: seq<Move>, n: nat, i: nat, j: nat)
    requires VarRun(ss, ms) && n < |ss| && i < j < |ss[n].log|
    requires ss[n].log[i].Locked? && ss[n].log[j].Locked? && ss[n].log[i].v == ss[n].log[j].v
    ensures exists k :: i < k < j && ss[n].log[k].Unlocked? && ss[n].log[k].v == ss[n].log[i].v
  {
    VarRunSafe(ss, ms, n);
    var log := ss[n].log;
    assert UnlockBetween(log, i, j, log[i].v);
    var k :| i < k < j && k < |log| && log[k].Unlocked? && log[k].v == log[i].v;
    assert ss[n].log[k].Unlocked?;
  }

  /** An attempt that found the flag clear reads its own write back: it succeeds. */
  lemma RereadSucceeds(ss: seq<VarState>, ms: seq<Move>, i: nat)
    requires VarRun(ss, ms) && i < |ms| && ms[i].Inner? && Can(ss[i], ms[i]) && ss[i].work[ms[i].c].AtReread?
    ensures ss[i + 1].log == ss[i].log + [Locked(ss[i].work[ms[i].c].v, ms[i].c)]
  {
    VarRunSafe(ss, ms, i);
    BodyKeepsSafe(ss[i], ms[i].c);
  }

  // ---- what the flag says, from what happened ----

  /** Event `k` is the last thing that happened to `v`. */
  predicate LastThing(log: seq<Event>, v: string, k: nat) {
    k < |log| && log[k].v == v && forall j | k < j < |log| :: log[j].v != v
  }

  predicate Untouched(log: seq<Event>, v: string) { forall j | 0 <= j < |log| :: log[j].v != v }

  /** Somebody has set the flag of `v` and not yet read it back. */
  predicate BeingLocked(s: VarState, v: string) { exists c :: c in s.work && s.work[c] == AtReread(v) }

  lemma {:induction false} LastIsLockExactly(log: seq<Event>, v: string)
    ensures LastIsLock(log, v) <==> exists k :: 0 <= k < |log| && LastThing(log, v, k) && log[k].Locked?
    ensures Untouched(log, v) ==> !LastIsLock(log, v)
  {
    if log != [] {
      var n := |log| - 1;
      LastIsLockExactly(log[..n], v);
      if log[n].v == v {
        assert LastThing(log, v, n);
      } else {
        forall k | 0 <= k < n ensures LastThing(log, v, k) <==> LastThing(log[..n], v, k) {
          assert forall j | k < j < n :: log[..n][j] == log[j];
        }
        assert !LastThing(log, v, n);
        if LastIsLock(log[..n], v) {
          var k :| 0 <= k < n && LastThing(log[..n], v, k) && log[..n][k].Locked?;
          assert LastThing(log, v, k) && log[k].Locked?;
        }
      }
    }
  }

  /** The flag reads as locked exactly when the log, or the start, or a lock under way says so. */
  predicate FlagTold(s: VarState, start: set<string>, v: string) {
    v in s.locked <==> LastIsLock(s.log, v) || (v in start && Untouched(s.log, v)) || BeingLocked(s, v)
  }

  lemma UntouchedAfter(log: seq<Event>, e: Event, v: string)
    ensures Untouched(log + [e], v) <==> Untouched(log, v) && e.v != v
  {
    assert (log + [e])[|log|] == e;
    assert forall j | 0 <= j < |log| :: (log + [e])[j] == log[j];
  }

  lemma BeingLockedByMe(s: VarState, c: Call, v: string)
    requires c in s.work && forall x | x in s.work && x != c :: !s.work[x].AtReread?
    ensures BeingLocked(s, v) <==> s.work[c] == AtReread(v)
  {
  }

  lemma OthersNotRereading(s: VarState, c: Call)
    requires Safe(s) && InBody(s, c)
    ensures forall x | x in s.work && x != c :: !s.work[x].AtReread?
  {
    forall x | x in s.work && x != c ensures !s.work[x].AtReread? {
      AloneInBody(s, c, x);
    }
  }

  lemma BodyKeepsFlag(s: VarState, c: Call, start: set<string>, v: string)
    requires Safe(s) && Can(s, Inner(c)) && FlagTold(s, start, v)
    ensures FlagTold(Body(s, c), start, v)
  {
    var s' := Body(s, c);
    var w := s.work[c].v;
    assert WorkFine(s, c);
    OthersNotRereading(s, c);
    BeingLockedByMe(s, c, v);
    BeingLockedByMe(s', c, v);
    hide Safe, LastIsLock, Untouched, BeingLocked;
    LastOfLonger(s.log, Locked(w, c), v);
    UntouchedAfter(s.log, Locked(w, c), v);
    LastOfLonger(s.log, Unlocked(w, c), v);
    UntouchedAfter(s.log, Unlocked(w, c), v);
  }

  lemma MoveKeepsFlag(s: VarState, m: Move, start: set<string>, v: string)
    requires Safe(s) && Can(s, m) && FlagTold(s, start, v)
    ensures FlagTold(Do(s, m), start, v)
  {
    if m.Inner? {
      BodyKeepsFlag(s, m.c, start, v);
    } else {
      var s' := Do(s, m);
      assert s'.log == s.log && s'.locked == s.locked;
      forall c | c in s.work ensures s.work[c].AtReread? ==> c in s'.work && s'.work[c] == s.work[c] {
        assert WorkFine(s, c);
      }
      assert forall c | c in s'.work && s'.work[c].AtReread? :: c in s.work && s.work[c] == s'.work[c];
    }
  }

  lemma {:induction false} RunTellsFlag(ss: seq<VarState>, ms: seq<Move>, n: nat, v: string)
    requires VarRun(ss, ms) && n < |ss|
    ensures FlagTold(ss[n], ss[0].locked, v)
  {
    if n > 0 {
      hide Safe, Do, Can, FlagTold;
      RunTellsFlag(ss, ms, n - 1, v);
      VarRunSafe(ss, ms, n - 1);
      MoveKeepsFlag(ss[n - 1], ms[n - 1], ss[0].locked, v);
    }
  }

  /**
   In every interleaving a variable's flag reads as locked exactly when the last thing that happened to it was
   a lock, or it started out locked and nothing happened to it, or a lock of it is between its set and its re-read.
   */
  lemma FlagExactly(ss: seq<VarState>, ms: seq<Move>, n: nat, v: string)
    requires VarRun(ss, ms) && n < |ss|
    ensures var log := ss[n].log;
            v in ss[n].locked <==>
              || (exists k :: 0 <= k < |log| && LastThing(log, v, k) && log[k].Locked?)
              || (v in ss[0].locked && forall j | 0 <= j < |log| :: log[j].v != v)
              || exists c :: c in ss[n].work && ss[n].work[c] == AtReread(v)
  {
    RunTellsFlag(ss, ms, n, v);
    LastIsLockExactly(ss[n].log, v);
    hide LastIsLock;
  }

  // ---- how an attempt ends ----

  /** A success of the call `c` among the events from number `from` on. */
  predicate SucceededSince(log: seq<Event>, from: nat, c: Call, v: string) {
    exists k :: from <= k < |log| && log[k] == Locked(v, c)
  }

  /** Where an attempt can be after its test: given up, or on its way, or through. */
  predicate OnCourse(s: VarState, from: nat, c: Call, v: string, found: bool) {
    && c in s.work && from <= |s.log|
    && if found then s.work[c].Over? && !SucceededSince(s.log, from, c, v)
       else if s.work[c].Over? then SucceededSince(s.log, from, c, v)
       else s.work[c] in {AtSet(v), AtReread(v)} && !SucceededSince(s.log, from, c, v)
  }

  /** A move of another call neither moves this one along nor logs a success of it. */
  lemma OtherMove(s: VarState, m: Move, c: Call)
    requires Safe(s) && Can(s, m) && m != Inner(c) && c in s.work && c in Do(s, m).work
    ensures Do(s, m).work[c] == s.work[c]
    ensures Do(s, m).log == s.log || exists e: Event :: e.c != c && Do(s, m).log == s.log + [e]
  {
    assert WorkFine(s, c);
    hide Inv, Alternates, LastIsLock, Apply;
  }

  lemma SinceAfter(log: seq<Event>, e: Event, from: nat, c: Call, v: string)
    requires from <= |log|
    ensures SucceededSince(log + [e], from, c, v) <==> SucceededSince(log, from, c, v) || e == Locked(v, c)
  {
    assert (log + [e])[|log|] == e;
    assert forall k | 0 <= k < |log| :: (log + [e])[k] == log[k];
  }

  lemma CourseStep(s: VarState, m: Move, from: nat, c: Call, v: string, found: bool)
    requires Safe(s) && Can(s, m) && OnCourse(s, from, c, v, found) && c in Do(s, m).work
    ensures OnCourse(Do(s, m), from, c, v, found)
  {
    if m == Inner(c) {
      BodyKeepsSafe(s, c);
      hide Safe;
      SinceAfter(s.log, Locked(v, c), from, c, v);
    } else {
      OtherMove(s, m, c);
      hide Do, Can, Safe;
      if Do(s, m).log != s.log {
        var e: Event :| e.c != c && Do(s, m).log == s.log + [e];
        SinceAfter(s.log, e, from, c, v);
      }
    }
  }

  lemma RunStep(ss: seq<VarState>, ms: seq<Move>, i: nat)
    requires VarRun(ss, ms) && i < |ms|
    ensures |ss| == |ms| + 1 && Can(ss[i], ms[i]) && ss[i + 1] == Do(ss[i], ms[i])
  {
  }

  lemma {:induction false} CourseKept(
    ss: seq<VarState>, ms: seq<Move>, i: nat, j: nat, from: nat, c: Call, v: string, found: bool)
    requires VarRun(ss, ms) && i <= j < |ss| && j <= |ms| && OnCourse(ss[i], from, c, v, found)
    requires forall k | i <= k <= j :: c in ss[k].work
    ensures OnCourse(ss[j], from, c, v, found)
    decreases j
  {
    hide *;
    if i < j {
      CourseKept(ss, ms, i, j - 1, from, c, v, found);
      VarRunSafe(ss, ms, j - 1);
      RunStep(ss, ms, j - 1);
      CourseStep(ss[j - 1], ms[j - 1], from, c, v, found);
    }
  }

  /**
   An attempt that has come to its end has succeeded exactly when its test found the variable free: when the
   last thing that had happened to it was no lock, and it had not started out locked with nothing happening since.
   */
  lemma AttemptSucceedsExactly(ss: seq<VarState>, ms: seq<Move>, i: nat, j: nat, c: Call, v: string)
    requires VarRun(ss, ms) && i < j < |ss| && ms[i] == Inner(c) && c in ss[i].work && ss[i].work[c] == AtTest(v)
    requires (forall k | i <= k <= j :: c in ss[k].work) && ss[j].work[c].Over?
    ensures var log := ss[i].log;
            (exists k :: |log| <= k < |ss[j].log| && ss[j].log[k] == Locked(v, c)) <==>
              && (forall k | 0 <= k < |log| && LastThing(log, v, k) :: log[k].Unlocked?)
              && (v in ss[0].locked ==> exists k :: 0 <= k < |log| && LastThing(log, v, k))
  {
    var log := ss[i].log;
    VarRunSafe(ss, ms, i);
    RunTellsFlag(ss, ms, i, v);
    LastIsLockExactly(log, v);
    SomeLastThing(log, v);
    NobodyBetween(ss[i], c, v);
    var found := v in ss[i].locked;
    assert Can(ss[i], ms[i]) && ss[i + 1] == Do(ss[i], ms[i]);
    assert OnCourse(ss[i + 1], |log|, c, v, found);
    hide Safe, Can, Do, LastIsLock;
    CourseKept(ss, ms, i + 1, j, |log|, c, v, found);
  }

  lemma {:induction false} SomeLastThing(log: seq<Event>, v: string)
    ensures Untouched(log, v) <==> !exists k :: 0 <= k < |log| && LastThing(log, v, k)
  {
    if log != [] {
      var n := |log| - 1;
      SomeLastThing(log[..n], v);
      if log[n].v == v {
        assert LastThing(log, v, n);
      } else {
        forall k | 0 <= k < n ensures LastThing(log, v, k) <==> LastThing(log[..n], v, k) {
          assert forall j | k < j < n :: log[..n][j] == log[j];
        }
        assert !LastThing(log, v, n);
        assert Untouched(log, v) <==> Untouched(log[..n], v);
      }
    }
  }

  /** While one attempt tests, no other is between its set and its re-read. */
  lemma NobodyBetween(s: VarState, c: Call, v: string)
    requires Safe(s) && InBody(s, c) && !s.work[c].AtReread?
    ensures !BeingLocked(s, v)
  {
    OthersNotRereading(s, c);
  }

  // ---- one call on its own ----

  /** Nobody is in the locker, and the call is not under way yet. */
  predicate FreeFor(s: VarState, c: Call, made: Channel) {
    && c !in s.lock.calls && (LOCKER !in s.lock.locks ==> made !in s.lock.tokens)
    && forall x | x in s.lock.calls && s.lock.calls[x].name == LOCKER :: s.lock.calls[x].Waiting?
  }

  lemma GoesIn(s: VarState, c: Call, v: string, made: Channel, m: Move)
    requires Safe(s) && FreeFor(s, c, made)
    requires m == Attempt(c, v, made) || m == Unlock(c, v, made)
    ensures Can(s, m) && Can(Do(s, m), Lock(Take(c)))
    ensures var s' := Do(Do(s, m), Lock(Take(c)));
            && InBody(s', c) && s'.work[c] == (if m.Attempt? then AtTest(v) else AtClear(v))
            && s'.log == s.log && s'.locked == s.locked
  {
    var s1 := Do(s, m);
    StepKeepsInv(s.lock, Enter(c, LOCKER, false, made));
    hide Inv, Alternates, LastIsLock;
    TokenThere(s1.lock, c);
  }

  /** An attempt that nobody disturbs succeeds at once if the variable is free, and ends without a trace if it is not. */
  lemma AttemptAlone(s: VarState, c: Call, v: string, made: Channel)
    requires Safe(s) && FreeFor(s, c, made)
    ensures Can(s, Attempt(c, v, made)) && Can(Do(s, Attempt(c, v, made)), Lock(Take(c)))
    ensures var s2 := Do(Do(s, Attempt(c, v, made)), Lock(Take(c)));
            && Can(s2, Inner(c))
            && var s3 := Do(s2, Inner(c));
            if v in s.locked then s3.work[c] == Over && s3.log == s.log && s3.locked == s.locked
            else
              && Can(s3, Inner(c)) && Can(Do(s3, Inner(c)), Inner(c))
              && var s5 := Do(Do(s3, Inner(c)), Inner(c));
              s5.work[c] == Over && s5.log == s.log + [Locked(v, c)] && s5.locked == s.locked + {v}
  {
    GoesIn(s, c, v, made, Attempt(c, v, made));
    hide Safe, Apply, Enabled;
  }

  /** An unlock that nobody disturbs clears the flag, whoever set it. */
  lemma UnlockAlone(s: VarState, c: Call, v: string, made: Channel)
    requires Safe(s) && FreeFor(s, c, made)
    ensures Can(s, Unlock(c, v, made)) && Can(Do(s, Unlock(c, v, made)), Lock(Take(c)))
    ensures var s2 := Do(Do(s, Unlock(c, v, made)), Lock(Take(c)));
            && Can(s2, Inner(c))
            && var s3 := Do(s2, Inner(c));
            s3.work[c] == Over && s3.log == s.log + [Unlocked(v, c)] && s3.locked == s.locked - {v}
  {
    GoesIn(s, c, v, made, Unlock(c, v, made));
    hide Safe, Apply, Enabled;
  }
}
