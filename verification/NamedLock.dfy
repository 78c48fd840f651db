/**
 Named locks as interleaved steps: a shared table of one-token channels, and any number of calls of
 `NamedLockRun` at any point of their way through it. A call is named by a number.
 */
module NamedLock {

  type Call = nat

  /** A buffered channel, of which only the number of tokens in it matters. */
  class Channel {
    var tokens: nat

    constructor ()
      ensures tokens == 0
    {
      tokens := 0;
    }
  }

  /** Where a call is: waiting on a channel, running its body, or about to put the token back. */
  datatype Phase =
    | Waiting(name: string, ch: Channel, timed: bool)
    | Holding(name: string, ch: Channel)
    | Returning(name: string, ch: Channel)

  /** The table from names to channels, the tokens in each channel, and the calls under way. */
  datatype State = State(locks: map<string, Channel>, tokens: map<Channel, nat>, calls: map<Call, Phase>)

  function Start(): State { State(map[], map[], map[]) }

  /** `made` is the channel that entering makes if the name has none yet. */
  datatype Step =
    | Enter(c: Call, name: string, timed: bool, made: Channel)
    | Take(c: Call)
    | GiveUp(c: Call)
    | Finish(c: Call)
    | PutBack(c: Call)

  const CAPACITY := 1

  /** A receive waits for a token; giving up needs a timeout, and may come at any moment. */
  predicate Enabled(s: State, t: Step) {
    match t
    case Enter(c, name, _, made) => c !in s.calls && (name !in s.locks ==> made !in s.tokens)
    case Take(c) =>
      c in s.calls && s.calls[c].Waiting? && s.calls[c].ch in s.tokens && s.tokens[s.calls[c].ch] > 0
    case GiveUp(c) => c in s.calls && s.calls[c].Waiting? && s.calls[c].timed
    case Finish(c) => c in s.calls && s.calls[c].Holding?
    case PutBack(c) => c in s.calls && s.calls[c].Returning? && s.calls[c].ch in s.tokens
  }

  /** The send of a release has a default branch: into a full channel it does nothing. */
  predicate TakesDefault(s: State, c: Call)
    requires Enabled(s, PutBack(c))
  {
    s.tokens[s.calls[c].ch] >= CAPACITY
  }

  function Apply(s: State, t: Step): State
    requires Enabled(s, t)
  {
    match t
    case Enter(c, name, timed, made) =>
      if name in s.locks then s.(calls := s.calls[c := Waiting(name, s.locks[name], timed)])
      else State(s.locks[name := made], s.tokens[made := 1], s.calls[c := Waiting(name, made, timed)])
    case Take(c) =>
      var w := s.calls[c];
      State(s.locks, s.tokens[w.ch := s.tokens[w.ch] - 1], s.calls[c := Holding(w.name, w.ch)])
    case GiveUp(c) => s.(calls := s.calls - {c})
    case Finish(c) =>
      var name := s.calls[c].name;
      s.(calls := if name in s.locks then s.calls[c := Returning(name, s.locks[name])] else s.calls - {c})
    case PutBack(c) =>
      var ch := s.calls[c].ch;
      State(s.locks, if TakesDefault(s, c) then s.tokens else s.tokens[ch := s.tokens[ch] + 1], s.calls - {c})
  }

  // ---- the table itself ----

  /** The shared table; each method is what one call does between two points where others may run. */
  class LockTable {
    var locks: map<string, Channel>
    ghost var channels: set<Channel>
    ghost var calls: map<Call, Phase>

    ghost predicate Valid()
      reads this
    {
      forall n | n in locks :: locks[n] in channels
    }

    ghost function Now(): State
      reads this, channels
    {
      State(locks, map ch | ch in channels :: ch.tokens, calls)
    }

    constructor ()
      ensures Valid() && fresh(channels) && Now() == Start()
    {
      locks, channels, calls := map[], {}, map[];
    }

    /** Under the table's mutex: finds the name's channel, or makes one holding its token. */
    method AcquireLookup(name: string, timed: bool, ghost c: Call) returns (ch: Channel)
      requires Valid() && c !in calls
      modifies this
      ensures Valid() && fresh(channels - old(channels))
      ensures Enabled(old(Now()), Enter(c, name, timed, ch))
      ensures Now() == Apply(old(Now()), Enter(c, name, timed, ch)) && calls[c] == Waiting(name, ch, timed)
    {
      if name !in locks {
        ch := new Channel();
        ch.tokens := 1;
        locks := locks[name := ch];
        channels := channels + {ch};
      }
      ch := locks[name];
      calls := calls[c := Waiting(name, ch, timed)];
    }

    /** A receive that went through. */
    method Receive(ch: Channel, ghost c: Call)
      requires Valid() && c in calls && calls[c].Waiting? && calls[c].ch == ch && ch in channels && ch.tokens > 0
      modifies this`calls, ch
      ensures Valid() && Now() == Apply(old(Now()), Take(c))
    {
      ch.tokens := ch.tokens - 1;
      calls := calls[c := Holding(calls[c].name, ch)];
    }

    /** The other branch of the select: the timer fired first. */
    ghost method TimeOut(c: Call)
      requires Valid() && c in calls && calls[c].Waiting? && calls[c].timed
      modifies this`calls
      ensures Valid() && Now() == Apply(old(Now()), GiveUp(c))
    {
      calls := calls - {c};
    }

    /** Under the mutex: finds the channel to put the token back into. */
    method ReleaseLookup(name: string, ghost c: Call) returns (ch: Channel?)
      requires Valid() && c in calls && calls[c].Holding? && calls[c].name == name
      modifies this`calls
      ensures Valid() && Now() == Apply(old(Now()), Finish(c))
      ensures ch == if name in locks then locks[name] else null
    {
      if name in locks {
        ch := locks[name];
        calls := calls[c := Returning(name, ch)];
      } else {
        ch := null;
        calls := calls - {c};
      }
    }

    /** Puts the token back unless the channel is full. */
    method Send(ch: Channel, ghost c: Call)
      requires Valid() && c in calls && calls[c].Returning? && calls[c].ch == ch && ch in channels
      modifies this`calls, ch
      ensures Valid() && Now() == Apply(old(Now()), PutBack(c))
      ensures ch.tokens == if old(ch.tokens) < 1 then old(ch.tokens) + 1 else old(ch.tokens)
    {
      if ch.tokens < CAPACITY {
        ch.tokens := ch.tokens + 1;
      }
      calls := calls - {c};
    }
  }

  // ---- the invariant ----

  /** The calls between the acquisition of a channel's token and its return. */
  function Holders(s: State, ch: Channel): set<Call> {
    set c | c in s.calls && !s.calls[c].Waiting? && s.calls[c].ch == ch
  }

  predicate OneToken(s: State, ch: Channel)
    requires ch in s.tokens
  {
    s.tokens[ch] + |Holders(s, ch)| == 1
  }

  predicate OnItsChannel(s: State, c: Call)
    requires c in s.calls
  {
    s.calls[c].name in s.locks && s.locks[s.calls[c].name] == s.calls[c].ch
  }

  ghost predicate Inv(s: State) {
    && (forall n | n in s.locks :: s.locks[n] in s.tokens)
    && (forall n, m | n in s.locks && m in s.locks && s.locks[n] == s.locks[m] :: n == m)
    && (forall c | c in s.calls :: OnItsChannel(s, c))
    && (forall ch | ch in s.tokens :: OneToken(s, ch))
  }

  lemma StartInv()
    ensures Inv(Start())
  {
  }

  lemma SameHolders(s: State, s': State, ch: Channel)
    requires forall c :: c in Holders(s, ch) <==> c in Holders(s', ch)
    ensures Holders(s', ch) == Holders(s, ch)
  {
  }

  lemma EnterKeeps(s: State, c: Call, name: string, timed: bool, made: Channel)
    requires Inv(s) && Enabled(s, Enter(c, name, timed, made))
    ensures Inv(Apply(s, Enter(c, name, timed, made)))
  {
    var s' := Apply(s, Enter(c, name, timed, made));
    forall ch | ch in s'.tokens ensures OneToken(s', ch) {
      SameHolders(s, s', ch);
      if ch in s.tokens {
        assert OneToken(s, ch);
      } else {
        NobodyBeyond(s, ch);
      }
    }
    forall x | x in s'.calls ensures OnItsChannel(s', x) {
      assert x != c ==> OnItsChannel(s, x);
    }
  }

  lemma NobodyBeyond(s: State, ch: Channel)
    requires Inv(s) && ch !in s.tokens
    ensures Holders(s, ch) == {}
  {
    forall c ensures c !in Holders(s, ch) {
      assert c in s.calls ==> OnItsChannel(s, c);
    }
  }

  lemma TakeKeeps(s: State, c: Call)
    requires Inv(s) && Enabled(s, Take(c))
    ensures Inv(Apply(s, Take(c)))
  {
    var s', mine := Apply(s, Take(c)), s.calls[c].ch;
    assert OnItsChannel(s, c);
    forall ch | ch in s'.tokens ensures OneToken(s', ch) {
      assert OneToken(s, ch);
      if ch == mine {
        assert Holders(s', ch) == Holders(s, ch) + {c};
      } else {
        SameHolders(s, s', ch);
      }
    }
    forall x | x in s'.calls ensures OnItsChannel(s', x) {
      assert OnItsChannel(s, x);
    }
  }

  lemma GiveUpKeeps(s: State, c: Call)
    requires Inv(s) && Enabled(s, GiveUp(c))
    ensures Inv(Apply(s, GiveUp(c)))
  {
    var s' := Apply(s, GiveUp(c));
    forall ch | ch in s'.tokens ensures OneToken(s', ch) {
      SameHolders(s, s', ch);
      assert OneToken(s, ch);
    }
    forall x | x in s'.calls ensures OnItsChannel(s', x) {
      assert OnItsChannel(s, x);
    }
  }

  lemma FinishKeeps(s: State, c: Call)
    requires Inv(s) && Enabled(s, Finish(c))
    ensures Inv(Apply(s, Finish(c)))
  {
    var s' := Apply(s, Finish(c));
    assert OnItsChannel(s, c);
    forall ch | ch in s'.tokens ensures OneToken(s', ch) {
      assert OneToken(s, ch);
      SameHolders(s, s', ch);
    }
    forall x | x in s'.calls ensures OnItsChannel(s', x) {
      assert OnItsChannel(s, x);
    }
  }

  lemma PutBackKeeps(s: State, c: Call)
    requires Inv(s) && Enabled(s, PutBack(c))
    ensures Inv(Apply(s, PutBack(c))) && !TakesDefault(s, c)
  {
    var s', mine := Apply(s, PutBack(c)), s.calls[c].ch;
    assert OnItsChannel(s, c) && OneToken(s, mine);
    assert c in Holders(s, mine);
    assert |Holders(s, mine)| >= 1;
    forall ch | ch in s'.tokens ensures OneToken(s', ch) {
      assert OneToken(s, ch);
      if ch == mine {
        assert Holders(s', ch) == Holders(s, ch) - {c};
      } else {
        SameHolders(s, s', ch);
      }
    }
    forall x | x in s'.calls ensures OnItsChannel(s', x) {
      assert OnItsChannel(s, x);
    }
  }

  lemma StepKeepsInv(s: State, t: Step)
    requires Inv(s) && Enabled(s, t)
    ensures Inv(Apply(s, t))
  {
    match t
    case Enter(c, name, timed, made) => EnterKeeps(s, c, name, timed, made);
    case Take(c) => TakeKeeps(s, c);
    case GiveUp(c) => GiveUpKeeps(s, c);
    case Finish(c) => FinishKeeps(s, c);
    case PutBack(c) => PutBackKeeps(s, c);
  }

  // ---- every interleaving ----

  ghost predicate Run(ss: seq<State>, ts: seq<Step>) {
    && |ss| == |ts| + 1 && ss[0] == Start()
    && forall i | 0 <= i < |ts| :: Enabled(ss[i], ts[i]) && ss[i + 1] == Apply(ss[i], ts[i])
  }

  lemma {:induction false} RunInv(ss: seq<State>, ts: seq<Step>, i: nat)
    requires Run(ss, ts) && i < |ss|
    ensures Inv(ss[i])
  {
    hide Inv, Apply, Enabled;
    if i == 0 {
      StartInv();
    } else {
      RunInv(ss, ts, i - 1);
      StepKeepsInv(ss[i - 1], ts[i - 1]);
    }
  }

  /** In every interleaving a name's tokens and the calls between acquire and release add up to one. */
  lemma TokenConserved(ss: seq<State>, ts: seq<Step>, i: nat, name: string)
    requires Run(ss, ts) && i < |ss| && name in ss[i].locks
    ensures ss[i].locks[name] in ss[i].tokens
    ensures ss[i].tokens[ss[i].locks[name]] + |Holders(ss[i], ss[i].locks[name])| == 1
  {
    RunInv(ss, ts, i);
    assert OneToken(ss[i], ss[i].locks[name]);
  }

  lemma OneHolder(s: State, c: Call, c': Call)
    requires Inv(s) && c in s.calls && c' in s.calls
    requires !s.calls[c].Waiting? && !s.calls[c'].Waiting? && s.calls[c].name == s.calls[c'].name
    ensures c == c'
  {
    var ch := s.calls[c].ch;
    assert OnItsChannel(s, c) && OnItsChannel(s, c');
    assert OneToken(s, ch);
    var h := Holders(s, ch);
    assert c in h && c' in h;
    if c != c' {
      TwoAtLeast(h, c, c');
    }
  }

  lemma TwoAtLeast(h: set<Call>, c: Call, c': Call)
    requires c in h && c' in h && c != c'
    ensures |h| >= 2
  {
    var rest := h - {c};
    assert c' in rest;
    assert |rest| >= 1;
  }

  /** Bodies under one name never overlap. */
  lemma BodiesExclude(ss: seq<State>, ts: seq<Step>, i: nat, c: Call, c': Call)
    requires Run(ss, ts) && i < |ss| && c in ss[i].calls && c' in ss[i].calls
    requires ss[i].calls[c].Holding? && ss[i].calls[c'].Holding? && ss[i].calls[c].name == ss[i].calls[c'].name
    ensures c == c'
  {
    RunInv(ss, ts, i);
    OneHolder(ss[i], c, c');
  }

  /** A release always finds room for its token. */
  lemma DefaultNeverTaken(ss: seq<State>, ts: seq<Step>, i: nat)
    requires Run(ss, ts) && i < |ts| && ts[i].PutBack?
    ensures Enabled(ss[i], ts[i]) && !TakesDefault(ss[i], ts[i].c)
  {
    RunInv(ss, ts, i);
    assert Enabled(ss[i], ts[i]);
    PutBackKeeps(ss[i], ts[i].c);
  }

  /** However many callers timed out before, a waiting call can take the token exactly when nobody holds it. */
  lemma TimeoutsLoseNothing(ss: seq<State>, ts: seq<Step>, i: nat, c: Call)
    requires Run(ss, ts) && i < |ss| && c in ss[i].calls && ss[i].calls[c].Waiting?
    ensures Enabled(ss[i], Take(c)) <==> Holders(ss[i], ss[i].calls[c].ch) == {}
  {
    RunInv(ss, ts, i);
    assert OnItsChannel(ss[i], c);
    assert OneToken(ss[i], ss[i].calls[c].ch);
  }

  /** With nobody holding a name, its token is there. */
  lemma TokenThere(s: State, c: Call)
    requires Inv(s) && c in s.calls && s.calls[c].Waiting?
    requires forall x | x in s.calls && s.calls[x].name == s.calls[c].name :: s.calls[x].Waiting?
    ensures OnItsChannel(s, c) && s.calls[c].ch in s.tokens && s.tokens[s.calls[c].ch] == 1
  {
    var ch := s.calls[c].ch;
    assert OnItsChannel(s, c) && OneToken(s, ch);
    forall x | x in s.calls ensures s.calls[x].ch == ch ==> s.calls[x].Waiting? {
      assert OnItsChannel(s, x);
    }
    assert Holders(s, ch) == {};
  }

  /** With nobody else in between, taking the token, finishing and putting it back only takes the call away. */
  lemma GetsThrough(s: State, c: Call)
    requires c in s.calls && s.calls[c].Waiting? && OnItsChannel(s, c)
    requires s.calls[c].ch in s.tokens && s.tokens[s.calls[c].ch] == 1
    ensures Enabled(s, Take(c))
    ensures var s2 := Apply(s, Take(c));
            && Enabled(s2, Finish(c))
            && var s3 := Apply(s2, Finish(c));
            Enabled(s3, PutBack(c)) && Apply(s3, PutBack(c)) == State(s.locks, s.tokens, s.calls - {c})
  {
    var ch := s.calls[c].ch;
    assert s.tokens[ch := 0][ch := 1] == s.tokens;
    var s3 := Apply(Apply(s, Take(c)), Finish(c));
    assert s3.calls - {c} == s.calls - {c};
  }

  /** A call on a name nobody holds gets through all its steps if nobody comes between, and leaves its token behind. */
  lemma UndisturbedCall(s: State, c: Call, name: string, timed: bool, made: Channel)
    requires Inv(s) && c !in s.calls && (name !in s.locks ==> made !in s.tokens)
    requires forall x | x in s.calls && s.calls[x].name == name :: s.calls[x].Waiting?
    ensures Enabled(s, Enter(c, name, timed, made))
    ensures var s1 := Apply(s, Enter(c, name, timed, made));
            && Enabled(s1, Take(c)) && Enabled(Apply(s1, Take(c)), Finish(c))
            && var s3 := Apply(Apply(s1, Take(c)), Finish(c));
            && Enabled(s3, PutBack(c))
            && var s4 := Apply(s3, PutBack(c));
            && s4.calls == s.calls && name in s4.locks && s4.locks[name] in s4.tokens && s4.tokens[s4.locks[name]] == 1
            && forall ch | ch in s.tokens :: ch in s4.tokens && s4.tokens[ch] == s.tokens[ch]
  {
    var t := Enter(c, name, timed, made);
    StepKeepsInv(s, t);
    EnteredIs(s, c, name, timed, made);
    var s1 := Apply(s, t);
    hide *;
    TokenThere(s1, c);
    ItsChannel(s1, c);
    GetsThrough(s1, c);
  }

  lemma ItsChannel(s: State, c: Call)
    requires c in s.calls && OnItsChannel(s, c)
    ensures s.calls[c].name in s.locks && s.locks[s.calls[c].name] == s.calls[c].ch
  {
  }

  lemma EnteredIs(s: State, c: Call, name: string, timed: bool, made: Channel)
    requires Enabled(s, Enter(c, name, timed, made))
    ensures var s1 := Apply(s, Enter(c, name, timed, made));
            && c in s1.calls && s1.calls[c].Waiting? && s1.calls[c].name == name && s1.calls - {c} == s.calls
            && (forall x | x in s1.calls && x != c :: x in s.calls && s1.calls[x] == s.calls[x])
            && forall ch | ch in s.tokens :: ch in s1.tokens && s1.tokens[ch] == s.tokens[ch]
  {
  }
}
