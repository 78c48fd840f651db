/** Which observer lists a change of a variable is told to. */
module Notifications {
  import opened Text
  import opened Decimal
  import opened MapOrder
  import opened FlatStore
  import opened EntryLists
  import opened Observers
  import opened Subscriptions
  import opened RamCache
  import opened VarHelper

  // ---- the patterns, from the words of the name ----

  function Star(n: string): string { n + ".*" }

  /** The wildcard patterns around a name, innermost first: one per proper word-prefix. */
  function Enclosing(ws: seq<string>): seq<string>
    requires |ws| > 0
  {
    if |ws| == 1 then [] else [Star(Join(ws[..|ws| - 1], '.'))] + Enclosing(ws[..|ws| - 1])
  }

  function Consulted(n: string): seq<string> { [n] + Enclosing(Split(n, '.')) + [Star(n)] }

  /** Position of the last dot, or -1. */
  method LastDotIndex(s: string) returns (i: int)
    ensures -1 <= i < |s|
    ensures i == -1 <==> '.' !in s
    ensures i >= 0 ==> s[i] == '.' && '.' !in s[i + 1..]
  {
    i := |s| - 1;
    while i >= 0
      invariant -1 <= i < |s|
      invariant '.' !in s[i + 1..]
    {
      if s[i] == '.' {
        return;
      }
      assert s[i..] == [s[i]] + s[i + 1..];
      i := i - 1;
    }
    assert s[0..] == s;
  }

  /** Cutting a name at its last dot takes off its last word. */
  lemma LastDotCutsWord(s: string, i: nat)
    requires i < |s| && s[i] == '.' && '.' !in s[i + 1..]
    ensures var ws := Split(s, '.');
            |ws| > 1 && Split(s[..i], '.') == ws[..|ws| - 1] && Join(ws[..|ws| - 1], '.') == s[..i]
  {
    hide Split;
    assert s == s[..i] + ['.'] + s[i + 1..];
    SplitConcat(s[..i], s[i + 1..], '.');
    SplitPiece(s[i + 1..], '.');
    JoinSplit(s[..i], '.');
  }

  // ---- which patterns those are ----

  /** `x` is `q.*` for `q` made of the first `k` words. */
  predicate StarOf(x: string, ws: seq<string>, k: nat) { 1 <= k <= |ws| && x == Star(Join(ws[..k], '.')) }

  predicate Encloses(x: string, ws: seq<string>, n: nat) { exists k :: 1 <= k <= n && StarOf(x, ws, k) }

  /** A longer run of words is spelled longer. */
  lemma {:induction false} LongerJoin(ws: seq<string>, j: nat, k: nat)
    requires 1 <= j < k <= |ws|
    ensures |Join(ws[..j], '.')| < |Join(ws[..k], '.')|
  {
    var a, b := ws[..j], ws[j..k];
    assert ws[..k] == a + b;
    JoinConcat(a, b, '.');
  }

  lemma EnclosingStep(ws: seq<string>, n: nat)
    requires 1 < n <= |ws|
    ensures Enclosing(ws[..n]) == [Star(Join(ws[..n - 1], '.'))] + Enclosing(ws[..n - 1])
  {
    assert ws[..n][..n - 1] == ws[..n - 1];
  }

  lemma StarOfOnce(x: string, ws: seq<string>, j: nat, k: nat)
    requires StarOf(x, ws, j) && StarOf(x, ws, k)
    ensures j == k
  {
    hide Join, Star;
    StarInjective(Join(ws[..j], '.'), Join(ws[..k], '.'));
    if j < k {
      LongerJoin(ws, j, k);
    } else if k < j {
      LongerJoin(ws, k, j);
    }
  }

  lemma OneMoreEncloses(x: string, ws: seq<string>, n: nat)
    requires 1 <= n <= |ws|
    ensures Encloses(x, ws, n) <==> Encloses(x, ws, n - 1) || StarOf(x, ws, n)
    ensures StarOf(x, ws, n) ==> !Encloses(x, ws, n - 1)
  {
    hide StarOf;
    if StarOf(x, ws, n) {
      forall k: nat | 1 <= k <= n - 1 ensures !StarOf(x, ws, k) {
        if StarOf(x, ws, k) {
          StarOfOnce(x, ws, k, n);
        }
      }
    }
  }

  lemma {:induction false} EnclosingOnce(ws: seq<string>, x: string, n: nat)
    requires 1 <= n <= |ws|
    ensures multiset(Enclosing(ws[..n]))[x] == if Encloses(x, ws, n - 1) then 1 else 0
    decreases n
  {
    if n > 1 {
      EnclosingOnce(ws, x, n - 1);
      hide Join, Star, Enclosing, Encloses;
      EnclosingStep(ws, n);
      OneMoreEncloses(x, ws, n - 1);
    }
  }

  lemma StarInjective(a: string, b: string)
    requires Star(a) == Star(b)
    ensures a == b
  {
    assert a == Star(a)[..|a|] && b == Star(b)[..|b|];
  }

  /** A pattern that hears of a change of `n`: `n` itself, or `q.*` for a word-prefix `q` of `n`, `n` included. */
  predicate Hears(x: string, n: string) { x == n || Encloses(x, Split(n, '.'), |Split(n, '.')|) }

  lemma ConsultedCounts(n: string, x: string)
    ensures var ws := Split(n, '.');
            multiset(Consulted(n))[x] == (if x == n then 1 else 0) + if Encloses(x, ws, |ws|) then 1 else 0
  {
    var ws := Split(n, '.');
    var k := |ws|;
    JoinSplit(n, '.');
    hide Join, Star, Split, Encloses, Enclosing;
    assert ws[..k] == ws;
    EnclosingOnce(ws, x, k);
    OneMoreEncloses(x, ws, k);
  }

  /** `q` is made of the first words. */
  predicate FirstWords(ws: seq<string>, q: string) { exists k :: 1 <= k <= |ws| && Join(ws[..k], '.') == q }

  /**
   Written out: a pattern hears of its own name, and a pattern `q.*` of `q` and of every name that starts with
   `q` and a dot.
   */
  lemma HearsExactly(x: string, n: string)
    ensures Hears(x, n) <==>
              x == n || (HasSuffix(x, ".*") && var q := x[..|x| - 2]; q == n || HasPrefix(n, q + "."))
  {
    var ws := Split(n, '.');
    hide Split, Join, Encloses, FirstWords;
    if HasSuffix(x, ".*") {
      var q := x[..|x| - 2];
      assert x == q + ".*";
      WordPrefixExactly(n, q);
      EnclosesExactly(x, q, ws);
    } else {
      NoStarNoPattern(x, ws);
    }
  }

  lemma EnclosesExactly(x: string, q: string, ws: seq<string>)
    requires x == q + ".*"
    ensures Encloses(x, ws, |ws|) <==> FirstWords(ws, q)
  {
    if k :| 1 <= k <= |ws| && Join(ws[..k], '.') == q {
      assert StarOf(x, ws, k);
    }
    if Encloses(x, ws, |ws|) {
      var k :| 1 <= k <= |ws| && StarOf(x, ws, k);
      StarInjective(q, Join(ws[..k], '.'));
    }
  }

  lemma NoStarNoPattern(x: string, ws: seq<string>)
    requires !HasSuffix(x, ".*")
    ensures !Encloses(x, ws, |ws|)
  {
    forall k | 1 <= k <= |ws| ensures !StarOf(x, ws, k) {
      StarEnds(Join(ws[..k], '.'));
    }
  }

  lemma StarEnds(q: string)
    ensures HasSuffix(Star(q), ".*")
  {
    assert (q + ".*")[|q|..] == ".*";
  }

  /** The names made of a name's first words are the name itself and what stands before each of its dots. */
  lemma WordPrefixExactly(n: string, q: string)
    ensures var ws := Split(n, '.');
            FirstWords(ws, q) <==> q == n || HasPrefix(n, q + ".")
  {
    hide Split, Join;
    var ws := Split(n, '.');
    JoinSplit(n, '.');
    assert ws[..|ws|] == ws;
    if q != n && HasPrefix(n, q + ".") {
      var rest := n[|q| + 1..];
      assert n == q + ['.'] + rest by { assert n == n[..|q| + 1] + rest; assert n[..|q| + 1] == q + "."; }
      SplitConcat(q, rest, '.');
      JoinSplit(q, '.');
      var k := |Split(q, '.')|;
      assert ws[..k] == Split(q, '.');
    }
    forall k | 1 <= k < |ws| ensures HasPrefix(n, Join(ws[..k], '.') + ".") {
      assert ws == ws[..k] + ws[k..];
      JoinConcat(ws[..k], ws[k..], '.');
      var a, b := Join(ws[..k], '.'), Join(ws[k..], '.');
      assert n == a + ['.'] + b;
      assert n[..|a + "."|] == a + ".";
    }
  }

  /** The changed name is itself a pattern: it has a last word `*` after at least one other word. */
  predicate IsPattern(n: string) { var ws := Split(n, '.'); |ws| > 1 && ws[|ws| - 1] == "*" }

  lemma PatternEnclosesItself(n: string)
    ensures Encloses(n, Split(n, '.'), |Split(n, '.')|) <==> IsPattern(n)
  {
    var ws := Split(n, '.');
    var k := |ws|;
    JoinSplit(n, '.');
    hide Join, Star, Split;
    forall j | 1 <= j <= k ensures StarOf(n, ws, j) <==> j == k - 1 && ws[j] == "*" {
      StarSplits(ws, n, j);
    }
    if IsPattern(n) {
      assert StarOf(n, ws, k - 1);
    }
  }

  lemma StarSplits(ws: seq<string>, n: string, j: nat)
    requires Split(n, '.') == ws && 1 <= j <= |ws|
    ensures StarOf(n, ws, j) <==> j == |ws| - 1 && ws[j] == "*"
  {
    var front := ws[..j];
    SplitWords(n, '.');
    assert forall w | w in front :: w in ws;
    StarSplit(front);
    hide Split, Star, Join;
    if StarOf(n, ws, j) {
      assert ws == front + ["*"];
    }
    if j == |ws| - 1 && ws[j] == "*" {
      assert ws == front + ["*"];
      SplitInjective(n, Star(Join(front, '.')), '.');
    }
  }

  lemma StarSplit(front: seq<string>)
    requires |front| > 0 && forall w | w in front :: '.' !in w
    ensures Split(Star(Join(front, '.')), '.') == front + ["*"]
  {
    hide Split;
    SplitJoin(front, '.');
    SplitConcat(Join(front, '.'), "*", '.');
    SplitPiece("*", '.');
    assert Star(Join(front, '.')) == Join(front, '.') + ['.'] + "*";
  }

  /** Each pattern that hears of the change is consulted exactly once and no other is, unless the name is a pattern. */
  lemma ConsultedExactly(n: string)
    ensures (forall x :: multiset(Consulted(n))[x] == if Hears(x, n) then 1 else 0) <==> !IsPattern(n)
  {
    hide Consulted, Encloses, Split, IsPattern;
    PatternEnclosesItself(n);
    forall x ensures multiset(Consulted(n))[x] ==
                     (if x == n then 1 else 0) + if Encloses(x, Split(n, '.'), |Split(n, '.')|) then 1 else 0 {
      ConsultedCounts(n, x);
    }
    if IsPattern(n) {
      assert multiset(Consulted(n))[n] == 2;
    }
  }

  // ---- from patterns to the lists they name ----

  /** No two consulted patterns share an observer list; all but the alias `vars.*`, read for `vars`, are names themselves. */
  lemma ConsultedLists(n: string, x: string, y: string)
    requires NameOk(n)
    requires x in Consulted(n) && y in Consulted(n) && PathOfVar(x) == PathOfVar(y)
    ensures x == y && (NameOk(x) <==> x != "vars.*")
  {
    VarsAlone(n);
    AliasIsNoName();
    hide *;
    if n == "vars" {
      ConsultedForVars(x);
      ConsultedForVars(y);
      AliasElsewhere();
    } else {
      ConsultedIsName(n, x);
      ConsultedIsName(n, y);
      VarPathInjective(x, y);
    }
  }

  lemma AliasIsNoName()
    ensures !NameOk("vars.*") && NameOk("vars")
  {
    assert "vars.*"[..5] == "vars.";
    assert HasPrefix("vars.*", "vars.");
    SplitPiece("vars", '.');
    assert "_observers" !in ["vars"];
  }

  lemma VarsAlone(n: string)
    requires NameOk(n)
    ensures Split(n, '.')[0] == "vars" <==> n == "vars"
  {
    hide Split;
    SplitPiece("vars", '.');
    JoinSplit(n, '.');
    var ws := Split(n, '.');
    if ws[0] == "vars" && |ws| > 1 {
      JoinedFirst(ws);
      assert false;
    }
  }

  lemma JoinedFirst(ws: seq<string>)
    requires |ws| > 1 && ws[0] == "vars"
    ensures HasPrefix(Join(ws, '.'), "vars.")
  {
    assert Join(ws, '.')[..5] == "vars" + ['.'];
  }

  lemma ConsultedForVars(x: string)
    ensures x in Consulted("vars") <==> x == "vars" || x == "vars.*"
  {
    SplitPiece("vars", '.');
    hide Split;
    assert Enclosing(["vars"]) == [];
    assert Star("vars") == "vars.*";
    assert Consulted("vars") == ["vars", "vars.*"];
  }

  lemma AliasElsewhere()
    ensures PathOfVar("vars") != PathOfVar("vars.*")
  {
    assert Controlled("vars") == "vars.vars";
    assert Controlled("vars.*") == "vars.*";
    if PathOfVar("vars") == PathOfVar("vars.*") {
      SplitInjective("vars.vars", "vars.*", '.');
    }
  }

  lemma ConsultedIsName(n: string, x: string)
    requires NameOk(n) && Split(n, '.')[0] != "vars" && x in Consulted(n)
    ensures NameOk(x)
  {
    var ws := Split(n, '.');
    hide Consulted, Split, Encloses;
    ConsultedCounts(n, x);
    assert multiset(Consulted(n))[x] > 0;
    if x != n {
      EnclosingIsName(n, x, ws);
    }
  }

  lemma EnclosingIsName(n: string, x: string, ws: seq<string>)
    requires NameOk(n) && ws == Split(n, '.') && ws[0] != "vars" && Encloses(x, ws, |ws|)
    ensures NameOk(x)
  {
    SplitWords(n, '.');
    hide Split, Star;
    var k :| 1 <= k <= |ws| && StarOf(x, ws, k);
    var front := ws[..k];
    assert forall w | w in front :: w in ws;
    StarSplit(front);
    assert Split(x, '.') == front + ["*"];
    VarsPrefix(x);
  }

  lemma VarsPrefix(x: string)
    ensures HasPrefix(x, "vars.") ==> Split(x, '.')[0] == "vars"
  {
    if HasPrefix(x, "vars.") {
      hide Split;
      assert "vars." == "vars" + ['.'];
      assert x == x[..5] + x[5..] == "vars" + ['.'] + x[5..];
      SplitConcat("vars", x[5..], '.');
      SplitPiece("vars", '.');
    }
  }

  // ---- what is sent ----

  /** One observation that is told of the change: the pattern it observes, its slot, and who to tell. */
  datatype Notice = Notice(pattern: string, id: string, entry: Entry)

  /** The notice stands for an observation in the store. */
  ghost predicate Stands(d: Store, t: Notice) {
    var s := Obs(d, PathOfVar(t.pattern));
    exists i: nat :: i < |s| && t.id == Itoa(i) && t.entry == s[i] && s[i].client != ""
  }

  /** Every observation under a pattern is told as often as the pattern is listed, and nothing else is sent. */
  ghost predicate Told(d: Store, notices: seq<Notice>, patterns: seq<string>) {
    forall t :: multiset(notices)[t] == if Stands(d, t) then multiset(patterns)[t.pattern] else 0
  }

  /** A change is told to each observation whose pattern hears of it exactly once, and to no other. */
  lemma ToldExactly(d: Store, notices: seq<Notice>, n: string)
    requires Told(d, notices, Consulted(n)) && !IsPattern(n)
    ensures forall t :: multiset(notices)[t] == if Stands(d, t) && Hears(t.pattern, n) then 1 else 0
  {
    hide Consulted, Hears, IsPattern, Stands;
    ConsultedExactly(n);
  }

  // ---- sending ----

  /** One notice per reported observation, in whatever order they are visited. */
  method NotifyClientsAboutVarChange(pattern: string, observations: map<string, Entry>) returns (notices: seq<Notice>)
    ensures forall t :: multiset(notices)[t] == if IsReported(t, pattern, observations) then 1 else 0
  {
    var keys := KeysInSomeOrder(observations);
    notices := [];
    for i := 0 to |keys|
      invariant forall t :: multiset(notices)[t] ==
                            if IsReported(t, pattern, observations) && t.id in keys[..i] then 1 else 0
    {
      var t := Notice(pattern, keys[i], observations[keys[i]]);
      assert keys[..i + 1] == keys[..i] + [keys[i]];
      assert keys[i] !in keys[..i];
      notices := notices + [t];
    }
    assert keys[..|keys|] == keys;
  }

  predicate IsReported(t: Notice, pattern: string, observations: map<string, Entry>) {
    t.pattern == pattern && t.id in observations && observations[t.id] == t.entry
  }

  lemma ReportedStands(d: Store, pattern: string, observations: map<string, Entry>, t: Notice)
    requires Reported(observations, Obs(d, PathOfVar(pattern)), |Obs(d, PathOfVar(pattern))|)
    ensures IsReported(t, pattern, observations) <==> t.pattern == pattern && Stands(d, t)
  {
    hide Obs, PathOfVar, Itoa;
    var s := Obs(d, PathOfVar(pattern));
    if IsReported(t, pattern, observations) {
      var i: nat :| i < |s| && t.id == Itoa(i) && s[i].client != "";
      assert observations[Itoa(i)] == s[i];
    }
  }

  lemma OneTold(d: Store, pattern: string, observations: map<string, Entry>, notices: seq<Notice>)
    requires Reported(observations, Obs(d, PathOfVar(pattern)), |Obs(d, PathOfVar(pattern))|)
    requires forall t :: multiset(notices)[t] == if IsReported(t, pattern, observations) then 1 else 0
    ensures Told(d, notices, [pattern])
  {
    hide Reported, Obs, PathOfVar, IsReported, Stands;
    forall t ensures multiset(notices)[t] == if Stands(d, t) then multiset([pattern])[t.pattern] else 0 {
      ReportedStands(d, pattern, observations, t);
    }
  }

  lemma NoneTold(d: Store)
    ensures Told(d, [], [])
  {
  }

  lemma BothTold(d: Store, a: seq<Notice>, b: seq<Notice>, p: seq<string>, q: seq<string>)
    requires Told(d, a, p) && Told(d, b, q)
    ensures Told(d, a + b, p + q)
  {
    hide Stands;
  }

  /** Reads one pattern's observers and tells each of them. */
  method NotifyPattern(db: RamCacheDB, pattern: string) returns (notices: seq<Notice>)
    requires db.Valid()
    ensures Told(db.Contents(), notices, [pattern])
  {
    hide *;
    var vh := new ControllerVarHelper(db, pattern);
    VarIs(vh, pattern);
    var obs := vh.GetAllObservingClients();
    notices := NotifyClientsAboutVarChange(pattern, obs);
    OneTold(db.Contents(), pattern, obs, notices);
  }

  /** Climbs from the name to its first word, one dot at a time. */
  method NotifyParentGenericObservers(db: RamCacheDB, varName: string) returns (notices: seq<Notice>)
    requires db.Valid()
    ensures Told(db.Contents(), notices, Enclosing(Split(varName, '.')))
    decreases |varName|
  {
    hide Split, Join, Told, RamCacheDB.Valid, RamCacheDB.Contents;
    var idx := LastDotIndex(varName);
    if idx != -1 {
      var parent := varName[..idx];
      LastDotCutsWord(varName, idx);
      notices := NotifyPattern(db, Star(parent));
      var further := NotifyParentGenericObservers(db, parent);
      BothTold(db.Contents(), notices, further, [Star(parent)], Enclosing(Split(parent, '.')));
      notices := notices + further;
    } else {
      SplitPiece(varName, '.');
      NoneTold(db.Contents());
      notices := [];
    }
  }

  method NotifyVarModification(db: RamCacheDB, varName: string) returns (notices: seq<Notice>)
    requires db.Valid()
    ensures Told(db.Contents(), notices, Consulted(varName))
    ensures !IsPattern(varName) ==>
              forall t :: multiset(notices)[t] == if Stands(db.Contents(), t) && Hears(t.pattern, varName) then 1 else 0
  {
    hide Split, Told, Stands, Hears, IsPattern, Enclosing, RamCacheDB.Valid, RamCacheDB.Contents;
    var own := NotifyPattern(db, varName);
    var parents := NotifyParentGenericObservers(db, varName);
    var childs := NotifyPattern(db, Star(varName));
    ghost var d, ws := db.Contents(), Split(varName, '.');
    BothTold(d, own, parents, [varName], Enclosing(ws));
    BothTold(d, own + parents, childs, [varName] + Enclosing(ws), [Star(varName)]);
    notices := own + parents + childs;
    if !IsPattern(varName) {
      ToldExactly(d, notices, varName);
    }
  }
}
