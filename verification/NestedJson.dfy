/** Building one nested JSON object out of dotted variables, in place, in whatever order they come. */
module NestedJson {
  import opened Options
  import opened FlatStore

  /** The key under which an object that also has a value of its own keeps it. */
  const OWN := "_value"

  // ---- what sits where ----

  datatype Item = Nothing | Object | Prim(x: string)

  /** What is found by following the words of a path from the root. */
  type Doc = Path -> Item

  const NO_ITEMS: Doc := (q: Path) => Nothing

  /** Storing a value at `t` drops whatever was below. */
  function SetItem(f: Doc, t: Path, v: string): Doc {
    q => if q == t then Prim(v) else if t <= q then Nothing else f(q)
  }

  /** Passing through `p`: a missing entry becomes an object, a plain value moves under its own-value key. */
  function Opened(f: Doc, p: Path): Doc {
    q =>
      if f(p).Object? then f(q)
      else if q == p then Object
      else if f(p).Prim? && q == p + [OWN] then f(p)
      else f(q)
  }

  function PutLeaf(f: Doc, t: Path, v: string): Doc {
    if f(t).Object? then SetItem(f, t + [OWN], v) else SetItem(f, t, v)
  }

  /** Inserting below `cur`, word by word; empty words are passed over, and a final one inserts nothing. */
  function Inserted(f: Doc, cur: Path, parts: seq<string>, v: string): Doc
    requires |parts| > 0
    decreases |parts|
  {
    if |parts| == 1 then (if parts[0] == "" then f else PutLeaf(f, cur + [parts[0]], v))
    else if parts[0] == "" then Inserted(f, cur, parts[1..], v)
    else Inserted(Opened(f, cur + [parts[0]]), cur + [parts[0]], parts[1..], v)
  }

  ghost predicate Same(f: Doc, g: Doc) { forall q :: f(q) == g(q) }

  lemma {:induction false} InsertedSame(f: Doc, g: Doc, cur: Path, parts: seq<string>, v: string)
    requires |parts| > 0 && Same(f, g)
    ensures Same(Inserted(f, cur, parts, v), Inserted(g, cur, parts, v))
    decreases |parts|
  {
    if |parts| > 1 {
      if parts[0] == "" {
        InsertedSame(f, g, cur, parts[1..], v);
      } else {
        var p := cur + [parts[0]];
        assert Same(Opened(f, p), Opened(g, p));
        InsertedSame(Opened(f, p), Opened(g, p), p, parts[1..], v);
      }
    }
  }

  // ---- the object a set of variables makes ----

  /** A variable below the base, or the base itself, which goes in under the own-value key alone. */
  predicate GoodPath(p: Path) { p == [OWN] || (p != [] && forall w | w in p :: w != "" && w != OWN) }

  ghost predicate GoodSet(s: map<Path, string>) { forall p | p in s :: GoodPath(p) }

  ghost predicate HasBelow(s: map<Path, string>, q: Path) { exists p :: p in s && q < p }

  /** A path that has to be an object: something hangs below it, or the walk has come through it. */
  ghost predicate Inner(s: map<Path, string>, cur: Path, q: Path) { HasBelow(s, q) || q <= cur }

  /**
   Each variable's value sits at its path, or under the own-value key if other variables lie below it;
   `cur` is how far down an insertion has walked, the empty path when none is under way.
   */
  ghost function BuiltOpen(s: map<Path, string>, cur: Path, q: Path): Item {
    if q == [] then Nothing
    else if Inner(s, cur, q) then Object
    else if q in s then Prim(s[q])
    else if q[|q| - 1] == OWN && q[..|q| - 1] in s && Inner(s, cur, q[..|q| - 1]) then Prim(s[q[..|q| - 1]])
    else Nothing
  }

  ghost predicate Holds(f: Doc, s: map<Path, string>, cur: Path) { forall q :: f(q) == BuiltOpen(s, cur, q) }

  lemma OneWordOn(cur: Path, w: string, q: Path)
    ensures q <= cur + [w] <==> q <= cur || q == cur + [w]
  {
    if q <= cur + [w] && q != cur + [w] {
      assert q == (cur + [w])[..|q|] == cur[..|q|];
    }
  }

  lemma OpenStep(f: Doc, s: map<Path, string>, cur: Path, w: string)
    requires GoodSet(s) && Holds(f, s, cur) && w != OWN
    ensures Holds(Opened(f, cur + [w]), s, cur + [w])
  {
    var p := cur + [w];
    assert p[|p| - 1] == w;
    assert (p + [OWN])[..|p|] == p;
    forall q ensures Opened(f, p)(q) == BuiltOpen(s, p, q) {
      assert f(q) == BuiltOpen(s, cur, q) && f(p) == BuiltOpen(s, cur, p);
      OneWordOn(cur, w, q);
      OneWordOn(cur, w, p);
      if q != [] {
        OneWordOn(cur, w, q[..|q| - 1]);
      }
      if q != [] && q[|q| - 1] == OWN && q[..|q| - 1] == p {
        assert q == p + [OWN];
      }
    }
  }

  lemma OwnIsNobodys(s: map<Path, string>, q: Path)
    requires GoodSet(s) && OWN in q
    ensures !HasBelow(s, q) && (q in s ==> q == [OWN])
  {
    forall p | p in s && q <= p ensures q == p == [OWN] {
      PrefixOfGood(p, q);
    }
  }

  lemma OwnIsLeaf(s: map<Path, string>)
    requires GoodSet(s)
    ensures !HasBelow(s, [OWN])
  {
    OwnIsNobodys(s, [OWN]);
  }

  lemma PrefixOfGood(p: Path, q: Path)
    requires GoodPath(p) && q <= p
    ensures OWN in q ==> q == p == [OWN]
  {
    assert forall w | w in q :: w in p;
  }

  lemma OneMoreBelow(s: map<Path, string>, p: Path, v: string, q: Path)
    ensures HasBelow(s[p := v], q) <==> HasBelow(s, q) || q < p
  {
    if HasBelow(s, q) {
      var r :| r in s && q < r;
      assert r in s[p := v];
    }
    if q < p {
      assert p in s[p := v];
    }
  }

  lemma BelowIsBelow(s: map<Path, string>, p: Path, q: Path)
    requires p <= q && (HasBelow(s, q) || (q in s && p != q))
    ensures HasBelow(s, p)
  {
    if HasBelow(s, q) {
      var r :| r in s && q < r;
      assert p < r;
    }
  }

  /** The last word of a variable, when other variables lie below it. */
  lemma PutInside(f: Doc, s: map<Path, string>, cur: Path, w: string, v: string, q: Path)
    requires GoodSet(s) && Holds(f, s, cur) && GoodPath(cur + [w]) && HasBelow(s, cur + [w])
    ensures SetItem(f, cur + [w] + [OWN], v)(q) == BuiltOpen(s[cur + [w] := v], [], q)
  {
    var p := cur + [w];
    assert f(q) == BuiltOpen(s, cur, q);
    if p + [OWN] <= q {
      AtOwn(s, p, v, q);
    } else {
      BesideOwn(s, cur, w, v, q);
    }
  }

  /** At the own-value key sits the value, and below it nothing. */
  lemma AtOwn(s: map<Path, string>, p: Path, v: string, q: Path)
    requires GoodSet(s) && GoodPath(p) && HasBelow(s, p) && p + [OWN] <= q
    ensures BuiltOpen(s[p := v], [], q) == if q == p + [OWN] then Prim(v) else Nothing
  {
    var s', t, init := s[p := v], p + [OWN], q[..|q| - 1];
    assert GoodSet(s');
    assert q[|p|] == t[|p|] == OWN && t[..|p|] == p;
    OwnIsLeaf(s);
    OwnIsNobodys(s', q);
    OneMoreBelow(s, p, v, p);
    if q != t {
      assert init[|p|] == OWN;
      OwnIsNobodys(s', init);
    }
  }

  lemma BesideOwn(s: map<Path, string>, cur: Path, w: string, v: string, q: Path)
    requires GoodSet(s) && GoodPath(cur + [w]) && HasBelow(s, cur + [w]) && !(cur + [w] + [OWN] <= q)
    ensures BuiltOpen(s[cur + [w] := v], [], q) == BuiltOpen(s, cur, q)
  {
    var p := cur + [w];
    if q != [] {
      var init := q[..|q| - 1];
      assert q == init + [q[|q| - 1]];
      assert init == p ==> q[|q| - 1] != OWN;
      InnerAfter(s, cur, w, v, q);
      InnerAfter(s, cur, w, v, init);
      assert [] !in s by { assert [] in s ==> GoodPath([]); }
      assert q == p ==> Inner(s, cur, q);
      hide GoodSet, GoodPath, HasBelow, Inner;
    }
  }

  lemma PutOutside(f: Doc, s: map<Path, string>, cur: Path, w: string, v: string, q: Path)
    requires GoodSet(s) && Holds(f, s, cur) && GoodPath(cur + [w]) && !HasBelow(s, cur + [w])
    ensures SetItem(f, cur + [w], v)(q) == BuiltOpen(s[cur + [w] := v], [], q)
  {
    var p := cur + [w];
    assert f(q) == BuiltOpen(s, cur, q);
    if p < q {
      NothingBelowLeaf(s, p, v, q);
    } else {
      hide GoodSet, GoodPath, HasBelow;
      OneWordOn(cur, w, p);
      if q == p {
        InnerAfter(s, cur, w, v, q);
      } else {
        BesideLeaf(s, cur, w, v, q);
      }
    }
  }

  /** Away from the new leaf nothing changes. */
  lemma BesideLeaf(s: map<Path, string>, cur: Path, w: string, v: string, q: Path)
    requires GoodSet(s) && GoodPath(cur + [w]) && q != cur + [w] && !(cur + [w] < q)
    ensures BuiltOpen(s[cur + [w] := v], [], q) == BuiltOpen(s, cur, q)
  {
    var p := cur + [w];
    if q != [] {
      var init := q[..|q| - 1];
      assert q == init + [q[|q| - 1]];
      assert init != p;
      InnerAfter(s, cur, w, v, q);
      InnerAfter(s, cur, w, v, init);
      assert [] !in s by { assert [] in s ==> GoodPath([]); }
      hide GoodSet, GoodPath, HasBelow, Inner;
    }
  }

  lemma NothingBelowLeaf(s: map<Path, string>, p: Path, v: string, q: Path)
    requires p != [] && !HasBelow(s, p) && p < q
    ensures BuiltOpen(s[p := v], [], q) == Nothing
  {
    var init := q[..|q| - 1];
    assert p <= init by { assert p == q[..|p|] == init[..|p|]; }
    OneMoreBelow(s, p, v, q);
    OneMoreBelow(s, p, v, init);
    if HasBelow(s, q) || q in s {
      BelowIsBelow(s, p, q);
    }
    if HasBelow(s, init) || (init in s && init != p) {
      BelowIsBelow(s, p, init);
    }
  }

  lemma PutStep(f: Doc, s: map<Path, string>, cur: Path, w: string, v: string)
    requires GoodSet(s) && Holds(f, s, cur) && GoodPath(cur + [w])
    ensures Holds(PutLeaf(f, cur + [w], v), s[cur + [w] := v], [])
  {
    var p := cur + [w];
    assert p[|p| - 1] == w && w in p;
    assert f(p) == BuiltOpen(s, cur, p);
    hide BuiltOpen, SetItem;
    assert f(p).Object? <==> HasBelow(s, p) by { ObjectIsInner(s, cur, w); }
    forall q ensures PutLeaf(f, p, v)(q) == BuiltOpen(s[p := v], [], q) {
      if HasBelow(s, p) {
        PutInside(f, s, cur, w, v, q);
      } else {
        PutOutside(f, s, cur, w, v, q);
      }
    }
  }

  lemma ObjectIsInner(s: map<Path, string>, cur: Path, w: string)
    ensures BuiltOpen(s, cur, cur + [w]).Object? <==> HasBelow(s, cur + [w])
  {
  }

  lemma InnerAfter(s: map<Path, string>, cur: Path, w: string, v: string, q: Path)
    ensures q != [] ==> (Inner(s[cur + [w] := v], [], q) <==> Inner(s, cur, q))
  {
    var p := cur + [w];
    OneMoreBelow(s, p, v, q);
    if q < p {
      assert q == p[..|q|] == cur[..|q|];
    }
    if q <= cur {
      assert q == cur[..|q|] == p[..|q|];
    }
  }

  /** Inserting a variable makes the object with its value, in place of the one it had if it was there before. */
  lemma {:induction false} InsertBuilds(f: Doc, s: map<Path, string>, cur: Path, parts: seq<string>, v: string)
    requires |parts| > 0 && GoodSet(s) && Holds(f, s, cur)
    requires GoodPath(cur + parts)
    ensures Holds(Inserted(f, cur, parts, v), s[cur + parts := v], [])
    decreases |parts|
  {
    var w := parts[0];
    assert (cur + parts)[|cur|] == w && w in cur + parts;
    if |parts| == 1 {
      assert parts == [w];
      PutStep(f, s, cur, w, v);
    } else {
      hide Opened, BuiltOpen;
      assert cur + parts == (cur + [w]) + parts[1..];
      assert |cur + parts| > 1;
      OpenStep(f, s, cur, w);
      InsertBuilds(Opened(f, cur + [w]), s, cur + [w], parts[1..], v);
    }
  }

  // ---- any order ----

  datatype Variable = Variable(path: Path, value: string)

  function InsertAll(vars: seq<Variable>): Doc
    requires AllGood(vars)
  {
    if vars == [] then NO_ITEMS
    else
      var n := |vars| - 1;
      Inserted(InsertAll(vars[..n]), [], vars[n].path, vars[n].value)
  }

  predicate Distinct(vars: seq<Variable>) { forall i, j | 0 <= i < j < |vars| :: vars[i].path != vars[j].path }

  function SetOf(vars: seq<Variable>): map<Path, string> {
    if vars == [] then map[] else SetOf(vars[..|vars| - 1])[vars[|vars| - 1].path := vars[|vars| - 1].value]
  }

  lemma {:induction false} InSetOf(vars: seq<Variable>, p: Path)
    ensures p in SetOf(vars) <==> exists i :: 0 <= i < |vars| && vars[i].path == p
    ensures Distinct(vars) ==>
              forall i | 0 <= i < |vars| :: vars[i].path in SetOf(vars) && SetOf(vars)[vars[i].path] == vars[i].value
    decreases |vars|
  {
    if vars != [] {
      var n := |vars| - 1;
      InSetOf(vars[..n], p);
      assert vars[..n] + [vars[n]] == vars;
      forall i | 0 <= i < |vars|
        ensures vars[i].path in SetOf(vars)
        ensures Distinct(vars) ==> SetOf(vars)[vars[i].path] == vars[i].value
      {
        if i < n {
          InSetOf(vars[..n], vars[i].path);
          assert vars[..n][i] == vars[i];
        }
      }
      if p in SetOf(vars[..n]) {
        var i :| 0 <= i < n && vars[..n][i].path == p;
        assert vars[i].path == p;
      }
    }
  }

  predicate AllGood(vars: seq<Variable>) { forall i | 0 <= i < |vars| :: GoodPath(vars[i].path) }

  /** Inserting variables one after the other makes the object of all of them; of two for one path the later counts. */
  lemma {:induction false} AllBuilt(vars: seq<Variable>)
    requires AllGood(vars)
    ensures Holds(InsertAll(vars), SetOf(vars), [])
    decreases |vars|
  {
    if vars != [] {
      var n := |vars| - 1;
      var front, p := vars[..n], vars[n].path;
      AllBuilt(front);
      InSetOf(front, p);
      forall q | q in SetOf(front) ensures GoodPath(q) {
        InSetOf(front, q);
      }
      hide BuiltOpen, Inserted;
      assert [] + p == p;
      InsertBuilds(InsertAll(front), SetOf(front), [], p, vars[n].value);
    }
  }

  /** Two orders of the same variables make the same object. */
  lemma OrderIrrelevant(vars: seq<Variable>, vars': seq<Variable>)
    requires AllGood(vars) && Distinct(vars) && multiset(vars) == multiset(vars')
    ensures AllGood(vars') && Distinct(vars') && Same(InsertAll(vars), InsertAll(vars'))
  {
    SameElements(vars, vars');
    hide BuiltOpen, InsertAll;
    AllBuilt(vars);
    AllBuilt(vars');
    SameSet(vars, vars');
  }

  lemma SameElements(vars: seq<Variable>, vars': seq<Variable>)
    requires AllGood(vars) && Distinct(vars) && multiset(vars) == multiset(vars')
    ensures AllGood(vars') && Distinct(vars')
    ensures forall x :: x in vars <==> x in vars'
  {
    forall x ensures x in vars <==> x in vars' {
      assert x in multiset(vars) <==> x in multiset(vars');
    }
    forall i | 0 <= i < |vars'| ensures GoodPath(vars'[i].path) {
      assert vars'[i] in vars;
    }
    forall i, j | 0 <= i < j < |vars'| ensures vars'[i].path != vars'[j].path {
      TwicePresent(vars', i, j);
      assert vars'[i] in vars && vars'[j] in vars;
      OnceEach(vars, vars'[i]);
    }
  }

  lemma TwicePresent(vars: seq<Variable>, i: nat, j: nat)
    requires i < j < |vars|
    ensures vars[i] == vars[j] ==> multiset(vars)[vars[i]] >= 2
  {
    assert vars == vars[..i] + [vars[i]] + vars[i + 1..j] + [vars[j]] + vars[j + 1..];
  }

  lemma {:induction false} OnceEach(vars: seq<Variable>, x: Variable)
    requires Distinct(vars)
    ensures multiset(vars)[x] <= 1
    decreases |vars|
  {
    if vars != [] {
      var n := |vars| - 1;
      OnceEach(vars[..n], x);
      assert vars == vars[..n] + [vars[n]];
      if x == vars[n] {
        assert x !in vars[..n];
      }
    }
  }

  lemma SameSet(vars: seq<Variable>, vars': seq<Variable>)
    requires Distinct(vars) && Distinct(vars') && forall x :: x in vars <==> x in vars'
    ensures SetOf(vars) == SetOf(vars')
  {
    forall p ensures p in SetOf(vars) <==> p in SetOf(vars')
             ensures p in SetOf(vars) ==> SetOf(vars)[p] == SetOf(vars')[p] {
      InSetOf(vars, p);
      InSetOf(vars', p);
      if p in SetOf(vars) {
        var i :| 0 <= i < |vars| && vars[i].path == p;
        assert vars[i] in vars';
      }
      if p in SetOf(vars') {
        var i :| 0 <= i < |vars'| && vars'[i].path == p;
        assert vars'[i] in vars;
      }
    }
  }

  // ---- reading the object back ----

  /** The value of the variable at `p`, taken from under the own-value key where there is an object. */
  function ReadBack(f: Doc, p: Path): Option<string> {
    match f(p)
    case Prim(x) => Some(x)
    case Object => if f(p + [OWN]).Prim? then Some(f(p + [OWN]).x) else None
    case Nothing => None
  }

  /** Where a variable's value sits. */
  ghost function Home(s: map<Path, string>, p: Path): Path { if HasBelow(s, p) then p + [OWN] else p }

  /** Flattening gives back exactly the variables that were put in: every one with its value, and no value besides. */
  lemma Lossless(f: Doc, s: map<Path, string>, p: Path, q: Path)
    requires GoodSet(s) && Holds(f, s, [])
    ensures GoodPath(p) ==> ReadBack(f, p) == if p in s then Some(s[p]) else None
    ensures f(q).Prim? <==> exists r :: r in s && q == Home(s, r)
    ensures p in s ==> f(Home(s, p)) == Prim(s[p])
  {
    assert f(p) == BuiltOpen(s, [], p) && f(p + [OWN]) == BuiltOpen(s, [], p + [OWN]) && f(q) == BuiltOpen(s, [], q);
    OwnIsLeaf(s);
    if p != [] {
      OwnAt(s, p);
    }
    if GoodPath(p) {
      PrefixOfGood(p, p);
    }
    if f(q).Prim? {
      if q in s && !HasBelow(s, q) {
        assert q == Home(s, q);
      } else {
        var init := q[..|q| - 1];
        assert q == init + [OWN];
        assert q == Home(s, init);
      }
    }
    if r :| r in s && q == Home(s, r) {
      OwnAt(s, r);
      assert GoodPath(r);
      PrefixOfGood(r, r);
    }
  }

  // ---- the object spelled out ----

  /** Where everything sits, with the own-value key written out. */
  lemma SitsExactly(f: Doc, s: map<Path, string>, q: Path)
    requires GoodSet(s) && Holds(f, s, [])
    ensures f(q).Object? <==> q != [] && exists p :: p in s && q < p
    ensures forall x :: f(q) == Prim(x) <==>
              || (q in s && s[q] == x && !exists p :: p in s && q < p)
              || (q != [] && q[|q| - 1] == "_value" && q[..|q| - 1] in s && s[q[..|q| - 1]] == x
                  && exists p :: p in s && q[..|q| - 1] < p)
  {
    assert f(q) == BuiltOpen(s, [], q);
    assert [] !in s by { assert [] in s ==> GoodPath([]); }
    if OWN in q {
      OwnIsNobodys(s, q);
      if q != [] && q[|q| - 1] == OWN && q[..|q| - 1] in s && OWN in q[..|q| - 1] {
        OwnIsNobodys(s, q[..|q| - 1]);
      }
    }
  }

  /** A variable with others below it keeps its value under `_value`, and no other variable's value is there. */
  lemma OwnValue(f: Doc, s: map<Path, string>, p: Path)
    requires GoodSet(s) && Holds(f, s, []) && p in s && exists q :: q in s && p < q
    ensures f(p) == Object && f(p + ["_value"]) == Prim(s[p])
    ensures forall r | r in s && r != p :: Home(s, r) != p + ["_value"] && Home(s, r) != p
  {
    var t := p + [OWN];
    assert t[|t| - 1] == OWN && t[..|t| - 1] == p;
    SitsExactly(f, s, p);
    SitsExactly(f, s, t);
    assert GoodPath(p);
    forall r | r in s && r != p ensures Home(s, r) != t && Home(s, r) != p {
      HomesApart(s, p, r);
    }
  }

  lemma HomesApart(s: map<Path, string>, p: Path, r: Path)
    requires GoodSet(s) && p in s && r in s && r != p
    ensures Home(s, r) != p + [OWN] && Home(s, r) != p
  {
    assert GoodPath(r) && GoodPath(p);
    PrefixOfGood(r, r);
    PrefixOfGood(p, p);
    var t, t' := p + [OWN], r + [OWN];
    assert t[..|p|] == p && t'[..|r|] == r && t[|p|] == OWN && t'[|r|] == OWN;
    assert OWN in t && OWN in t';
  }

  /** Every path of non-empty words other than `_value` can be a variable, and so can the one word `_value` itself. */
  lemma GoodPathsExactly(p: Path)
    ensures GoodPath(p) <==> p == ["_value"] || (p != [] && forall i | 0 <= i < |p| :: p[i] != "" && p[i] != "_value")
  {
    assert forall i | 0 <= i < |p| :: p[i] in p;
  }

  // ---- empty words ----

  /** An empty word before others is passed over. */
  lemma {:induction false} EmptyWordSkipped(f: Doc, cur: Path, a: seq<string>, b: seq<string>, v: string)
    requires |b| > 0
    ensures Inserted(f, cur, a + [""] + b, v) == Inserted(f, cur, a + b, v)
    decreases |a|
  {
    var parts := a + [""] + b;
    if a == [] {
      assert parts[1..] == b == a + b;
    } else {
      assert parts[1..] == a[1..] + [""] + b && (a + b)[1..] == a[1..] + b;
      EmptyWordSkipped(f, cur, a[1..], b, v);
      EmptyWordSkipped(Opened(f, cur + [a[0]]), cur + [a[0]], a[1..], b, v);
    }
  }

  /** A name that ends in an empty word stores nothing: every variable keeps the value it had. */
  lemma {:induction false} FinalEmptyStoresNothing(f: Doc, s: map<Path, string>, cur: Path, a: seq<string>, v: string)
    requires GoodSet(s) && Holds(f, s, cur) && forall w | w in a :: w != "" && w != OWN
    ensures Holds(Inserted(f, cur, a + [""], v), s, cur + a)
    decreases |a|
  {
    if a == [] {
      assert a + [""] == [""] && cur + a == cur;
    } else {
      hide BuiltOpen, Opened;
      assert a[0] in a && forall w | w in a[1..] :: w in a;
      assert (a + [""])[1..] == a[1..] + [""] && cur + a == cur + [a[0]] + a[1..];
      OpenStep(f, s, cur, a[0]);
      FinalEmptyStoresNothing(Opened(f, cur + [a[0]]), s, cur + [a[0]], a[1..], v);
    }
  }

  lemma OwnAt(s: map<Path, string>, p: Path)
    requires GoodSet(s) && p != []
    ensures BuiltOpen(s, [], p + [OWN]) == if p in s && HasBelow(s, p) then Prim(s[p]) else Nothing
  {
    var q := p + [OWN];
    assert q[|p|] == OWN && q[..|q| - 1] == p;
    OwnIsNobodys(s, q);
    assert p in s ==> GoodPath(p);
  }
}
