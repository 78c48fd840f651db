/** Names whose children are spelled like other variables: exactly when a whole read still returns the nodes below. */
module Misreads {
  import opened Text
  import opened FlatStore
  import opened Keys
  import opened Subscriptions
  import opened Wildcard
  import opened Walks

  /** The names a read of `n` tells denote the nodes within reach below `n`, and no others. */
  ghost predicate RightNodes(d: Store, n: string, rels: seq<Path>) {
    forall q :: q in NamedNodes(n, rels) <==> InReach(d, NodeOf(n), q)
  }

  lemma NodeTold(d: Store, n: string, rels: seq<Path>, q: Path)
    requires Walk(d, n, rels)
    ensures q in NamedNodes(n, rels) <==> exists rel :: InWalk(d, n, rel) && NodeOf(Spelled(n, rel)) == q
  {
    hide NodeOf, InWalk, Spelled, DeepestFirst;
    var ps := NamedNodes(n, rels);
    if q in ps {
      var i :| 0 <= i < |ps| && ps[i] == q;
      assert rels[i] in rels;
    }
    if rel :| InWalk(d, n, rel) && NodeOf(Spelled(n, rel)) == q {
      assert rel in rels;
      var i :| 0 <= i < |rels| && rels[i] == rel;
      assert ps[i] == q;
    }
  }

  lemma OwnReach(d: Store, n: string)
    ensures InWalk(d, n, []) <==> InReach(d, NodeOf(n), NodeOf(n))
    ensures NodeOf(Spelled(n, [])) == NodeOf(n)
  {
    hide NodeOf;
    var p := NodeOf(n);
    assert p[|p|..] == [];
  }

  /** What is told through child `k` is what is within reach of the node the child's name denotes. */
  lemma ToldThrough(d: Store, n: string, k: string, c: Path, rest: Path)
    requires Closed(d) && Spellable(d, ChildName(n, k)) && NodeOf(ChildName(n, k)) == c
    ensures InWalk(d, n, [k] + rest) <==> Plain(k) && NodeOf(n) + [k] in d && InReach(d, c, c + rest)
    ensures InWalk(d, n, [k] + rest) ==> NodeOf(Spelled(n, [k] + rest)) == c + rest
  {
    hide NodeOf, ChildName, ChildWords, Plain, InWalk, Spelled, InReach, Closed, Spellable;
    ToldBelow(d, n, k, rest);
    ToldReach(d, ChildName(n, k), rest);
    SpelledStep(n, k, rest);
    ChildWordsIn(d, NodeOf(n), k);
  }

  lemma ReachStarts(d: Store, p: Path, q: Path)
    requires InReach(d, p, q)
    ensures p <= q && q == p + q[|p|..] && q in d
    ensures forall i | |p| <= i < |q| :: Plain(q[i])
  {
    forall i | |p| <= i < |q| ensures Plain(q[i]) {
      assert q[|p|..][i - |p|] == q[i];
    }
  }

  lemma ChildInStore(d: Store, n: string, k: string, rest: Path)
    requires Closed(d) && InWalk(d, n, [k] + rest)
    ensures Plain(k) && NodeOf(n) + [k] in d && '.' !in k
  {
    hide NodeOf, ChildName, ChildWords, Plain, Closed, InWalk;
    ToldBelow(d, n, k, rest);
    NodeNotEmpty(n);
    ChildThere(d, NodeOf(n), k);
  }

  lemma FirstWord(rel: Path)
    requires rel != []
    ensures rel == [rel[0]] + rel[1..]
  {
  }

  // ---- names that end in a dot ----

  lemma DottedNode(m: string, k: string)
    requires EndsIn(m, '.') && k != "" && '.' !in k
    ensures NodePath(Dot(m, k)) == NodePath(m) + ["", k]
  {
    var up := m[..|m| - 1];
    assert m == up + "." + "" == up + ['.'] + "";
    hide Split, NodePath;
    NodePathExtend(up, "");
    SplitConcat(up, "", '.');
    SplitPiece("", '.');
    NodePathExtend(m, k);
    WordPath(k);
    assert Split(up, '.') + [""] + [k] == Split(up, '.') + ["", k];
  }

  lemma ControlledEnds(n: string)
    requires EndsIn(n, '.')
    ensures EndsIn(Controlled(n), '.')
  {
  }

  lemma DottedSteady(d: Store, n: string, k: string)
    requires EndsIn(n, '.') && k != "" && '.' !in k
    ensures Spellable(d, Dot(n, k)) && n != "" && n != "vars"
  {
    var m := Dot(n, k);
    assert m[|m| - 1] == k[|k| - 1] && k[|k| - 1] in k;
    assert '.' in m && '.' !in "vars";
    hide Childless;
  }

  lemma DottedChild(d: Store, n: string, k: string)
    requires EndsIn(n, '.') && k != "" && '.' !in k
    ensures NodeOf(ChildName(n, k)) == NodeOf(n) + ["", k] && Spellable(d, ChildName(n, k))
  {
    hide Split, NodePath, Controlled, Spellable, Dot;
    DottedSteady(d, n, k);
    ControlledEnds(n);
    ControlledChild(n, k);
    DottedNode(Controlled(n), k);
  }

  /** Where a read of a name that ends in a dot looks for the children of its node. */
  function Aside(p: Path, k: string): Path { p + ["", k] }

  lemma DottedTold(d: Store, n: string, rel: Path)
    requires Closed(d) && EndsIn(n, '.') && InWalk(d, n, rel) && rel != []
    ensures var p, q := NodeOf(n), NodeOf(Spelled(n, rel));
            Plain(rel[0]) && p + [rel[0]] in d && InReach(d, Aside(p, rel[0]), q) && !InReach(d, p, q)
  {
    hide NodeOf, InWalk, Spelled, Closed, Plain, InReach, ChildName;
    var p := NodeOf(n);
    FirstWord(rel);
    ChildInStore(d, n, rel[0], rel[1..]);
    PlainIs(rel[0]);
    DottedChild(d, n, rel[0]);
    ToldThrough(d, n, rel[0], Aside(p, rel[0]), rel[1..]);
    NotPlainAt(d, p, rel[0], NodeOf(Spelled(n, rel)));
  }

  lemma DottedLost(d: Store, n: string, rels: seq<Path>, k: string, q: Path)
    requires Closed(d) && EndsIn(n, '.') && Walk(d, n, rels)
    requires Plain(k) && NodeOf(n) + [k] in d && InReach(d, Aside(NodeOf(n), k), q)
    ensures q in NamedNodes(n, rels) && !InReach(d, NodeOf(n), q)
  {
    hide NodeOf, InWalk, Spelled, Walk, Closed, Plain, InReach, ChildName;
    var p := NodeOf(n);
    PlainIs(k);
    WordOf(d, p, k);
    DottedChild(d, n, k);
    ReachStarts(d, Aside(p, k), q);
    ToldThrough(d, n, k, Aside(p, k), q[|p| + 2..]);
    NodeTold(d, n, rels, q);
    NotPlainAt(d, p, k, q);
  }

  /**
   A whole read of a name that ends in a dot returns the right nodes exactly when nothing but the node itself
   is within reach, and nothing is within reach of where its children are looked for.
   */
  lemma DottedRightExactly(d: Store, n: string, rels: seq<Path>)
    requires Closed(d) && EndsIn(n, '.') && Walk(d, n, rels)
    ensures RightNodes(d, n, rels) <==>
              && (forall q | InReach(d, NodeOf(n), q) :: q == NodeOf(n))
              && (forall k, q {:trigger InReach(d, Aside(NodeOf(n), k), q)} | Plain(k) && NodeOf(n) + [k] in d ::
                    !InReach(d, Aside(NodeOf(n), k), q))
  {
    var p := NodeOf(n);
    hide NodeOf, InWalk, Spelled, Walk, Closed, Plain, InReach, ChildName, Aside, NamedNodes;
    OwnReach(d, n);
    if RightNodes(d, n, rels) {
      forall q | InReach(d, p, q) ensures q == p {
        NodeTold(d, n, rels, q);
        var rel :| InWalk(d, n, rel) && NodeOf(Spelled(n, rel)) == q;
        if rel != [] {
          DottedTold(d, n, rel);
        }
      }
      forall k, q | Plain(k) && p + [k] in d ensures !InReach(d, Aside(p, k), q) {
        if InReach(d, Aside(p, k), q) {
          DottedLost(d, n, rels, k, q);
        }
      }
    }
    forall q
      ensures q in NamedNodes(n, rels) ==>
                InReach(d, p, q) || exists k :: Plain(k) && p + [k] in d && InReach(d, Aside(p, k), q)
      ensures InReach(d, p, q) && q == p ==> q in NamedNodes(n, rels)
    {
      NodeTold(d, n, rels, q);
      if rel :| InWalk(d, n, rel) && NodeOf(Spelled(n, rel)) == q {
        if rel != [] {
          DottedTold(d, n, rel);
        }
      }
    }
  }

  lemma WordOf(d: Store, p: Path, k: string)
    requires Closed(d) && p + [k] in d
    ensures '.' !in k
  {
    assert Rooted(d, p + [k]) && k in p + [k];
  }

  lemma NotPlainAt(d: Store, p: Path, k: string, q: Path)
    requires InReach(d, p + ["", k], q)
    ensures !InReach(d, p, q)
  {
    assert q[|p|] == (p + ["", k])[|p|] == "";
    if p <= q {
      assert q[|p|..][0] == "" && !Plain("");
    }
  }

  // ---- `vars`, whose children are spelled like top-level variables ----

  function Vars(): Path { ["vars", "vars"] }

  function Top(k: string): Path { ["vars", k] }

  lemma AliasSpelled(d: Store, j: string)
    requires j != "" && '.' !in j
    ensures Controlled(Dot("vars", j)) == Dot("vars", j) && ChildName("vars", j) == Dot("vars", j)
    ensures Spellable(d, Dot("vars", j))
  {
    var m := Dot("vars", j);
    assert m[..5] == "vars.";
    assert m[|m| - 1] == j[|j| - 1] && j[|j| - 1] in j;
    assert '.' in m && '.' !in "vars";
    hide Childless;
  }

  lemma AliasChild(d: Store, j: string)
    requires j != "" && '.' !in j
    ensures NodeOf(ChildName("vars", j)) == Top(j) && Spellable(d, ChildName("vars", j))
  {
    AliasSpelled(d, j);
    hide Split, NodePath, Spellable, Controlled, Dot;
    DotPath("vars", j);
    WordPath("vars");
    WordPath(j);
  }

  lemma AliasTold(d: Store, rel: Path)
    requires Closed(d) && InWalk(d, "vars", rel) && rel != []
    ensures var q := NodeOf(Spelled("vars", rel));
            Plain(rel[0]) && Vars() + [rel[0]] in d && q == ["vars"] + rel && InReach(d, Top(rel[0]), q)
  {
    VarsNode();
    hide NodeOf, InWalk, Spelled, Closed, Plain, InReach, ChildName;
    FirstWord(rel);
    ChildInStore(d, "vars", rel[0], rel[1..]);
    PlainIs(rel[0]);
    AliasChild(d, rel[0]);
    ToldThrough(d, "vars", rel[0], Top(rel[0]), rel[1..]);
    assert Top(rel[0]) + rel[1..] == ["vars"] + rel;
  }

  /** What lies below a top-level variable is told under `vars` when that variable's word hangs there. */
  lemma AliasReach(d: Store, j: string, q: Path)
    requires Closed(d) && Plain(j) && Vars() + [j] in d && InReach(d, Top(j), q)
    ensures q == ["vars"] + q[1..] && q[1..] != [] && InWalk(d, "vars", q[1..]) && NodeOf(Spelled("vars", q[1..])) == q
  {
    VarsNode();
    hide NodeOf, InWalk, Spelled, Closed, Plain, InReach, ChildName;
    ReachStarts(d, Top(j), q);
    PlainIs(j);
    WordOf(d, Vars(), j);
    AliasChild(d, j);
    ToldThrough(d, "vars", j, Top(j), q[2..]);
    assert q == Top(j) + q[2..] && q[1..] == [j] + q[2..];
  }

  /** Nothing but the node `vars.vars` is within reach below it. */
  ghost predicate NothingInside(d: Store) { forall q | InReach(d, Vars(), q) :: q == Vars() }

  lemma VarsIs()
    ensures NodeOf("vars") == Vars() && NodeOf("") == ["vars"] && Top("vars") == Vars() && ["vars"] + ["vars"] == Vars()
    ensures Plain("vars") && ChildName("", "vars") == "vars"
  {
    VarsNode();
  }

  lemma VarsExtra(d: Store, rels: seq<Path>, j: string, q: Path)
    requires Closed(d) && Walk(d, "vars", rels)
    requires Plain(j) && j != "vars" && Vars() + [j] in d && InReach(d, Top(j), q)
    ensures q in NamedNodes("vars", rels) && !InReach(d, NodeOf("vars"), q)
  {
    hide *;
    VarsIs();
    AliasReach(d, j, q);
    NodeTold(d, "vars", rels, q);
    SecondWord(d, j, q);
  }

  lemma VarsMissing(d: Store, rels: seq<Path>, q: Path)
    requires Closed(d) && Walk(d, "vars", rels)
    requires InReach(d, Vars(), q) && q != Vars() && q in NamedNodes("vars", rels)
    ensures Vars() + ["vars"] in d
  {
    hide *;
    VarsIs();
    NodeTold(d, "vars", rels, q);
    var rel :| InWalk(d, "vars", rel) && NodeOf(Spelled("vars", rel)) == q;
    OwnReach(d, "vars");
    if rel != [] {
      AliasTold(d, rel);
      SecondIsVars(d, rel, q);
    }
  }

  lemma SecondIsVars(d: Store, rel: Path, q: Path)
    requires rel != [] && q == ["vars"] + rel && InReach(d, Vars(), q)
    ensures rel[0] == "vars"
  {
    assert q[1] == rel[0] && q[1] == Vars()[1];
  }

  lemma VarsCovered(d: Store, rels: seq<Path>, q: Path)
    requires Closed(d) && Walk(d, "vars", rels)
    requires InReach(d, Vars(), q) && (q == Vars() || Vars() + ["vars"] in d)
    ensures q in NamedNodes("vars", rels)
  {
    hide *;
    VarsIs();
    NodeTold(d, "vars", rels, q);
    OwnReach(d, "vars");
    if q != Vars() {
      AliasReach(d, "vars", q);
    }
  }

  lemma VarsNamed(d: Store, rels: seq<Path>, q: Path)
    requires Closed(d) && Walk(d, "vars", rels) && q in NamedNodes("vars", rels)
    ensures InReach(d, Vars(), q) || exists j :: Plain(j) && j != "vars" && Vars() + [j] in d && InReach(d, Top(j), q)
  {
    hide *;
    VarsIs();
    NodeTold(d, "vars", rels, q);
    var rel :| InWalk(d, "vars", rel) && NodeOf(Spelled("vars", rel)) == q;
    OwnReach(d, "vars");
    if rel != [] {
      AliasTold(d, rel);
    }
  }

  /**
   A whole read of `vars` returns the right nodes exactly when no other variable whose word hangs below
   `vars.vars` has anything within reach, and either `vars` hangs there too or nothing inside is within reach.
   */
  lemma VarsRightExactly(d: Store, rels: seq<Path>)
    requires Closed(d) && Walk(d, "vars", rels)
    ensures RightNodes(d, "vars", rels) <==>
              && (forall j, q {:trigger InReach(d, Top(j), q)} | Plain(j) && j != "vars" && Vars() + [j] in d ::
                    !InReach(d, Top(j), q))
              && (Vars() + ["vars"] in d || NothingInside(d))
  {
    VarsIs();
    hide NodeOf, Walk, Closed, Plain, InReach, NamedNodes, Vars, Top;
    if RightNodes(d, "vars", rels) {
      forall j, q | Plain(j) && j != "vars" && Vars() + [j] in d ensures !InReach(d, Top(j), q) {
        if InReach(d, Top(j), q) {
          VarsExtra(d, rels, j, q);
        }
      }
      forall q | InReach(d, Vars(), q) && q != Vars() ensures Vars() + ["vars"] in d {
        VarsMissing(d, rels, q);
      }
    }
    forall q
      ensures q in NamedNodes("vars", rels) ==>
                InReach(d, Vars(), q) || exists j :: Plain(j) && j != "vars" && Vars() + [j] in d && InReach(d, Top(j), q)
      ensures InReach(d, Vars(), q) && (q == Vars() || Vars() + ["vars"] in d) ==> q in NamedNodes("vars", rels)
    {
      if q in NamedNodes("vars", rels) {
        VarsNamed(d, rels, q);
      }
      if InReach(d, Vars(), q) && (q == Vars() || Vars() + ["vars"] in d) {
        VarsCovered(d, rels, q);
      }
    }
  }

  lemma SecondWord(d: Store, j: string, q: Path)
    requires InReach(d, Top(j), q) && j != "vars"
    ensures !InReach(d, Vars(), q)
  {
    assert q[1] == Top(j)[1];
    assert Vars()[1] == "vars";
  }

  // ---- the empty name, which reads everything ----

  lemma TopChild(d: Store, k: string)
    requires k != "" && '.' !in k && k != "vars"
    ensures NodeOf(ChildName("", k)) == Top(k) && Spellable(d, ChildName("", k))
  {
    EmptyIsSteady();
    hide *;
    VarsIs();
    SteadyChild("", k);
    SteadyIsSpellable(d, k);
    TopIs(k);
  }

  lemma EmptyIsSteady()
    ensures Steady("")
  {
  }

  lemma SteadyIsSpellable(d: Store, k: string)
    ensures ChildName("", k) == k
    ensures Steady(k) && k != "" ==> Spellable(d, k)
  {
    hide Childless;
  }

  lemma TopIs(k: string)
    ensures ["vars"] + [k] == Top(k)
  {
  }

  /** Below the child `vars` the read goes where a read of `vars` goes. */
  lemma TopThroughVars(d: Store, rest: Path)
    ensures InWalk(d, "", ["vars"] + rest) <==> Vars() in d && InWalk(d, "vars", rest)
    ensures Spelled("", ["vars"] + rest) == Spelled("vars", rest)
  {
    hide *;
    VarsIs();
    ToldBelow(d, "", "vars", rest);
    SpelledStep("", "vars", rest);
    ChildWordsIn(d, ["vars"], "vars");
  }

  lemma OneDown(d: Store, j: string, q: Path)
    requires Plain(j) && InReach(d, Top(j), q)
    ensures InReach(d, ["vars"], q) && |q| > 1 && q[1] == j
  {
    ReachStarts(d, Top(j), q);
    assert q[0] == Top(j)[0] && q[1] == Top(j)[1];
    assert ["vars"] == q[..1];
    forall w | w in q[1..] ensures Plain(w) {
      var i :| 1 <= i < |q| && q[i] == w;
    }
  }

  lemma OneUp(d: Store, k: string, q: Path)
    requires InReach(d, ["vars"], q) && |q| > 1 && q[1] == k
    ensures Plain(k) && InReach(d, Top(k), q)
  {
    ReachStarts(d, ["vars"], q);
    assert q[0] == ["vars"][0];
    assert q[..2] == Top(k);
    forall w | w in q[2..] ensures Plain(w) {
      var i :| 2 <= i < |q| && q[i] == w;
    }
  }

  lemma TopTold(d: Store, rel: Path)
    requires Closed(d) && InWalk(d, "", rel)
    ensures var q := NodeOf(Spelled("", rel));
            && InReach(d, ["vars"], q)
            && (InReach(d, Vars(), q) && q != Vars() ==> Vars() + ["vars"] in d)
  {
    hide *;
    VarsIs();
    var q := NodeOf(Spelled("", rel));
    if rel == [] {
      OwnReach(d, "");
      TooShort(d, q);
    } else if rel[0] == "vars" {
      FirstWord(rel);
      TopThroughVars(d, rel[1..]);
      OwnReach(d, "vars");
      if rel[1..] == [] {
        OneDown(d, "vars", q);
      } else {
        AliasTold(d, rel[1..]);
        OneDown(d, rel[1..][0], q);
        if InReach(d, Vars(), q) {
          SecondIsVars(d, rel[1..], q);
        }
      }
    } else {
      FirstWord(rel);
      ChildInStore(d, "", rel[0], rel[1..]);
      PlainIs(rel[0]);
      TopChild(d, rel[0]);
      ToldThrough(d, "", rel[0], Top(rel[0]), rel[1..]);
      OneDown(d, rel[0], q);
      SecondWord(d, rel[0], q);
    }
  }

  lemma TooShort(d: Store, q: Path)
    requires q == ["vars"]
    ensures !InReach(d, Vars(), q)
  {
  }

  lemma TopReach(d: Store, q: Path)
    requires Closed(d) && InReach(d, ["vars"], q) && (InReach(d, Vars(), q) && q != Vars() ==> Vars() + ["vars"] in d)
    ensures exists rel :: InWalk(d, "", rel) && NodeOf(Spelled("", rel)) == q
  {
    hide *;
    VarsIs();
    ReachStarts(d, ["vars"], q);
    OwnReach(d, "");
    if |q| == 1 {
      assert q == ["vars"] + [] == ["vars"];
    } else {
      var k := q[1];
      OneUp(d, k, q);
      ParentThere(d, k, q);
      if k == "vars" {
        ReachVars(d, q);
      } else {
        PlainIs(k);
        WordOf(d, ["vars"], k);
        TopChild(d, k);
        ReachStarts(d, Top(k), q);
        TopLength(k);
        ToldThrough(d, "", k, Top(k), q[2..]);
      }
    }
  }

  lemma TopLength(k: string)
    ensures |Top(k)| == 2
  {
  }

  lemma ParentThere(d: Store, k: string, q: Path)
    requires Closed(d) && InReach(d, Top(k), q)
    ensures ["vars"] + [k] in d
  {
    hide Closed;
    PrefixIn(d, q, Top(k));
    assert Top(k) == ["vars"] + [k];
  }

  lemma ReachVars(d: Store, q: Path)
    requires Closed(d) && Vars() in d && InReach(d, Vars(), q) && (q != Vars() ==> Vars() + ["vars"] in d)
    ensures exists rel :: InWalk(d, "", rel) && NodeOf(Spelled("", rel)) == q
  {
    hide *;
    VarsIs();
    if q == Vars() {
      OwnReach(d, "vars");
      TopThroughVars(d, []);
    } else {
      AliasReach(d, "vars", q);
      TopThroughVars(d, q[1..]);
    }
  }

  /** A read of everything returns the right nodes exactly when `vars` hangs below `vars.vars` or nothing there is within reach. */
  lemma TopRightExactly(d: Store, rels: seq<Path>)
    requires Closed(d) && Walk(d, "", rels)
    ensures RightNodes(d, "", rels) <==> Vars() + ["vars"] in d || NothingInside(d)
  {
    VarsIs();
    hide NodeOf, InWalk, Spelled, Walk, Closed, Plain, InReach, NamedNodes, Vars, Top, ChildName;
    forall q
      ensures q in NamedNodes("", rels) ==>
                InReach(d, ["vars"], q) && (InReach(d, Vars(), q) && q != Vars() ==> Vars() + ["vars"] in d)
      ensures InReach(d, ["vars"], q) && (InReach(d, Vars(), q) && q != Vars() ==> Vars() + ["vars"] in d) ==>
                q in NamedNodes("", rels)
      ensures InReach(d, Vars(), q) ==> InReach(d, ["vars"], q)
    {
      NodeTold(d, "", rels, q);
      if rel :| InWalk(d, "", rel) && NodeOf(Spelled("", rel)) == q {
        TopTold(d, rel);
      }
      if InReach(d, ["vars"], q) && (InReach(d, Vars(), q) && q != Vars() ==> Vars() + ["vars"] in d) {
        TopReach(d, q);
      }
      if InReach(d, Vars(), q) {
        OneDown(d, "vars", q);
      }
    }
  }
}
