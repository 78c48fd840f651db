/** Wildcard reads and deletes beside the methods that run them: what is stripped, spelled, answered and deleted. */
module Reading {
  import opened Text
  import opened FlatStore
  import opened Keys
  import opened Bookkeeping
  import opened Wildcard
  import opened Writes
  import opened Walks

  datatype GetResult = Values(pairs: seq<Pair>) | NoName | WildcardNotLast

  /** How many steps before the children of a name are always spelled below it. */
  function Stage(n: string): nat { if n == "" then 2 else if n == "vars" then 1 else 0 }

  lemma PlainChildren(d: Store, p: Path, childs: seq<string>)
    requires forall w :: w in childs <==> w in ChildWords(d, p) && w != "" && w[0] != '_'
    ensures forall w :: w in childs <==> w in ChildWords(d, p) && Plain(w)
  {
  }

  /** Every step of a read goes to a smaller part of the store, or one stage on. */
  lemma ChildShrinks(d: Store, n: string, k: string)
    requires Closed(d) && k in ChildWords(d, NodeOf(n)) && Plain(k)
    ensures n + "." + k == Dot(n, k) && "" + k == k
    ensures ChildName(n, k) == if n == "" then k else Dot(n, k)
    ensures var child := ChildName(n, k);
            Stage(child) < Stage(n) || (Stage(child) == Stage(n) && Below(d, NodeOf(child)) < Below(d, NodeOf(n)))
  {
    NodeNotEmpty(n);
    ChildThere(d, NodeOf(n), k);
    PlainIs(k);
    hide NodeOf, ChildWords, Below, Plain, Closed;
    assert n != "" ==> '.' in Dot(n, k);
    if n != "" && n != "vars" {
      ChildNodeBelow(n, k);
      DeeperIsSmaller(d, NodeOf(n), NodeOf(Dot(n, k)));
    }
  }

  lemma NextWord(ws: seq<string>, i: nat)
    requires i < |ws| && forall a, b | 0 <= a < b < |ws| :: ws[a] != ws[b]
    ensures ws[..i + 1] == ws[..i] + [ws[i]] && ws[i] !in ws[..i]
  {
  }

  // ---- the wildcard at the end of a name ----

  /** The name without a final `*` and up to two dots before it. */
  function Base(name: string): string { if EndsIn(name, '*') then DropDot(DropDot(name[..|name| - 1])) else name }

  /** Which names are read below which base. */
  lemma BaseExactly(name: string, n: string)
    requires EndsIn(name, '*')
    ensures Base(name) == n <==> name == n + "..*" || (!EndsIn(n, '.') && (name == n + ".*" || name == n + "*"))
  {
    var cut := name[..|name| - 1];
    assert name == cut + "*";
    assert EndsIn(cut, '.') ==> cut == cut[..|cut| - 1] + ".";
    var cut' := DropDot(cut);
    assert EndsIn(cut', '.') ==> cut' == cut'[..|cut'| - 1] + ".";
    if name == n + "..*" {
      assert cut == n + ".." && cut[..|cut| - 1] == n + "." && (n + ".")[..|n|] == n;
    }
    if name == n + ".*" {
      assert cut == n + "." && cut[..|cut| - 1] == n;
    }
    if name == n + "*" {
      assert cut == n;
    }
    if Base(name) == n {
      if EndsIn(cut, '.') && EndsIn(cut', '.') {
        assert name == n + "." + "." + "*" == n + "..*";
      } else if EndsIn(cut, '.') {
        assert name == n + "." + "*" == n + ".*";
      }
    }
  }

  /** Takes the wildcard off; a `*` elsewhere is refused unless one also ends the name. */
  method StripWildcard(name: string) returns (ok: bool, namep: string, childsToo: bool)
    requires name != ""
    ensures ok <==> '*' !in name || EndsIn(name, '*')
    ensures ok ==> namep == Base(name) && (childsToo <==> EndsIn(name, '*'))
    ensures namep <= name
  {
    SuffixStar(name);
    ok, namep, childsToo := true, name, false;
    if '*' in namep {
      if HasSuffix(namep, "*") {
        childsToo := true;
        ghost var cut := name[..|name| - 1];
        if HasSuffix(namep, ".*") {
          namep := namep[..|namep| - 2];
        } else {
          namep := namep[..|namep| - 1];
        }
        assert namep == DropDot(cut);
        if HasSuffix(namep, ".") {
          namep := namep[..|namep| - 1];
        }
        assert namep == DropDot(DropDot(cut)) == Base(name);
      } else {
        ok := false;
      }
    }
  }

  lemma SuffixStar(name: string)
    ensures HasSuffix(name, "*") <==> EndsIn(name, '*')
    ensures HasSuffix(name, ".*") <==> EndsIn(name, '*') && EndsIn(name[..|name| - 1], '.')
    ensures forall s {:trigger HasSuffix(s, ".")} :: HasSuffix(s, ".") <==> EndsIn(s, '.')
    ensures EndsIn(name, '*') ==> '*' in name
  {
    LastOne(name, '*');
    LastTwo(name);
    hide HasSuffix, EndsIn;
    forall s ensures HasSuffix(s, ".") <==> EndsIn(s, '.') {
      LastOne(s, '.');
    }
  }

  lemma LastOne(s: string, c: char)
    ensures HasSuffix(s, [c]) <==> EndsIn(s, c)
    ensures EndsIn(s, c) ==> c in s
  {
    assert s != "" ==> s[|s| - 1..] == [s[|s| - 1]];
  }

  lemma LastTwo(s: string)
    ensures HasSuffix(s, ".*") <==> EndsIn(s, '*') && EndsIn(s[..|s| - 1], '.')
  {
    if |s| >= 2 {
      assert s[|s| - 2..] == [s[|s| - 2], s[|s| - 1]];
    }
  }

  /** The answer to a whole read: what it tells, or the default under the base itself. */
  ghost predicate AnswersWalk(d: Store, n: string, defaultValue: string, r: GetResult, rels: seq<Path>) {
    Walk(d, n, rels) && r == Values(if rels == [] then [Pair(n, defaultValue)] else WalkPairs(d, n, rels))
  }

  /** Where children can be spelled, that is everything within reach below `n`, under the names of the nodes. */
  ghost predicate AnswersWildcard(d: Store, n: string, defaultValue: string, r: GetResult, order: seq<Path>) {
    var p := NodeOf(n);
    && Reads(d, p, order)
    && AllBelow(p, order)
    && r == Values(if order == [] then [Pair(n, defaultValue)] else Pairs(d, n, p, order))
  }

  lemma WalkAnswers(d: Store, n: string, defaultValue: string, r: GetResult, rels: seq<Path>)
    requires Closed(d) && Spellable(d, n) && AnswersWalk(d, n, defaultValue, r, rels)
    ensures AnswersWildcard(d, n, defaultValue, r, PathsOf(NodeOf(n), rels))
  {
    hide Walk, NodeOf, Reads, AllBelow, Spellable, Closed, WalkPairs, Pairs;
    WalkReads(d, n, rels);
  }

  /** After `DelVar(n.*)` a read of `n.*` answers with the default alone, whatever the name and whatever order it walks in. */
  lemma DeletedAnswersDefault(d: Store, n: string, rels: seq<Path>, defaultValue: string, r: GetResult, again: seq<Path>)
    requires Walk(d, n, rels)
    requires AnswersWalk(Cleared(d, Deletes(n, rels)), n, defaultValue, r, again)
    ensures r == Values([Pair(n, defaultValue)])
  {
    hide InWalk, DeepestFirst, Cleared, Deletes, WalkPairs;
    NothingTold(d, n, rels);
    var d' := Cleared(d, Deletes(n, rels));
    forall rel ensures rel !in again {
      assert rel !in [] ==> !InWalk(d', n, rel);
    }
    SomeIn(again);
  }

  lemma SomeIn(rels: seq<Path>)
    ensures rels != [] ==> exists rel :: rel in rels
  {
    assert rels != [] ==> rels[0] in rels;
  }

  lemma PrefixHidden(n: string, k: nat)
    requires k <= |n|
    ensures HasHiddenWord(n[..k]) ==> HasHiddenWord(n)
  {
    InternalNames(n);
    InternalNames(n[..k]);
    hide HasHiddenWord;
    if LooksInternal(n[..k]) && !Hidden(n[..k]) {
      var i :| 0 <= i < k && DotUnderscore(n[..k], i);
      assert DotUnderscore(n, i);
    }
  }

  function NodesOf(ps: seq<Pair>): (nodes: seq<Path>)
    ensures |nodes| == |ps| && forall i | 0 <= i < |ps| :: nodes[i] == NodeOf(ps[i].name)
  {
    seq(|ps|, i requires 0 <= i < |ps| => NodeOf(ps[i].name))
  }

  lemma AllNodes(d: Store, ps: seq<Pair>)
    ensures Cleared(d, NodesOf(ps[..0])) == d
  {
  }

  lemma ClearedNext(d: Store, ps: seq<Pair>, i: nat)
    requires i < |ps|
    ensures Cleared(d, NodesOf(ps[..i + 1])) == Remove(Cleared(d, NodesOf(ps[..i])), NodeOf(ps[i].name), false)
  {
    hide NodeOf, Cleared;
    var a := NodesOf(ps[..i + 1]);
    assert a[..i] == NodesOf(ps[..i]);
    ClearedLast(d, a);
  }

  lemma OneCleared(d: Store, n: string, ps: seq<Pair>)
    requires |ps| == 1 && ps[0].name == n
    ensures Cleared(d, NodesOf(ps)) == Remove(d, NodeOf(n), false)
  {
    hide NodeOf, Remove;
    assert NodesOf(ps)[..0] == [];
  }

  /** The deletes go to the nodes the read's names denote. */
  lemma WalkedNodes(d: Store, n: string, rels: seq<Path>, ps: seq<Pair>)
    requires ps == if rels == [] then [Pair(n, "")] else WalkPairs(d, n, rels)
    ensures NodesOf(ps) == Deletes(n, rels)
  {
    hide NodeOf, Spelled;
  }

  lemma OneSparesExactly(d: Store, n: string)
    ensures MetaSame(d, Remove(d, NodeOf(n), false)) <==> Spares(d, n, [])
  {
    hide NodeOf, HasHiddenWord, Meta, Remove, MetaSame, NothingToDelete;
    NodeIsMeta(n);
    RemoveSparesExactly(d, NodeOf(n));
  }

  lemma OneSparesRecords(d: Store, n: string)
    ensures RecordsSame(d, Remove(d, NodeOf(n), false)) <==> SparesRecords(d, n, [])
  {
    hide NodeOf, NamesObservers, OfRecords, Remove, RecordsSame, NothingToDelete;
    NodeIsOfRecords(n);
    RemoveSparesRecords(d, NodeOf(n));
  }

  /** The base of a name has no hidden word the name does not have. */
  lemma BaseHidden(name: string)
    ensures HasHiddenWord(Base(name)) ==> HasHiddenWord(name)
  {
    assert Base(name) == name[..|Base(name)|];
    PrefixHidden(name, |Base(name)|);
  }

  lemma NoHiddenSpares(d: Store, n: string, rels: seq<Path>)
    requires !HasHiddenWord(n)
    ensures Spares(d, n, rels)
  {
  }

  // ---- what a new observer is told ----

  lemma ChildNameIs(n: string, w: string)
    ensures ChildName(n, w) == if n == "" then w else Dot(n, w)
  {
  }

  function ChildPairs(d: Store, n: string, words: seq<string>): seq<Pair> {
    seq(|words|, i requires 0 <= i < |words| => Pair(ChildName(n, words[i]), Val(d, NodeOf(ChildName(n, words[i])))))
  }

  ghost predicate TellsCurrent(payload: seq<Pair>, d: Store, n: string) {
    exists words ::
      && (forall w :: w in words <==> w in ChildWords(d, NodeOf(n)) && Plain(w))
      && (forall i, j | 0 <= i < j < |words| :: words[i] != words[j])
      && payload == OwnPair(d, n) + ChildPairs(d, n, words)
  }

  function OwnPair(d: Store, n: string): seq<Pair> {
    if Val(d, NodeOf(n)) != "" then [Pair(n, Val(d, NodeOf(n)))] else []
  }

  lemma OwnPairIs(d: Store, n: string)
    ensures OwnPair(d, n) == if Val(d, NodeOf(n)) != "" then [Pair(n, Val(d, NodeOf(n)))] else []
  {
  }

  lemma NoChildPairs(d: Store, n: string)
    ensures ChildPairs(d, n, []) == []
  {
  }

  lemma MoreChildPairs(d: Store, n: string, words: seq<string>, i: nat)
    requires i < |words|
    ensures ChildPairs(d, n, words[..i + 1]) ==
              ChildPairs(d, n, words[..i]) + [Pair(ChildName(n, words[i]), Val(d, NodeOf(ChildName(n, words[i]))))]
  {
    hide NodeOf, ChildName;
  }

  lemma Tells(d: Store, n: string, words: seq<string>)
    requires forall w :: w in words <==> w in ChildWords(d, NodeOf(n)) && Plain(w)
    requires forall i, j | 0 <= i < j < |words| :: words[i] != words[j]
    ensures TellsCurrent(OwnPair(d, n) + ChildPairs(d, n, words), d, n)
  {
    hide NodeOf, ChildWords, Plain, ChildPairs;
  }

  /** It is told the variable's own value, if it has one, and each visible child by name, with or without a value. */
  lemma TellsExactly(payload: seq<Pair>, d: Store, n: string, x: Pair)
    requires TellsCurrent(payload, d, n)
    ensures x in payload <==>
              || (x.name == n && x.value == Val(d, NodeOf(n)) && x.value != "")
              || exists w :: w in ChildWords(d, NodeOf(n)) && w != "" && w[0] != '_'
                             && x.name == (if n == "" then w else n + "." + w) && x.value == Val(d, NodeOf(x.name))
    ensures |payload| == |set w | w in ChildWords(d, NodeOf(n)) && Plain(w)| + if Val(d, NodeOf(n)) != "" then 1 else 0
  {
    hide NodeOf, ChildWords;
    var words :|
      && (forall w :: w in words <==> w in ChildWords(d, NodeOf(n)) && Plain(w))
      && (forall i, j | 0 <= i < j < |words| :: words[i] != words[j])
      && payload == OwnPair(d, n) + ChildPairs(d, n, words);
    var cs := ChildPairs(d, n, words);
    assert x in payload <==> x in OwnPair(d, n) || x in cs;
    forall w | w in words ensures Pair(ChildName(n, w), Val(d, NodeOf(ChildName(n, w)))) in cs {
      var i :| 0 <= i < |words| && words[i] == w;
      assert cs[i] == Pair(ChildName(n, w), Val(d, NodeOf(ChildName(n, w))));
    }
    if x in cs {
      var i :| 0 <= i < |cs| && cs[i] == x;
      assert words[i] in words;
    }
    DistinctCount(words, set w | w in ChildWords(d, NodeOf(n)) && Plain(w));
  }

  lemma {:induction false} DistinctCount(words: seq<string>, all: set<string>)
    requires (forall w :: w in words <==> w in all) && forall i, j | 0 <= i < j < |words| :: words[i] != words[j]
    ensures |words| == |all|
    decreases |words|
  {
    if words == [] {
      assert all == {};
    } else {
      var n := |words| - 1;
      assert words == words[..n] + [words[n]];
      DistinctCount(words[..n], all - {words[n]});
    }
  }
}
