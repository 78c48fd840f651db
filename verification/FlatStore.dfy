/**
 The store as its callers think of it: a finite map from word paths to values.
 A path in the map is an existing node; nodes nobody wrote a value to hold "".
 */
module FlatStore {
  import opened Text

  type Path = seq<string>
  type Store = map<Path, string>

  const EMPTY: Store := map[]

  function Up(p: Path): Path
    requires p != []
  {
    p[..|p| - 1]
  }

  function Last(p: Path): string
    requires p != []
  {
    p[|p| - 1]
  }

  // ---- from dotted names to paths ----

  /** The node a dotted name denotes: one trailing empty word is dropped, every other word counts. */
  function NodePath(name: string): (p: Path)
    ensures |p| > 0
  {
    var ws := Split(name, '.');
    if |ws| > 1 && ws[|ws| - 1] == "" then ws[..|ws| - 1] else ws
  }

  lemma NodePathWords(name: string)
    ensures forall w | w in NodePath(name) :: '.' !in w
  {
    SplitWords(name, '.');
  }

  /** What is left of a name after its first word, in the order the tree walk consumes it. */
  lemma NodePathStep(name: string)
    ensures var i := IndexOf(name, '.');
            if i < 0 then NodePath(name) == [name]
            else if name[i + 1..] == "" then NodePath(name) == [name[..i]]
            else NodePath(name) == [name[..i]] + NodePath(name[i + 1..])
  {
    hide Split, IndexOf;
    SplitStep(name, '.');
    var i := IndexOf(name, '.');
    if i >= 0 {
      var first, rest := name[..i], Split(name[i + 1..], '.');
      assert Split(name, '.') == [first] + rest;
      assert ([first] + rest)[..|rest|] == [first] + rest[..|rest| - 1];
      if rest[|rest| - 1] == "" {
        assert |rest| > 1 || name[i + 1..] == "" by { JoinSplit(name[i + 1..], '.'); }
      }
      SplitPiece("", '.');
    }
  }

  /** Names below a variable: everything before the joining dot is kept word for word. */
  lemma NodePathExtend(a: string, b: string)
    ensures NodePath(a + "." + b) == Split(a, '.') + if b == "" then [] else NodePath(b)
  {
    hide Split;
    var sa, ws := Split(a, '.'), Split(b, '.');
    var front, last := ws[..|ws| - 1], ws[|ws| - 1];
    assert Split(a + "." + b, '.') == sa + ws by {
      SplitConcat(a, b, '.');
      assert a + "." + b == a + ['.'] + b;
    }
    assert (sa + ws)[|sa + ws| - 1] == last;
    assert (sa + ws)[..|sa + ws| - 1] == sa + front;
    SplitPiece("", '.');
    if last == "" && b != "" {
      assert |ws| > 1 by { JoinSplit(b, '.'); }
    }
  }

  /** Only names that end in a dot lose a word. */
  lemma NodePathIsSplit(name: string)
    requires name == "" || name[|name| - 1] != '.'
    ensures NodePath(name) == Split(name, '.')
  {
    hide Split;
    var ws := Split(name, '.');
    var n := |ws| - 1;
    if n > 0 {
      JoinSplit(name, '.');
      assert ws == ws[..n] + [ws[n]];
      JoinConcat(ws[..n], [ws[n]], '.');
    }
  }

  // ---- the store's operations ----

  /** A node's shorter paths are nodes too, and no word holds a dot, so every path can be spelled as a name. */
  ghost predicate Rooted(d: Store, p: Path) {
    && p != []
    && (forall k | 1 <= k < |p| :: p[..k] in d)
    && (forall w | w in p :: '.' !in w)
  }

  /** The shape of every store: the nodes are the non-empty paths of a tree. */
  ghost predicate Closed(d: Store) {
    forall p {:trigger Rooted(d, p)} | p in d :: Rooted(d, p)
  }

  lemma PrefixIn(d: Store, p: Path, q: Path)
    requires Closed(d) && p in d && q <= p && q != []
    ensures q in d
  {
    assert Rooted(d, p);
    assert q == p[..|q|];
    assert |q| < |p| || q == p;
  }

  function Prefixes(p: Path): (ps: set<Path>)
    ensures forall q :: q in ps <==> q != [] && q <= p
  {
    var ps := set k | 1 <= k <= |p| :: p[..k];
    assert forall q | q != [] && q <= p :: q == p[..|q|];
    ps
  }

  /** Creates the missing nodes on the way to `p`. */
  function Touch(d: Store, p: Path): Store {
    map q | q in d.Keys + Prefixes(p) :: if q in d then d[q] else ""
  }

  function Put(d: Store, p: Path, v: string): Store { Touch(d, p)[p := v] }

  function Lookup(d: Store, p: Path, defaultValue: string): string {
    if p in d then d[p] else defaultValue
  }

  /** The value at a path, absent read as empty. */
  function Val(d: Store, p: Path): string { if p in d then d[p] else "" }

  function ChildWords(d: Store, p: Path): set<string> {
    set q | q in d && |q| == |p| + 1 && q[..|p|] == p :: q[|p|]
  }

  predicate Childless(d: Store, p: Path) { forall q | q in d && p <= q :: q == p }

  /** What is not at or below `p`. */
  function Pruned<T>(m: map<Path, T>, p: Path): map<Path, T> { map q | q in m && !(p <= q) :: m[q] }

  /** Deleting with cascade drops the subtree; without it only a childless node goes, any other keeps an empty value. */
  function Remove(d: Store, p: Path, cascade: bool): Store {
    if p !in d then d
    else if cascade || Childless(d, p) then Pruned(d, p)
    else d[p := ""]
  }

  lemma ChildWordsIn(d: Store, p: Path, w: string)
    ensures w in ChildWords(d, p) <==> p + [w] in d
  {
    if p + [w] in d {
      assert (p + [w])[|p|] == w && (p + [w])[..|p|] == p;
    }
    if w in ChildWords(d, p) {
      var q :| q in d && |q| == |p| + 1 && q[..|p|] == p && q[|p|] == w;
      assert q == p + [w];
    }
  }

  lemma PutClosed(d: Store, p: Path, v: string)
    requires Closed(d) && p != [] && forall w | w in p :: '.' !in w
    ensures Closed(Put(d, p, v))
  {
    var d' := Put(d, p, v);
    forall q | q in d' ensures Rooted(d', q) {
      if q in Prefixes(p) {
        forall k | 1 <= k < |q| ensures q[..k] in d' {
          assert q[..k] <= p;
        }
      } else {
        assert Rooted(d, q);
      }
    }
  }

  lemma RemoveClosed(d: Store, p: Path, cascade: bool)
    requires Closed(d)
    ensures Closed(Remove(d, p, cascade))
  {
    var d' := Remove(d, p, cascade);
    forall q | q in d' ensures Rooted(d', q) {
      assert Rooted(d, q);
      forall k | 1 <= k < |q| ensures q[..k] in d' {
        if p <= q[..k] {
          assert p <= q;
        }
      }
    }
  }

  lemma NoPrefix(a: Path, b: Path, i: nat)
    requires i < |a| && (i < |b| ==> a[i] != b[i])
    ensures !(a <= b)
  {
  }

  /** In a closed store a node has nothing below it exactly when it has no child words. */
  lemma ChildlessByWords(d: Store, p: Path)
    requires Closed(d) && p in d
    ensures Childless(d, p) <==> ChildWords(d, p) == {}
  {
    if ChildWords(d, p) != {} {
      var w :| w in ChildWords(d, p);
      ChildWordsIn(d, p, w);
      assert p <= p + [w];
    }
    if !Childless(d, p) {
      var q :| q in d && p <= q && q != p;
      var c := q[..|p| + 1];
      PrefixIn(d, q, c);
      assert c == p + [q[|p|]];
      ChildWordsIn(d, p, q[|p|]);
    }
  }

  lemma NoChilds(d: Store, p: Path)
    requires Closed(d) && p != [] && p !in d
    ensures ChildWords(d, p) == {}
  {
    forall w ensures w !in ChildWords(d, p) {
      ChildWordsIn(d, p, w);
      if p + [w] in d {
        PrefixIn(d, p + [w], p);
      }
    }
  }

  lemma TouchPresent(d: Store, p: Path)
    requires Closed(d) && p in d
    ensures Touch(d, p) == d
  {
    forall q | q in Prefixes(p) ensures q in d {
      PrefixIn(d, p, q);
    }
  }

  lemma TouchStep(d: Store, cp: Path, w: string)
    requires Closed(d) && (cp == [] || cp in d) && cp + [w] !in d
    ensures Touch(d, cp + [w]) == d[cp + [w] := ""]
  {
    var np := cp + [w];
    forall q | q in Prefixes(np) && q != np ensures q in d {
      assert q == np[..|q|] == cp[..|q|];
      PrefixIn(d, cp, q);
    }
  }

  lemma TouchTwice(d: Store, p: Path, q: Path)
    requires p <= q
    ensures Touch(Touch(d, p), q) == Touch(d, q)
  {
  }

  lemma PrunedIgnores(d: Store, p: Path, v: string)
    ensures Pruned(d[p := v], p) == Pruned(d, p)
  {
  }
}
