/** Dumping a store and loading the dump: exactly which stores survive, under every order the dump may visit them in. */
module RoundTrip {
  import opened Text
  import opened FlatStore
  import opened DumpText

  function Reloaded(d: Store, order: seq<Path>): Store { LoadText(EMPTY, DumpLines(d, order)) }

  lemma {:induction false} LastLineIsLast(lines: seq<string>, p: Path, i: nat)
    requires i < |lines| && Sets(lines[i], p)
    ensures LastLine(lines, p) >= i
  {
    hide Sets;
    var n := |lines| - 1;
    if i < n {
      assert lines[..n][i] == lines[i];
      LastLineIsLast(lines[..n], p, i);
    }
  }

  lemma {:induction false} ReachedBy(lines: seq<string>, p: Path) returns (i: nat)
    requires Reached(lines, p)
    ensures i < |lines| && Reaches(lines[i], p)
  {
    hide Reaches;
    var n := |lines| - 1;
    if Reaches(lines[n], p) {
      i := n;
    } else {
      i := ReachedBy(lines[..n], p);
      assert lines[..n][i] == lines[i];
    }
  }

  lemma {:induction false} ReachesIsReached(lines: seq<string>, p: Path, i: nat)
    requires i < |lines| && Reaches(lines[i], p)
    ensures Reached(lines, p)
  {
    hide Reaches;
    var n := |lines| - 1;
    if i < n {
      assert lines[..n][i] == lines[i];
      ReachesIsReached(lines[..n], p, i);
    }
  }

  lemma {:induction false} EntryLineAt(d: Store, order: seq<Path>, i: nat)
    requires i < |order|
    ensures EntryLines(d, order)[i] == EntryLine(d, order[i])
  {
    hide EntryLine;
    if i > 0 {
      EntryLineAt(d, order[1..], i - 1);
    }
  }

  /** Where the entry of a path lands when its key is read back. */
  function Dest(p: Path): Path { NodePath(KeyText(p)) }

  // ---- anything a load produces is clean ----

  lemma {:induction false} SplitChars(s: string, sep: char, c: char)
    requires c !in s
    ensures forall w | w in Split(s, sep) :: c !in w
    decreases |s|
  {
    hide IndexOf;
    SplitStep(s, sep);
    var i := IndexOf(s, sep);
    if i >= 0 {
      SplitChars(s[i + 1..], sep, c);
    }
  }

  lemma LoadedIsClean(text: string, p: Path)
    requires p in LoadText(EMPTY, text)
    ensures Clean(p, LoadText(EMPTY, text)[p])
  {
    var lines := Split(text, '\n');
    SplitWords(text, '\n');
    hide Split, NodePath, LoadLines, LastLine;
    LoadedStore(EMPTY, lines, p);
    var i := ReachedBy(lines, p);
    ReachKeepsClean(lines[i], p);
    var j := LastLine(lines, p);
    if j >= 0 {
      assert '\n' !in lines[j];
    }
  }

  lemma ReachKeepsClean(line: string, p: Path)
    requires '\n' !in line && Reaches(line, p)
    ensures forall w | w in p :: '=' !in w && '\n' !in w
  {
    var key := Parse(line).key;
    SplitChars(key, '.', '=');
    SplitChars(key, '.', '\n');
    hide Split;
    assert forall w | w in p :: w in NodePath(key);
  }

  // ---- reading a clean dump ----

  lemma CleanDumpLoads(d: Store, order: seq<Path>)
    requires forall p | p in order :: Clean(p, Val(d, p))
    ensures Reloaded(d, order) == LoadLines(EMPTY, EntryLines(d, order))
  {
    hide Split, EntryLine;
    forall p | p in order ensures '\n' !in EntryLine(d, p) {
      ParseEntry(d, p);
    }
    DumpSplits(d, order);
    var ls := EntryLines(d, order);
    assert (ls + [""])[..|ls|] == ls;
  }

  lemma EntrySets(d: Store, order: seq<Path>, i: nat, p: Path)
    requires i < |order| && Clean(order[i], Val(d, order[i]))
    ensures Parse(EntryLines(d, order)[i]) == Assign(KeyText(order[i]), Val(d, order[i]))
    ensures Sets(EntryLines(d, order)[i], p) <==> Dest(order[i]) == p
    ensures Reaches(EntryLines(d, order)[i], p) <==> p != [] && p <= Dest(order[i])
  {
    hide NodePath, KeyText, EntryLine, Parse;
    EntryLineAt(d, order, i);
    ParseEntry(d, order[i]);
  }

  /** A value found after loading a clean dump was dumped for a path that lands there. */
  lemma LoadedFrom(d: Store, order: seq<Path>, p: Path) returns (i: nat)
    requires forall q | q in order :: Clean(q, Val(d, q))
    requires Val(Reloaded(d, order), p) != ""
    ensures i < |order| && Dest(order[i]) == p
    ensures Val(Reloaded(d, order), p) == Val(d, order[i])
  {
    hide Dest, LoadLines, LastLine, Clean, Parse, Sets;
    var ls := EntryLines(d, order);
    CleanDumpLoads(d, order);
    LoadedStore(EMPTY, ls, p);
    i := LastLine(ls, p);
    EntrySets(d, order, i, p);
  }

  // ---- the theorem ----

  /** With every value back in place, every valued path must have been its own landing place. */
  lemma {:induction false} SurvivorsAreCanonical(d: Store, order: seq<Path>, p: Path, bound: nat)
    requires Closed(d) && Visits(d, [], order)
    requires forall q | q in order :: Clean(q, Val(d, q)) && |q| <= bound
    requires SameValues(d, Reloaded(d, order))
    requires p in order
    ensures Canonical(p)
    decreases bound - |p|
  {
    assert Val(d, p) != "";
    hide Dest, Clean, Canonical, Visits, Reloaded;
    if !Canonical(p) {
      var i := LoadedFrom(d, order, p);
      LandingOf(d, order, order[i]);
      if !Canonical(order[i]) {
        SurvivorsAreCanonical(d, order, order[i], bound);
      }
    }
  }

  lemma LandingOf(d: Store, order: seq<Path>, p: Path)
    requires Closed(d) && Visits(d, [], order) && p in order
    ensures Canonical(p) ==> Dest(p) == p
    ensures !Canonical(p) ==> |Dest(p)| < |p|
  {
    assert Rooted(d, p);
    hide NodePath, KeyText;
    Landing(p);
  }

  lemma {:induction false} LongestPath(order: seq<Path>) returns (bound: nat)
    ensures forall p | p in order :: |p| <= bound
  {
    bound := 0;
    if order != [] {
      bound := LongestPath(order[1..]);
      bound := if bound < |order[0]| then |order[0]| else bound;
      assert forall p | p in order :: p == order[0] || p in order[1..];
    }
  }

  /** A safe store comes back value by value, on exactly the nodes that lead to a value. */
  lemma SafeStoreReturns(d: Store, order: seq<Path>, p: Path)
    requires Closed(d) && Visits(d, [], order) && DumpSafe(d)
    ensures Val(Reloaded(d, order), p) == Val(d, p)
    ensures p in Reloaded(d, order) <==> p != [] && exists q :: q in order && p <= q
  {
    forall q | q in order ensures Clean(q, Val(d, q)) && Dest(q) == q {
      LandingOf(d, order, q);
    }
    var ls := EntryLines(d, order);
    CleanDumpLoads(d, order);
    hide Dest, LoadLines, LastLine, Clean, Parse, Sets, Reaches, Reached, Reloaded, DumpSafe;
    LoadedStore(EMPTY, ls, p);
    if Reached(ls, p) {
      var i := ReachedBy(ls, p);
      EntrySets(d, order, i, p);
      assert order[i] in order;
    }
    if q :| q in order && p != [] && p <= q {
      var i :| 0 <= i < |order| && order[i] == q;
      EntrySets(d, order, i, p);
      ReachesIsReached(ls, p, i);
    }
    if p in order {
      var i :| 0 <= i < |order| && order[i] == p;
      EntrySets(d, order, i, p);
      LastLineIsLast(ls, p, i);
      assert p <= p;
    }
    var j := LastLine(ls, p);
    if j >= 0 {
      EntrySets(d, order, j, p);
    }
  }

  /** The dump is faithful exactly for the stores whose valued paths and values its format can carry. */
  lemma RoundTripExactly(d: Store, order: seq<Path>)
    requires Closed(d) && Visits(d, [], order)
    ensures SameValues(d, Reloaded(d, order)) <==> DumpSafe(d)
  {
    hide Reloaded;
    if DumpSafe(d) {
      forall p ensures Val(Reloaded(d, order), p) == Val(d, p) {
        SafeStoreReturns(d, order, p);
      }
    }
    if SameValues(d, Reloaded(d, order)) {
      forall p | p in order ensures Clean(p, Val(d, p)) {
        assert Val(Reloaded(d, order), p) == Val(d, p);
        ReloadedIsClean(d, order, p);
      }
      var bound := LongestPath(order);
      forall p | p in order ensures Canonical(p) {
        SurvivorsAreCanonical(d, order, p, bound);
      }
      RootIsNoPath(d);
    }
  }

  lemma ReloadedIsClean(d: Store, order: seq<Path>, p: Path)
    requires p in Reloaded(d, order)
    ensures Clean(p, Reloaded(d, order)[p])
  {
    LoadedIsClean(DumpLines(d, order), p);
  }

  lemma RootIsNoPath(d: Store)
    requires Closed(d)
    ensures forall p | p in d :: [] < p
  {
    forall p | p in d ensures [] < p {
      assert Rooted(d, p);
    }
  }
}
