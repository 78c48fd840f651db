/** Values with a line end in them: what a restart makes of their lines. */
module LineEnds {
  import opened Text
  import opened FlatStore
  import opened DumpText
  import opened RoundTrip
  import opened Keys
  import opened Views
  import opened Subscriptions
  import opened Bookkeeping
  import opened Wildcard
  import opened Writes
  import opened ServerRuns

  lemma ParseAssignment(name: string, x: string)
    requires '=' !in name
    ensures Parse(name + "=" + x) == Assign(name, x)
  {
    var line := name + "=" + x;
    assert line[..|name|] == name && line[|name|] == '=';
    IndexOfAt(line, '=', |name|);
    assert line[|name| + 1..] == x;
    assert '=' in line && !IsSpace('=');
  }

  /** The last line that sets a path gives its value. */
  lemma {:induction false} LastLineIs(lines: seq<string>, p: Path, i: nat)
    requires i < |lines| && Sets(lines[i], p) && forall j | i < j < |lines| :: !Sets(lines[j], p)
    ensures LastLine(lines, p) == i
  {
    hide Sets;
    var n := |lines| - 1;
    if i < n {
      assert lines[..n][i] == lines[i];
      LastLineIs(lines[..n], p, i);
    }
  }

  lemma LastLineWins(lines: seq<string>, p: Path, i: nat)
    requires p != [] && i < |lines| && Sets(lines[i], p) && forall j | i < j < |lines| :: !Sets(lines[j], p)
    ensures Parse(lines[i]).Assign? && Val(LoadLines(EMPTY, lines), p) == Parse(lines[i]).value
  {
    assert Parse(lines[i]).Assign?;
    hide Sets, Parse, LoadLines;
    LastLineIs(lines, p, i);
    LoadedStore(EMPTY, lines, p);
    SetIsReached(lines, p);
  }

  /** The dump with one value in the middle that ends one line and holds another. */
  lemma DumpAround(d: Store, q: Path, a: string, line: string, before: seq<Path>, after: seq<Path>)
    requires Val(d, q) == a + "\n" + line && '\n' !in line
    requires forall p | p in after :: '\n' !in EntryLine(d, p)
    ensures Split(DumpLines(d, before + [q] + after), '\n')
         == Split(DumpLines(d, before) + KeyText(q) + "=" + a, '\n') + [line] + (EntryLines(d, after) + [""])
  {
    hide Split, DumpLines, EntryLines, KeyText;
    DumpLinesConcat(d, before + [q], after);
    DumpLinesConcat(d, before, [q]);
    OneEntry(d, q);
    DumpSplits(d, after);
    var head, rest := DumpLines(d, before) + KeyText(q) + "=" + a, DumpLines(d, after);
    assert DumpLines(d, before + [q] + after) == head + ['\n'] + (line + ['\n'] + rest) by {
      Joined(DumpLines(d, before), KeyText(q), a, line, rest);
    }
    SplitConcat(head, line + ['\n'] + rest, '\n');
    SplitConcat(line, rest, '\n');
    SplitPiece(line, '\n');
    assert Split(head, '\n') + ([line] + Split(rest, '\n')) == Split(head, '\n') + [line] + Split(rest, '\n');
  }

  lemma Joined(b: string, k: string, a: string, line: string, rest: string)
    ensures b + (k + "=" + (a + "\n" + line) + "\n") + rest == (b + k + "=" + a) + ['\n'] + (line + ['\n'] + rest)
  {
  }

  lemma OneEntry(d: Store, q: Path)
    ensures DumpLines(d, [q]) == KeyText(q) + "=" + Val(d, q) + "\n"
  {
    hide KeyText;
    assert [q][1..] == [];
  }

  /** What is written into a dump-safe store leaves every other entry a clean, canonical one. */
  lemma OthersStaySafe(d: Store, q: Path, x: string, before: seq<Path>, after: seq<Path>, p: Path)
    requires Closed(d) && DumpSafe(d) && q != [] && (forall w | w in q :: '.' !in w)
    requires Visits(Put(d, q, x), [], before + [q] + after) && p in after
    ensures var d' := Put(d, q, x);
            p != q && Val(d', p) == Val(d, p) && Clean(p, Val(d', p)) && Dest(p) == p && '\n' !in EntryLine(d', p)
  {
    var d', order := Put(d, q, x), before + [q] + after;
    var i :| 0 <= i < |after| && after[i] == p;
    assert order[|before|] == q && order[|before| + 1 + i] == p;
    assert p in order;
    PutVal(d, q, x, p);
    assert p in d && d[p] == d'[p] != "";
    hide Dest, Put;
    PutClosed(d, q, x);
    LandingOf(d', order, p);
    ParseEntry(d', p);
  }

  /**
   A value with a line end in it is not one value after a restart: whatever its last line assigns is
   assigned, to any entry, bookkeeping included, unless the dump still comes to that entry's own line.
   */
  lemma LineEndAssigns(
    d: Store, q: Path, a: string, name: string, x: string, before: seq<Path>, after: seq<Path>
  )
    requires Closed(d) && DumpSafe(d) && q != [] && (forall w | w in q :: '.' !in w)
    requires CleanText(name) && '\n' !in x
    requires Visits(Put(d, q, a + "\n" + (name + "=" + x)), [], before + [q] + after)
    ensures Val(Reloaded(Put(d, q, a + "\n" + (name + "=" + x)), before + [q] + after), NodePath(name))
         == if NodePath(name) in after then Val(d, NodePath(name)) else x
  {
    hide *;
    var line, p := name + "=" + x, NodePath(name);
    var v := a + "\n" + line;
    var d' := Put(d, q, v);
    PutVal(d, q, v, q);
    OneLineIs(name, x);
    forall r | r in after ensures '\n' !in EntryLine(d', r) {
      OthersStaySafe(d, q, v, before, after, r);
    }
    DumpAround(d', q, a, line, before, after);
    var front := Split(DumpLines(d', before) + KeyText(q) + "=" + a, '\n');
    LoadedIs(d', before + [q] + after);
    AfterLines(d, q, v, before, after, name, x, front);
  }

  lemma OneLineIs(name: string, x: string)
    requires CleanText(name) && '\n' !in x
    ensures '\n' !in name + "=" + x
  {
  }

  lemma LoadedIs(d: Store, order: seq<Path>)
    ensures Reloaded(d, order) == LoadLines(EMPTY, Split(DumpLines(d, order), '\n'))
  {
  }

  lemma NoneAfter(front: seq<string>, line: string, entries: seq<string>, p: Path)
    requires p != [] && Sets(line, p) && !Sets("", p) && forall i | 0 <= i < |entries| :: !Sets(entries[i], p)
    ensures Parse(line).Assign? && Val(LoadLines(EMPTY, front + [line] + (entries + [""])), p) == Parse(line).value
  {
    hide Parse, Sets, LoadLines;
    var all, k := front + [line] + (entries + [""]), |front| + 1;
    assert all[|front|] == line;
    forall j | |front| < j < |all| ensures !Sets(all[j], p) {
      assert all[j] == (entries + [""])[j - k];
    }
    LastLineWins(all, p, |front|);
  }

  lemma LastAfter(front: seq<string>, line: string, entries: seq<string>, p: Path, i: nat)
    requires p != [] && i < |entries| && Sets(entries[i], p) && !Sets("", p)
    requires forall j | i < j < |entries| :: !Sets(entries[j], p)
    ensures Parse(entries[i]).Assign?
    ensures Val(LoadLines(EMPTY, front + [line] + (entries + [""])), p) == Parse(entries[i]).value
  {
    hide Parse, Sets, LoadLines;
    var all, k := front + [line] + (entries + [""]), |front| + 1;
    assert all[k + i] == (entries + [""])[i] == entries[i];
    forall j | k + i < j < |all| ensures !Sets(all[j], p) {
      assert all[j] == (entries + [""])[j - k];
    }
    LastLineWins(all, p, k + i);
  }

  lemma EntriesSet(d: Store, q: Path, v: string, before: seq<Path>, after: seq<Path>, p: Path, i: nat)
    requires Closed(d) && DumpSafe(d) && q != [] && (forall w | w in q :: '.' !in w) && i < |after|
    requires Visits(Put(d, q, v), [], before + [q] + after)
    ensures var line := EntryLines(Put(d, q, v), after)[i];
            && (Sets(line, p) <==> after[i] == p)
            && (after[i] == p ==> Parse(line).Assign? && Parse(line).value == Val(d, p))
  {
    hide Sets, Parse, KeyText, Dest, Put, DumpSafe, Closed, Visits, EntryLine, Clean;
    OthersStaySafe(d, q, v, before, after, after[i]);
    EntrySets(Put(d, q, v), after, i, p);
  }

  lemma BlankSetsNothing(p: Path)
    ensures !Sets("", p)
  {
  }

  lemma AfterLines(
    d: Store, q: Path, v: string, before: seq<Path>, after: seq<Path>, name: string, x: string, front: seq<string>
  )
    requires Closed(d) && DumpSafe(d) && q != [] && (forall w | w in q :: '.' !in w)
    requires CleanText(name) && Visits(Put(d, q, v), [], before + [q] + after)
    ensures Val(LoadLines(EMPTY, front + [name + "=" + x] + (EntryLines(Put(d, q, v), after) + [""])), NodePath(name))
         == if NodePath(name) in after then Val(d, NodePath(name)) else x
  {
    hide *;
    var entries, p := EntryLines(Put(d, q, v), after), NodePath(name);
    BlankSetsNothing(p);
    NameSets(name, x);
    forall i | 0 <= i < |after|
      ensures Sets(entries[i], p) <==> after[i] == p
      ensures after[i] == p ==> Parse(entries[i]).Assign? && Parse(entries[i]).value == Val(d, p)
    {
      EntriesSet(d, q, v, before, after, p, i);
    }
    if p in after {
      var i :| 0 <= i < |after| && after[i] == p;
      OnceAfter(Put(d, q, v), q, before, after, i);
      LastAfter(front, name + "=" + x, entries, p, i);
    } else {
      NoneAfter(front, name + "=" + x, entries, p);
    }
  }

  lemma NameSets(name: string, x: string)
    requires CleanText(name)
    ensures Sets(name + "=" + x, NodePath(name)) && Parse(name + "=" + x) == Assign(name, x)
  {
    ParseAssignment(name, x);
    hide Parse, NodePath;
  }

  lemma OnceAfter(d: Store, q: Path, before: seq<Path>, after: seq<Path>, i: nat)
    requires Visits(d, [], before + [q] + after) && i < |after|
    ensures forall j | i < j < |after| :: after[j] != after[i]
  {
    var order, k := before + [q] + after, |before| + 1;
    assert forall j | 0 <= j < |after| :: order[k + j] == after[j];
  }

  /**
   So an accepted write to one variable locks another one, which nobody locked, at the next restart,
   from any dump-safe store that holds no flag for that variable.
   */
  lemma ValueLocksAnother(d: Store, n: string, b: string, before: seq<Path>, after: seq<Path>)
    requires Closed(d) && DumpSafe(d) && Acceptable(n) && '*' !in n && NameOk(b) && CleanText(b)
    requires View(d, LockFlag(PathOfVar(b))) == ""
    requires Visits(Written(d, n, LockLine(b)), [], before + [NodeOf(n)] + after)
    ensures var d' := Written(d, n, LockLine(b));
            !Locked(d', PathOfVar(b)) && Locked(Reloaded(d', before + [NodeOf(n)] + after), PathOfVar(b))
  {
    hide *;
    var v, x, name := PathOfVar(b), LockLine(b), Full(b) + "._lock";
    var d', order := Written(d, n, x), before + [NodeOf(n)] + after;
    WrittenIsPut(d, n, x);
    LockName(b);
    NameIsFull(b);
    LockNameIsClean(b);
    LockLineIs(b);
    LineEndAssigns(d, NodeOf(n), "", name, "1", before, after);
    WriteSparesMeta(d, n, x);
    MetaSameLock(d, d', v);
    LockReads(Reloaded(d', order), v);
    LockReads(d', v);
    NotVisited(d', before, NodeOf(n), after, PathOf(LockFlag(v)));
  }

  lemma NotVisited(d: Store, before: seq<Path>, q: Path, after: seq<Path>, p: Path)
    requires Visits(d, [], before + [q] + after) && Val(d, p) == ""
    ensures p !in after
  {
    assert p in after ==> p in before + [q] + after;
  }

  /** A value whose second line reads like a locked variable's entry in the dump. */
  function LockLine(b: string): string { "\n" + Full(b) + "._lock=1" }

  lemma LockLineIs(b: string)
    ensures LockLine(b) == "" + "\n" + ((Full(b) + "._lock") + "=" + "1")
  {
    hide Full;
    var s := Full(b);
    assert "._lock=1" == "._lock" + "=" + "1";
  }

  lemma WrittenIsPut(d: Store, n: string, x: string)
    requires Acceptable(n) && '*' !in n
    ensures !HasHiddenWord(n)
    ensures NodeOf(n) != [] && Written(d, n, x) == Put(d, NodeOf(n), x)
    ensures forall w | w in NodeOf(n) :: '.' !in w
  {
    NodePathWords(Controlled(n));
    hide NodePath, Put, HasHiddenWord;
  }

  lemma LockName(b: string)
    ensures NodePath(Full(b) + "._lock") == PathOf(LockFlag(Split(Full(b), '.')))
  {
    hide NodePath, Split, PathOf, Full;
    var v := Split(Full(b), '.');
    LockNameIs(Full(b), v);
    NameDenotes(Full(b), LockFlag(v));
  }

  lemma NameIsFull(b: string)
    requires NameOk(b)
    ensures PathOfVar(b) == Split(Full(b), '.')
  {
  }

  lemma LockNameIs(base: string, v: Path)
    ensures NameOf(base, LockFlag(v)) == base + "._lock"
  {
  }

  lemma LockNameIsClean(b: string)
    requires CleanText(b)
    ensures CleanText(Full(b) + "._lock") && CleanText("1")
  {
  }

  lemma LockReads(d: Store, v: Path)
    ensures View(d, LockFlag(v)) == Val(d, PathOf(LockFlag(v)))
    ensures Locked(d, v) <==> View(d, LockFlag(v)) != "0" && View(d, LockFlag(v)) != ""
  {
  }
}
