/** The dump file: what is written for a store, what reading it back puts into one, and when the two agree. */
module DumpText {
  import opened Text
  import opened FlatStore

  // ---- reading ----

  /** White space as `strings.TrimSpace` understands it. */
  predicate IsSpace(c: char) {
    || c in {' ', '\t', '\n', '\r', '\U{000B}', '\U{000C}', '\U{0085}', '\U{00A0}', '\U{1680}'}
    || '\U{2000}' <= c <= '\U{200A}'
    || c in {'\U{2028}', '\U{2029}', '\U{202F}', '\U{205F}', '\U{3000}'}
  }

  predicate Blank(line: string) { forall c | c in line :: IsSpace(c) }

  datatype Directive = Skip | Assign(key: string, value: string)

  /** Blank lines and lines without `=` say nothing; otherwise the first `=` ends the key. */
  function Parse(line: string): Directive {
    var i := IndexOf(line, '=');
    if Blank(line) || i < 0 then Skip else Assign(line[..i], line[i + 1..])
  }

  function LoadLine(d: Store, line: string): Store {
    match Parse(line)
    case Skip => d
    case Assign(key, value) => Put(d, NodePath(key), value)
  }

  function LoadLines(d: Store, lines: seq<string>): Store {
    if lines == [] then d else LoadLine(LoadLines(d, lines[..|lines| - 1]), lines[|lines| - 1])
  }

  function LoadText(d: Store, text: string): Store { LoadLines(d, Split(text, '\n')) }

  // ---- what a loaded store holds, without running the loop ----

  predicate Sets(line: string, p: Path) {
    var e := Parse(line);
    e.Assign? && NodePath(e.key) == p
  }

  predicate Reaches(line: string, p: Path) {
    var e := Parse(line);
    e.Assign? && p != [] && p <= NodePath(e.key)
  }

  /** Some line names `p` or a path below it. */
  predicate Reached(lines: seq<string>, p: Path) {
    lines != [] && (Reaches(lines[|lines| - 1], p) || Reached(lines[..|lines| - 1], p))
  }

  /** The last line that sets `p`, or -1. */
  function LastLine(lines: seq<string>, p: Path): (i: int)
    ensures -1 <= i < |lines|
    ensures i >= 0 ==> Sets(lines[i], p)
  {
    if lines == [] then -1
    else if Sets(lines[|lines| - 1], p) then |lines| - 1
    else LastLine(lines[..|lines| - 1], p)
  }

  lemma {:induction false} SetIsReached(lines: seq<string>, p: Path)
    requires p != [] && LastLine(lines, p) >= 0
    ensures Reached(lines, p)
  {
    if !Sets(lines[|lines| - 1], p) {
      SetIsReached(lines[..|lines| - 1], p);
    }
  }

  lemma LoadedLine(d: Store, line: string, p: Path)
    ensures p in LoadLine(d, line) <==> p in d || Reaches(line, p)
    ensures Reaches(line, p) ==> p != []
    ensures p in LoadLine(d, line) ==>
              LoadLine(d, line)[p] == if Sets(line, p) then Parse(line).value else Val(d, p)
  {
    hide Parse;
    var e := Parse(line);
    if e.Assign? {
      var q := NodePath(e.key);
      hide NodePath;
      assert p in Prefixes(q) <==> p != [] && p <= q;
      assert q in Prefixes(q);
    }
  }

  /** A node exists afterwards if it did before or some line names it or something below it; the last line to set it wins. */
  lemma {:induction false} LoadedStore(d: Store, lines: seq<string>, p: Path)
    ensures p in LoadLines(d, lines) <==> p in d || Reached(lines, p)
    ensures p in LoadLines(d, lines) ==>
              LoadLines(d, lines)[p] ==
              var i := LastLine(lines, p); if i >= 0 then Parse(lines[i]).value else Val(d, p)
  {
    hide NodePath, Parse, LoadLine, Reaches, Sets;
    if lines != [] {
      var n := |lines| - 1;
      LoadedStore(d, lines[..n], p);
      LoadedLine(LoadLines(d, lines[..n]), lines[n], p);
      var i := LastLine(lines[..n], p);
      if i >= 0 {
        assert lines[..n][i] == lines[i];
        if p != [] {
          SetIsReached(lines[..n], p);
        }
      }
    }
  }

  // ---- the same, word for word ----

  /** The line is a key that denotes `p`, the first `=`, and `v`. */
  ghost predicate Gives(line: string, p: Path, v: string) {
    exists key :: '=' !in key && line == key + "=" + v && NodePath(key) == p
  }

  /** No text of the form `key=value` for this path. */
  ghost predicate Silent(line: string, p: Path) { forall v :: !Gives(line, p, v) }

  /** A line without `=` says nothing; any other is read as what stands before its first `=` and after it. */
  lemma LineSays(line: string, key: string, v: string)
    ensures '=' !in line <==> Parse(line) == Skip
    ensures '=' !in key ==> Parse(key + "=" + v) == Assign(key, v)
  {
    if '=' in line {
      assert !IsSpace('=');
    }
    if '=' !in key {
      var text := key + "=" + v;
      assert text[..|key|] == key && text[|key|] == '=' && text[|key| + 1..] == v;
      IndexOfAt(text, '=', |key|);
      assert '=' in text && !IsSpace('=');
    }
  }

  lemma GivesExactly(line: string, p: Path, v: string)
    ensures Gives(line, p, v) <==> Sets(line, p) && Parse(line).value == v
  {
    hide NodePath, Blank;
    var e := Parse(line);
    if e.Assign? {
      assert line == e.key + "=" + e.value && '=' !in e.key by { AssignIs(line); }
    }
    forall key | '=' !in key && line == key + "=" + v ensures e == Assign(key, v) {
      LineSays(line, key, v);
    }
  }

  lemma AssignIs(line: string)
    requires Parse(line).Assign?
    ensures '=' !in Parse(line).key && line == Parse(line).key + "=" + Parse(line).value
  {
    var i := IndexOf(line, '=');
    assert line == line[..i] + [line[i]] + line[i + 1..];
  }

  /** Line `i` is the last that gives `p` a value, and gives it `v`. */
  ghost predicate LastGives(lines: seq<string>, i: int, p: Path, v: string) {
    0 <= i < |lines| && Gives(lines[i], p, v) && forall j | i < j < |lines| :: Silent(lines[j], p)
  }

  /** No line gives `p` a value. */
  ghost predicate NeverGiven(lines: seq<string>, p: Path) { forall j | 0 <= j < |lines| :: Silent(lines[j], p) }

  /** Some line gives a value to `p` or to a path below it. */
  ghost predicate SomethingAt(lines: seq<string>, p: Path) {
    exists i, q, v :: 0 <= i < |lines| && p <= q && Gives(lines[i], q, v)
  }

  /** What is read back, line by line: the last line for a path wins, other paths stay, and nodes lead to what was given. */
  ghost predicate TakesLines(d: Store, lines: seq<string>, d': Store) {
    && (forall p, i, v | LastGives(lines, i, p, v) :: p in d' && d'[p] == v)
    && (forall p | NeverGiven(lines, p) :: Val(d', p) == Val(d, p))
    && (forall p :: p in d' <==> p in d || (p != [] && SomethingAt(lines, p)))
  }

  lemma {:induction false} LastGiven(lines: seq<string>, p: Path, i: nat, v: string)
    requires LastGives(lines, i, p, v)
    ensures LastLine(lines, p) == i && Parse(lines[i]).value == v
  {
    hide Parse, NodePath, Sets;
    var n := |lines| - 1;
    GivesExactly(lines[i], p, v);
    if i < n {
      SilentExactly(lines[n], p);
      assert lines[..n][i] == lines[i];
      assert forall j | i < j < n :: lines[..n][j] == lines[j];
      LastGiven(lines[..n], p, i, v);
    }
  }

  lemma SilentExactly(line: string, p: Path)
    ensures Silent(line, p) <==> !Sets(line, p)
  {
    hide Gives;
    if Sets(line, p) {
      GivesExactly(line, p, Parse(line).value);
    }
    forall v ensures Gives(line, p, v) ==> Sets(line, p) {
      GivesExactly(line, p, v);
    }
  }

  lemma {:induction false} NoneGiven(lines: seq<string>, p: Path)
    requires NeverGiven(lines, p)
    ensures LastLine(lines, p) == -1
  {
    hide Sets, Silent;
    if lines != [] {
      var n := |lines| - 1;
      SilentExactly(lines[n], p);
      assert forall j | 0 <= j < n :: lines[..n][j] == lines[j];
      NoneGiven(lines[..n], p);
    }
  }

  lemma ReachesExactly(line: string, p: Path)
    ensures Reaches(line, p) <==> p != [] && exists q, v :: p <= q && Gives(line, q, v)
  {
    hide NodePath, Parse;
    var e := Parse(line);
    if Reaches(line, p) {
      GivesExactly(line, NodePath(e.key), e.value);
    }
    if q, v :| p <= q && Gives(line, q, v) {
      GivesExactly(line, q, v);
    }
  }

  lemma {:induction false} ReachedExactly(lines: seq<string>, p: Path)
    ensures Reached(lines, p) <==> p != [] && SomethingAt(lines, p)
  {
    hide Reaches, Gives;
    if lines != [] {
      var n := |lines| - 1;
      ReachedExactly(lines[..n], p);
      ReachesExactly(lines[n], p);
      if SomethingAt(lines, p) {
        var i, q, v :| 0 <= i < |lines| && p <= q && Gives(lines[i], q, v);
        assert i < n ==> Gives(lines[..n][i], q, v);
      }
      if SomethingAt(lines[..n], p) {
        var i, q, v :| 0 <= i < n && p <= q && Gives(lines[..n][i], q, v);
        assert Gives(lines[i], q, v);
      }
    }
  }

  /** Loading any lines into any store does that. */
  lemma LoadTakesLines(d: Store, lines: seq<string>)
    ensures TakesLines(d, lines, LoadLines(d, lines))
  {
    hide LoadLines, LastLine, Reached, SomethingAt, NeverGiven, LastGives, Parse;
    var d' := LoadLines(d, lines);
    forall p, i: int, v | LastGives(lines, i, p, v) ensures p in d' && d'[p] == v {
      LastGivenThere(d, lines, p, i, v);
    }
    forall p | NeverGiven(lines, p) ensures Val(d', p) == Val(d, p) {
      NoneGiven(lines, p);
      LoadedStore(d, lines, p);
    }
    forall p ensures p in d' <==> p in d || (p != [] && SomethingAt(lines, p)) {
      LoadedStore(d, lines, p);
      ReachedExactly(lines, p);
    }
  }

  lemma TextTakesLines(d: Store, text: string)
    ensures TakesLines(d, Split(text, '\n'), LoadText(d, text))
  {
    LoadTakesLines(d, Split(text, '\n'));
  }

  lemma LastGivenThere(d: Store, lines: seq<string>, p: Path, i: int, v: string)
    requires LastGives(lines, i, p, v)
    ensures p in LoadLines(d, lines) && LoadLines(d, lines)[p] == v
  {
    LastGiven(lines, p, i, v);
    LoadedStore(d, lines, p);
    hide LoadLines, LastLine, Parse;
    GivenPath(lines[i], p, v);
    SetIsReached(lines, p);
  }

  lemma GivenPath(line: string, p: Path, v: string)
    requires Gives(line, p, v)
    ensures p != []
  {
  }

  /** A text without any `=` changes nothing at all. */
  lemma {:induction false} NothingSaid(d: Store, lines: seq<string>)
    requires forall i | 0 <= i < |lines| :: '=' !in lines[i]
    ensures LoadLines(d, lines) == d
  {
    if lines != [] {
      hide Parse;
      var n := |lines| - 1;
      NothingSaid(d, lines[..n]);
      LineSays(lines[n], "", "");
    }
  }

  /** The constructor loads the file twice; the second time changes nothing, whatever the file says. */
  lemma LoadTwice(text: string)
    ensures LoadText(LoadText(EMPTY, text), text) == LoadText(EMPTY, text)
  {
    hide LoadLines, Split, LastLine;
    var lines := Split(text, '\n');
    var once := LoadLines(EMPTY, lines);
    var twice := LoadLines(once, lines);
    forall p
      ensures p in twice <==> p in once
      ensures p in once ==> twice[p] == once[p]
    {
      LoadedStore(EMPTY, lines, p);
      LoadedStore(once, lines, p);
    }
  }

  // ---- writing ----

  /** The key the dump writes for a path: a prefix is added only while it is not empty. */
  function KeyText(p: Path): string {
    if p == [] then ""
    else
      var parent := KeyText(p[..|p| - 1]);
      (if parent != "" then parent + "." else "") + p[|p| - 1]
  }

  lemma KeyTextStep(cp: Path, k: string)
    ensures KeyText(cp + [k]) == (if KeyText(cp) != "" then KeyText(cp) + "." else "") + k
  {
    assert (cp + [k])[..|cp|] == cp;
  }

  function EntryLine(d: Store, p: Path): string { KeyText(p) + "=" + Val(d, p) }

  /** The dump that visits the paths in this order. */
  function DumpLines(d: Store, order: seq<Path>): string {
    if order == [] then "" else EntryLine(d, order[0]) + "\n" + DumpLines(d, order[1..])
  }

  /** The valued paths strictly below `cp`, each once, in some order. */
  ghost predicate Visits(d: Store, cp: Path, order: seq<Path>) {
    && (forall p :: p in order <==> p in d && cp < p && d[p] != "")
    && (forall i, j | 0 <= i < j < |order| :: order[i] != order[j])
  }

  /** The text is a dump of what lies below `cp`, in one order or another. */
  ghost predicate IsDump(text: string, d: Store, cp: Path) {
    exists order :: Visits(d, cp, order) && text == DumpLines(d, order)
  }

  lemma {:induction false} DumpLinesConcat(d: Store, a: seq<Path>, b: seq<Path>)
    ensures DumpLines(d, a + b) == DumpLines(d, a) + DumpLines(d, b)
  {
    if a == [] {
      assert a + b == b;
    } else {
      assert (a + b)[1..] == a[1..] + b;
      DumpLinesConcat(d, a[1..], b);
    }
  }

  // ---- when a dump can be read back ----

  predicate CleanText(s: string) { '=' !in s && '\n' !in s }

  /** Words and values the file format can carry. */
  predicate Clean(p: Path, v: string) { (forall w | w in p :: CleanText(w)) && '\n' !in v }

  /** Paths whose key names them again: no empty word at either end. */
  predicate Canonical(p: Path) {
    p != [] && (p == [""] || (p[0] != "" && p[|p| - 1] != ""))
  }

  /** The condition for a dump to be faithful. */
  ghost predicate DumpSafe(d: Store) {
    forall p | p in d && d[p] != "" :: Clean(p, d[p]) && Canonical(p)
  }

  /** Same answer at every path; a missing node reads as empty. */
  ghost predicate SameValues(d: Store, d': Store) {
    forall p :: Val(d', p) == Val(d, p)
  }

  function DropEmpty(p: Path): Path {
    if p != [] && p[0] == "" then DropEmpty(p[1..]) else p
  }

  lemma {:induction false} DropEmptySnoc(p: Path, w: string)
    ensures DropEmpty(p + [w]) == if DropEmpty(p) == [] && w == "" then [] else DropEmpty(p) + [w]
  {
    if p != [] {
      assert (p + [w])[1..] == p[1..] + [w];
      if p[0] == "" {
        DropEmptySnoc(p[1..], w);
      }
    }
  }

  lemma {:induction false} KeyTextJoins(p: Path)
    requires p != []
    ensures var q := DropEmpty(p);
            if q == [] then KeyText(p) == "" else q[0] != "" && KeyText(p) == Join(q, '.') && KeyText(p) != ""
  {
    var up, w := p[..|p| - 1], p[|p| - 1];
    assert p == up + [w];
    DropEmptySnoc(up, w);
    if up != [] {
      KeyTextJoins(up);
      var q := DropEmpty(up);
      if q != [] {
        JoinConcat(q, [w], '.');
      }
    }
  }

  lemma {:induction false} DropEmptyKeeps(p: Path)
    requires forall w | w in p :: '.' !in w
    ensures forall w | w in DropEmpty(p) :: '.' !in w
    ensures |DropEmpty(p)| <= |p|
    ensures p != [] && p[0] == "" ==> |DropEmpty(p)| < |p|
    ensures DropEmpty(p) != [] ==> DropEmpty(p)[|DropEmpty(p)| - 1] == p[|p| - 1]
  {
    if p != [] && p[0] == "" {
      DropEmptyKeeps(p[1..]);
    }
  }

  /** Where a dumped path lands: at itself when it is canonical, at a shorter path when it is not. */
  lemma Landing(p: Path)
    requires p != [] && forall w | w in p :: '.' !in w
    ensures Canonical(p) ==> NodePath(KeyText(p)) == p
    ensures !Canonical(p) ==> |NodePath(KeyText(p))| < |p|
  {
    hide Split, KeyText;
    var q := DropEmpty(p);
    KeyTextJoins(p);
    DropEmptyKeeps(p);
    SplitPiece("", '.');
    if q != [] {
      SplitJoin(q, '.');
    }
  }

  function EntryLines(d: Store, order: seq<Path>): (ls: seq<string>)
    ensures |ls| == |order|
  {
    if order == [] then [] else [EntryLine(d, order[0])] + EntryLines(d, order[1..])
  }

  lemma {:induction false} DumpSplits(d: Store, order: seq<Path>)
    requires forall p | p in order :: '\n' !in EntryLine(d, p)
    ensures Split(DumpLines(d, order), '\n') == EntryLines(d, order) + [""]
  {
    if order == [] {
      SplitPiece("", '\n');
    } else {
      hide EntryLine, Split, DumpLines, EntryLines;
      var line, rest := EntryLine(d, order[0]), DumpLines(d, order[1..]);
      DumpSplits(d, order[1..]);
      SplitConcat(line, rest, '\n');
      FirstEntry(d, order);
      SplitPiece(line, '\n');
      assert [line] + EntryLines(d, order[1..]) + [""] == [line] + (EntryLines(d, order[1..]) + [""]);
    }
  }

  lemma FirstEntry(d: Store, order: seq<Path>)
    requires order != []
    ensures DumpLines(d, order) == EntryLine(d, order[0]) + ['\n'] + DumpLines(d, order[1..])
    ensures EntryLines(d, order) == [EntryLine(d, order[0])] + EntryLines(d, order[1..])
  {
  }

  lemma {:induction false} KeyTextChars(p: Path, c: char)
    requires c != '.' && forall w | w in p :: c !in w
    ensures c !in KeyText(p)
  {
    if p != [] {
      KeyTextChars(p[..|p| - 1], c);
    }
  }

  /** What is written for a path: its words with dots between them, `=`, and the value. */
  lemma EntryExactly(d: Store, p: Path)
    requires p != [] && p[0] != ""
    ensures EntryLine(d, p) == Join(p, '.') + "=" + Val(d, p)
  {
    hide KeyText, Join;
    KeyTextJoins(p);
    assert DropEmpty(p) == p;
  }

  /** A clean entry's line is read back as that entry. */
  lemma ParseEntry(d: Store, p: Path)
    requires Clean(p, Val(d, p))
    ensures Parse(EntryLine(d, p)) == Assign(KeyText(p), Val(d, p))
    ensures '\n' !in EntryLine(d, p)
  {
    hide KeyText;
    KeyTextChars(p, '=');
    KeyTextChars(p, '\n');
    var line := EntryLine(d, p);
    var k := KeyText(p);
    assert line[..|k|] == k && line[|k|] == '=';
    IndexOfAt(line, '=', |k|);
    assert line[|k| + 1..] == Val(d, p);
    assert '=' in line && !IsSpace('=');
  }
}
