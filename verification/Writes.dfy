/** Which names and values clients may write, and why such writes never reach the server's bookkeeping. */
module Writes {
  import opened Text
  import opened FlatStore
  import opened Views
  import opened ObserverNodes
  import opened Subscriptions
  import opened Bookkeeping
  import opened Wildcard

  const NAME_CHARACTERS :=
    "abcdefghijklm" + "nopqrstuvwxyz" + "ABCDEFGHIJKLM" + "NOPQRSTUVWXYZ" + "0123456789" + "._/\\,.-*"

  // ---- cleaning a name ----

  /** The characters of `s` that are among `valid`, in order. */
  function Kept(s: string, valid: string): string {
    if s == "" then ""
    else Kept(s[..|s| - 1], valid) + if s[|s| - 1] in valid then [s[|s| - 1]] else ""
  }

  method GetOnly(source: string, validChars: string) returns (result: string)
    ensures result == Kept(source, validChars)
  {
    result := "";
    for i := 0 to |source|
      invariant result == Kept(source[..i], validChars)
    {
      assert source[..i + 1][..i] == source[..i];
      if source[i] in validChars {
        result := result + [source[i]];
      }
    }
    assert source[..|source|] == source;
  }

  /** Cleaning keeps every occurrence of an allowed character and drops every other character. */
  lemma {:induction false} KeptIsClean(s: string, valid: string, c: char)
    ensures multiset(Kept(s, valid))[c] == if c in valid then multiset(s)[c] else 0
  {
    if s != "" {
      var n := |s| - 1;
      KeptIsClean(s[..n], valid, c);
      assert s == s[..n] + [s[n]];
    }
  }

  /** Cleaning works piece by piece, so what is kept stays in order. */
  lemma {:induction false} KeptInOrder(a: string, b: string, valid: string)
    ensures Kept(a + b, valid) == Kept(a, valid) + Kept(b, valid)
    decreases |b|
  {
    if b == "" {
      assert a + b == a;
    } else {
      var n := |b| - 1;
      assert (a + b)[..|a + b| - 1] == a + b[..n];
      KeptInOrder(a, b[..n], valid);
    }
  }

  /** A name of allowed characters is left as it is. */
  lemma {:induction false} CleanStays(s: string, valid: string)
    requires forall c | c in s :: c in valid
    ensures Kept(s, valid) == s
  {
    if s != "" {
      var n := |s| - 1;
      assert s == s[..n] + [s[n]];
      assert forall c | c in s[..n] :: c in s;
      CleanStays(s[..n], valid);
    }
  }

  // ---- which characters those are ----

  lemma SmallLetters(c: char)
    ensures c in "abcdefghijklm" <==> 'a' <= c <= 'm'
    ensures c in "nopqrstuvwxyz" <==> 'n' <= c <= 'z'
  {
  }

  lemma CapitalLetters(c: char)
    ensures c in "ABCDEFGHIJKLM" <==> 'A' <= c <= 'M'
    ensures c in "NOPQRSTUVWXYZ" <==> 'N' <= c <= 'Z'
  {
  }

  lemma OtherCharacters(c: char)
    ensures c in "0123456789" <==> '0' <= c <= '9'
    ensures c in "._/\\,.-*" <==> c in {'.', '_', '/', '\\', ',', '-', '*'}
  {
  }

  /** A name may hold letters, digits, dots, underscores, both slashes, commas, dashes and stars, and nothing else. */
  lemma AllowedExactly(c: char)
    ensures c in NAME_CHARACTERS <==>
              || 'a' <= c <= 'z' || 'A' <= c <= 'Z' || '0' <= c <= '9'
              || c in {'.', '_', '/', '\\', ',', '-', '*'}
  {
    SmallLetters(c);
    CapitalLetters(c);
    OtherCharacters(c);
  }

  // ---- internal names ----

  /** Some word of the name starts with an underscore. */
  predicate HasHiddenWord(n: string) { exists w :: w in Split(n, '.') && Hidden(w) }

  predicate DotUnderscore(n: string, i: nat) { i + 1 < |n| && n[i] == '.' && n[i + 1] == '_' }

  method ContainsUnderscoreDot(name: string) returns (found: bool)
    ensures found <==> exists i :: 0 <= i < |name| && DotUnderscore(name, i)
  {
    var i := 0;
    while i < |name| - 1
      invariant 0 <= i && forall k | 0 <= k < i :: !DotUnderscore(name, k)
    {
      if name[i] == '.' && name[i + 1] == '_' {
        assert DotUnderscore(name, i);
        return true;
      }
      i := i + 1;
    }
    return false;
  }

  predicate LooksInternal(n: string) { Hidden(n) || exists i :: 0 <= i < |n| && DotUnderscore(n, i) }

  /** The two character tests find exactly the names that have a hidden word. */
  lemma {:induction false} InternalNames(n: string)
    ensures LooksInternal(n) <==> HasHiddenWord(n)
    decreases |n|
  {
    hide Split, IndexOf;
    SplitStep(n, '.');
    var i := IndexOf(n, '.');
    if i < 0 {
      assert forall k | 0 <= k < |n| :: n[k] in n;
    } else {
      var first, rest := n[..i], n[i + 1..];
      InternalNames(rest);
      assert HasHiddenWord(n) <==> Hidden(first) || HasHiddenWord(rest);
      assert Hidden(first) ==> Hidden(n);
      assert Hidden(rest) <==> DotUnderscore(n, i);
      forall k | 0 <= k < |n| && k != i ensures DotUnderscore(n, k) <==> k > i && DotUnderscore(rest, k - i - 1) {
        assert k < i ==> n[k] == first[k] && first[k] in first;
      }
      if LooksInternal(rest) && !Hidden(rest) {
        var k :| 0 <= k < |rest| && DotUnderscore(rest, k);
        assert DotUnderscore(n, k + i + 1);
      }
      if LooksInternal(n) && !Hidden(n) {
        var k :| 0 <= k < |n| && DotUnderscore(n, k);
        assert k > i ==> DotUnderscore(rest, k - i - 1);
      }
      assert Hidden(n) && i > 0 ==> Hidden(first);
    }
  }

  /** A cleaned name that is neither empty nor internal. */
  predicate Acceptable(n: string) { n != "" && !HasHiddenWord(n) && forall c | c in n :: c in NAME_CHARACTERS }

  // ---- length limits ----

  predicate WordsFit(n: string, limit: int) { limit > 0 ==> forall w | w in Split(n, '.') :: |w| <= limit }

  method EachWordFits(name: string, limit: int) returns (fits: bool)
    ensures fits <==> WordsFit(name, limit)
  {
    if limit > 0 {
      var parts := [name];
      if '.' in name {
        parts := Split(name, '.');
      } else {
        SplitPiece(name, '.');
      }
      for i := 0 to |parts|
        invariant forall k | 0 <= k < i :: |parts[k]| <= limit
      {
        if |parts[i]| > limit {
          assert parts[i] in Split(name, '.');
          return false;
        }
      }
    }
    return true;
  }

  /** A limit of zero or less refuses nothing, any other only what is longer, word by word. */
  lemma LimitExactly(w: string, a: string, b: string, limit: int)
    ensures '.' !in w ==> (WordsFit(w, limit) <==> limit <= 0 || |w| <= limit)
    ensures WordsFit(a + "." + b, limit) <==> WordsFit(a, limit) && WordsFit(b, limit)
  {
    hide Split;
    SplitConcat(a, b, '.');
    assert a + ['.'] + b == a + "." + b;
    if '.' !in w {
      SplitPiece(w, '.');
    }
  }

  // ---- names taken as they are ----

  /** A name of allowed characters with no underscore at the start of a word is left as it is and is external. */
  lemma PlainName(n: string)
    requires n != "" && n[0] != '_' && forall i | 0 <= i < |n| :: !DotUnderscore(n, i)
    requires forall i | 0 <= i < |n| ::
               || 'a' <= n[i] <= 'z' || 'A' <= n[i] <= 'Z' || '0' <= n[i] <= '9'
               || n[i] in {'.', '_', '/', '\\', ',', '-', '*'}
    ensures Kept(n, NAME_CHARACTERS) == n && !HasHiddenWord(n) && Acceptable(n)
  {
    hide *;
    AllAllowed(n);
    CleanAndExternal(n, NAME_CHARACTERS);
    AcceptableIs(n);
  }

  lemma CleanAndExternal(n: string, valid: string)
    requires n != "" && n[0] != '_' && (forall i | 0 <= i < |n| :: !DotUnderscore(n, i)) && forall c | c in n :: c in valid
    ensures Kept(n, valid) == n && !HasHiddenWord(n)
  {
    CleanStays(n, valid);
    InternalNames(n);
    hide HasHiddenWord;
  }

  lemma AllAllowed(n: string)
    requires forall i | 0 <= i < |n| ::
               || 'a' <= n[i] <= 'z' || 'A' <= n[i] <= 'Z' || '0' <= n[i] <= '9'
               || n[i] in {'.', '_', '/', '\\', ',', '-', '*'}
    ensures forall c | c in n :: c in NAME_CHARACTERS
  {
    forall i | 0 <= i < |n| ensures n[i] in NAME_CHARACTERS {
      AllowedExactly(n[i]);
    }
  }

  lemma AcceptableIs(n: string)
    ensures Acceptable(n) <==> n != "" && !HasHiddenWord(n) && forall c | c in n :: c in NAME_CHARACTERS
  {
  }

  /** What is written without a star lands at the words of the name below `vars`. */
  lemma WrittenThere(d: Store, n: string, v: string)
    requires '*' !in n && !HasPrefix(n, "vars.")
    ensures Written(d, n, v) == Put(d, NodePath("vars." + n), v)
    ensures Val(Written(d, n, v), NodePath("vars." + n)) == v
  {
    hide NodePath;
    assert '*' !in "vars." && '*' !in "vars." + n;
  }

  // ---- what an accepted write does ----

  /** What a client's accepted write of `v` to `n` does to the store. */
  function Written(d: Store, n: string, v: string): Store { if '*' in Controlled(n) then d else Put(d, NodeOf(n), v) }

  /** A path a client's write may give a value to. */
  predicate ClientPath(p: Path) { p != [] && p[0] == "vars" && forall w | w in p :: !Hidden(w) && '*' !in w }

  lemma ControlledWords(n: string)
    ensures forall w | w in NodeOf(n) :: w == "vars" || w in Split(n, '.')
    ensures forall w | w in NodeOf(n) :: '.' !in w
  {
    hide Split;
    NodePathWords(Controlled(n));
    SplitConcat("vars", n, '.');
    SplitPiece("vars", '.');
    assert Full(n) == "vars" + ['.'] + n;
  }

  lemma {:induction false} WordsAreText(n: string, w: string)
    requires w in Split(n, '.')
    ensures forall c | c in w :: c in n
    decreases |n|
  {
    var i := IndexOf(n, '.');
    if i >= 0 {
      if w != n[..i] {
        WordsAreText(n[i + 1..], w);
        assert forall c | c in n[i + 1..] :: c in n;
      }
    }
  }

  lemma WrittenPath(n: string)
    requires !HasHiddenWord(n) && '*' !in Controlled(n)
    ensures ClientPath(NodeOf(n))
  {
    hide Split, NodePath;
    ControlledWords(n);
    VarsFirst(n);
    forall w | w in NodeOf(n) ensures !Hidden(w) && '*' !in w {
      if w in Split(n, '.') {
        WordsAreText(n, w);
        assert forall c | c in n :: c in Controlled(n);
      }
    }
  }

  /** An accepted write changes no bookkeeping, and no value but the one named. */
  lemma WriteSparesMeta(d: Store, n: string, v: string)
    requires Closed(d) && !HasHiddenWord(n)
    ensures Closed(Written(d, n, v)) && MetaSame(d, Written(d, n, v))
    ensures forall p :: Val(Written(d, n, v), p) != Val(d, p) ==> ClientPath(p) && p == NodeOf(n)
  {
    if '*' !in Controlled(n) {
      WrittenPath(n);
      ControlledWords(n);
      var q := NodeOf(n);
      hide NodeOf, Split, Controlled, HasHiddenWord;
      PutClosed(d, q, v);
      forall p | Meta(p) ensures SameAt(d, Put(d, q, v), p) {
        PutVal(d, q, v, p);
        PutIn(d, q, v, p);
        if p <= q {
          ClientPrefix(p, q);
        }
      }
      forall p ensures Val(Put(d, q, v), p) == if p == q then v else Val(d, p) {
        PutVal(d, q, v, p);
      }
    }
  }

  lemma ClientPrefix(p: Path, q: Path)
    requires ClientPath(q) && p <= q
    ensures !Meta(p)
  {
    assert forall w | w in p :: w in q;
  }

  ghost predicate OnlyClientValues(d: Store, d': Store) { forall p :: Val(d', p) != Val(d, p) ==> ClientPath(p) }

  /** A name's node is bookkeeping exactly when the name has a hidden word. */
  lemma NodeIsMeta(n: string)
    ensures Meta(NodeOf(n)) <==> HasHiddenWord(n)
  {
    hide Split, NodePath;
    VarsFirst(n);
    ControlledWords(n);
    if HasHiddenWord(n) {
      var w :| w in Split(n, '.') && Hidden(w);
      WordIsThere(n, w);
    }
  }

  lemma WordIsThere(n: string, w: string)
    requires w in Split(n, '.') && w != ""
    ensures w in NodeOf(n)
  {
    var m := Controlled(n);
    var ws := Split(m, '.');
    assert w in ws by {
      hide Split;
      SplitConcat("vars", n, '.');
      assert Full(n) == "vars" + ['.'] + n;
    }
    hide Split;
    var i :| 0 <= i < |ws| && ws[i] == w;
    assert i < |ws| - 1 ==> ws[..|ws| - 1][i] == w;
  }
}
