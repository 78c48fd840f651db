/** Splitting and joining of strings, as the Go library functions the server relies on do it. */
module Text {

  /** Position of the first `c` in `s`, or -1. */
  function IndexOf(s: string, c: char): (i: int)
    ensures -1 <= i < |s|
    ensures i == -1 <==> c !in s
    ensures i >= 0 ==> s[i] == c && c !in s[..i]
  {
    if s == "" then -1
    else if s[0] == c then 0
    else
      var i := IndexOf(s[1..], c);
      if i < 0 then -1 else assert s[..i + 1] == [s[0]] + s[1..][..i]; i + 1
  }

  /** The first occurrence is the only one with nothing before it. */
  lemma {:induction false} IndexOfAt(s: string, c: char, i: nat)
    requires i < |s| && s[i] == c && c !in s[..i]
    ensures IndexOf(s, c) == i
  {
    if i > 0 {
      assert s[..i][0] == s[0];
      assert s[..i][1..] == s[1..][..i - 1];
      IndexOfAt(s[1..], c, i - 1);
    }
  }

  /** Every piece of `s` between two separators, in order; never empty. */
  function Split(s: string, sep: char): (ws: seq<string>)
    ensures |ws| > 0
    decreases |s|
  {
    var i := IndexOf(s, sep);
    if i < 0 then [s] else [s[..i]] + Split(s[i + 1..], sep)
  }

  lemma {:induction false} SplitWords(s: string, sep: char)
    ensures forall w | w in Split(s, sep) :: sep !in w
    decreases |s|
  {
    var i := IndexOf(s, sep);
    if i >= 0 {
      SplitWords(s[i + 1..], sep);
    }
  }

  function Join(ws: seq<string>, sep: char): string
    requires |ws| > 0
  {
    if |ws| == 1 then ws[0] else ws[0] + [sep] + Join(ws[1..], sep)
  }

  lemma {:induction false} JoinSplit(s: string, sep: char)
    ensures Join(Split(s, sep), sep) == s
    decreases |s|
  {
    var i := IndexOf(s, sep);
    if i >= 0 {
      var rest := Split(s[i + 1..], sep);
      JoinSplit(s[i + 1..], sep);
      JoinConcat([s[..i]], rest, sep);
      assert s == s[..i] + [sep] + s[i + 1..];
    }
  }

  lemma IndexOfConcat(a: string, b: string, sep: char)
    ensures IndexOf(a + [sep] + b, sep) == if sep in a then IndexOf(a, sep) else |a|
  {
    var s := a + [sep] + b;
    var i := if sep in a then IndexOf(a, sep) else |a|;
    assert s[..i] == a[..i];
    assert s[i] == sep;
    IndexOfAt(s, sep, i);
  }

  lemma SplitStep(s: string, sep: char)
    ensures var i := IndexOf(s, sep);
            Split(s, sep) == if i < 0 then [s] else [s[..i]] + Split(s[i + 1..], sep)
  {
  }

  /** Splitting before a separator and splitting after it are independent. */
  lemma {:induction false} SplitConcat(a: string, b: string, sep: char)
    ensures Split(a + [sep] + b, sep) == Split(a, sep) + Split(b, sep)
    decreases |a|
  {
    hide Split, IndexOf;
    var s := a + [sep] + b;
    var i := IndexOf(a, sep);
    IndexOfConcat(a, b, sep);
    SplitStep(s, sep);
    SplitStep(a, sep);
    if i < 0 {
      assert s[..|a|] == a;
      assert s[|a| + 1..] == b;
    } else {
      assert s[..i] == a[..i];
      assert s[i + 1..] == a[i + 1..] + [sep] + b;
      SplitConcat(a[i + 1..], b, sep);
    }
  }

  lemma SplitPiece(w: string, sep: char)
    requires sep !in w
    ensures Split(w, sep) == [w]
  {
  }

  lemma {:induction false} SplitJoin(ws: seq<string>, sep: char)
    requires |ws| > 0 && forall w | w in ws :: sep !in w
    ensures Split(Join(ws, sep), sep) == ws
  {
    if |ws| == 1 {
      SplitPiece(ws[0], sep);
    } else {
      SplitJoin(ws[1..], sep);
      SplitConcat(ws[0], Join(ws[1..], sep), sep);
      SplitPiece(ws[0], sep);
      assert ws == [ws[0]] + ws[1..];
    }
  }

  lemma {:induction false} JoinConcat(a: seq<string>, b: seq<string>, sep: char)
    requires |a| > 0 && |b| > 0
    ensures Join(a + b, sep) == Join(a, sep) + [sep] + Join(b, sep)
  {
    if |a| == 1 {
      assert (a + b)[1..] == b;
    } else {
      JoinConcat(a[1..], b, sep);
      assert (a + b)[1..] == a[1..] + b;
    }
  }

  /** Different strings split differently. */
  lemma SplitInjective(a: string, b: string, sep: char)
    requires Split(a, sep) == Split(b, sep)
    ensures a == b
  {
    JoinSplit(a, sep);
    JoinSplit(b, sep);
  }

  predicate HasPrefix(s: string, p: string) { |p| <= |s| && s[..|p|] == p }

  predicate HasSuffix(s: string, p: string) { |p| <= |s| && s[|s| - |p|..] == p }

  predicate EndsIn(s: string, c: char) { s != "" && s[|s| - 1] == c }

  function DropDot(s: string): string { if EndsIn(s, '.') then s[..|s| - 1] else s }

  predicate OccursAt(s: string, p: string, i: nat) { i + |p| <= |s| && s[i..i + |p|] == p }

  predicate Contains(s: string, p: string) { exists i :: 0 <= i <= |s| && OccursAt(s, p, i) }
}

/** Decimal text of non-negative integers and the parser the store's counters go through. */
module Decimal {

  function DigitChar(n: nat): char
    requires n < 10
  {
    '0' + n as char
  }

  predicate IsDigit(c: char) { '0' <= c <= '9' }

  function DigitValue(c: char): nat
    requires IsDigit(c)
  {
    (c - '0') as nat
  }

  /** `strconv.Itoa` on the counts and indexes the server stores. */
  function Itoa(n: nat): (s: string)
    ensures |s| > 0
    ensures forall c | c in s :: IsDigit(c)
  {
    if n < 10 then [DigitChar(n)] else Itoa(n / 10) + [DigitChar(n % 10)]
  }

  predicate AllDigits(s: string) { forall c | c in s :: IsDigit(c) }

  function DigitsValue(s: string): nat
    requires AllDigits(s)
  {
    if s == "" then 0
    else DigitsValue(s[..|s| - 1]) * 10 + DigitValue(s[|s| - 1])
  }

  datatype Parsed = Number(n: int) | NotANumber

  /** `strconv.Atoi`: an optional sign followed by at least one digit. */
  function Atoi(s: string): Parsed {
    var body := if s != "" && (s[0] == '+' || s[0] == '-') then s[1..] else s;
    if body == "" || !AllDigits(body) then NotANumber
    else if s[0] == '-' then Number(0 - DigitsValue(body))
    else Number(DigitsValue(body))
  }

  /** `DynamicVar.GetInt64`: text that is no number counts as zero. */
  function GetInt(s: string): int {
    match Atoi(s)
    case Number(n) => n
    case NotANumber => 0
  }

  lemma {:induction false} DigitsRoundTrip(n: nat)
    ensures DigitsValue(Itoa(n)) == n
  {
    if n >= 10 {
      DigitsRoundTrip(n / 10);
      var s := Itoa(n);
      assert s[..|s| - 1] == Itoa(n / 10);
    }
  }

  lemma AtoiItoa(n: nat)
    ensures Atoi(Itoa(n)) == Number(n)
    ensures GetInt(Itoa(n)) == n
  {
    DigitsRoundTrip(n);
    var s := Itoa(n);
    assert IsDigit(s[0]);
  }

  // ---- character by character ----

  lemma DigitsAt(s: string)
    ensures AllDigits(s) <==> forall i | 0 <= i < |s| :: '0' <= s[i] <= '9'
  {
    if AllDigits(s) {
      forall i | 0 <= i < |s| ensures '0' <= s[i] <= '9' {
        assert s[i] in s;
      }
    }
  }

  /** The numbers are the non-empty runs of digits, with or without one sign in front; anything else counts as zero. */
  lemma NumbersExactly(s: string)
    ensures Atoi(s).Number? <==>
              && s != "" && s != "+" && s != "-"
              && (s[0] == '+' || s[0] == '-' || '0' <= s[0] <= '9')
              && forall i | 1 <= i < |s| :: '0' <= s[i] <= '9'
    ensures GetInt(s) == if Atoi(s).Number? then Atoi(s).n else 0
  {
    DigitsAt(s);
    if s != "" {
      DigitsAt(s[1..]);
      assert forall i | 1 <= i < |s| :: s[i] == s[1..][i - 1];
      assert s[1..] == "" ==> s == [s[0]];
      hide AllDigits;
    }
  }

  /** One digit is its distance from '0', each further one counts ten times what stands before it, and a minus negates. */
  lemma PositionalValue(s: string, c: char)
    requires '0' <= c <= '9' && s != "" && forall i | 0 <= i < |s| :: '0' <= s[i] <= '9'
    ensures Atoi([c]) == Number(c as int - '0' as int)
    ensures Atoi(s).Number? && Atoi(s + [c]) == Number(10 * Atoi(s).n + c as int - '0' as int)
    ensures Atoi("+" + s) == Atoi(s) && Atoi("-" + s) == Number(0 - Atoi(s).n)
  {
    assert [c][..0] == "" && DigitsValue("") == 0;
    assert DigitsValue([c]) == DigitValue(c) == c as int - '0' as int;
    assert (s + [c])[..|s|] == s;
    assert ("+" + s)[1..] == s && ("-" + s)[1..] == s;
  }

  /** The texts of zero are the non-empty runs of zeros, with or without one sign in front. */
  lemma ZeroExactly(s: string)
    ensures Atoi(s) == Number(0) <==>
              s != "" && s != "+" && s != "-" && (s[0] in "+-0") && forall i | 1 <= i < |s| :: s[i] == '0'
  {
    NumbersExactly(s);
    if Atoi(s).Number? {
      var signed := s[0] == '+' || s[0] == '-';
      AllZeros(if signed then s[1..] else s);
      hide DigitsValue, AllDigits;
      assert forall i | 1 <= i < |s| :: s[i] == s[1..][i - 1];
      assert s[0] in "+-0" <==> signed || s[0] == '0';
    }
  }

  lemma {:induction false} AllZeros(s: string)
    requires AllDigits(s)
    ensures DigitsValue(s) == 0 <==> forall i | 0 <= i < |s| :: s[i] == '0'
  {
    if s != "" {
      var n := |s| - 1;
      AllZeros(s[..n]);
      assert DigitValue(s[n]) == s[n] as int - '0' as int;
      assert DigitsValue(s) == 0 <==> DigitsValue(s[..n]) == 0 && s[n] == '0';
      assert forall i | 0 <= i < n :: s[..n][i] == s[i];
    }
  }

  /** Counters and slot numbers are written without leading zeros. */
  lemma {:induction false} NoLeadingZero(n: nat)
    ensures Itoa(n)[0] == '0' <==> n == 0
  {
    if n < 10 {
      var c := DigitChar(n);
      assert c as int == '0' as int + n;
      assert (c as int) as char == c;
    } else {
      NoLeadingZero(n / 10);
      assert Itoa(n)[0] == Itoa(n / 10)[0];
    }
  }

  lemma ItoaInjective(m: nat, n: nat)
    requires Itoa(m) == Itoa(n)
    ensures m == n
  {
    AtoiItoa(m);
    AtoiItoa(n);
  }

  /** `w` is the decimal text of a number below `n`. */
  predicate NumeralBelow(n: nat, w: string) { exists i: nat :: i < n && w == Itoa(i) }

  lemma NumeralStep(n: nat, w: string)
    requires n > 0
    ensures NumeralBelow(n - 1, w) || w == Itoa(n - 1) <==> NumeralBelow(n, w)
  {
  }
}

/** A value that may be missing. */
module Options {

  datatype Option<T> = None | Some(value: T)
}

/** Iteration over maps. */
module MapOrder {

  predicate NoRepeats<T(==)>(s: seq<T>) { forall i, j | 0 <= i < j < |s| :: s[i] != s[j] }

  /** Go visits a map's keys in any order; this is one of them. */
  method KeysInSomeOrder<V>(m: map<string, V>) returns (ks: seq<string>)
    ensures forall k :: k in ks <==> k in m
    ensures forall i, j | 0 <= i < j < |ks| :: ks[i] != ks[j]
  {
    ks := [];
    var left := m.Keys;
    while left != {}
      invariant left <= m.Keys
      invariant forall k :: k in ks <==> k in m && k !in left
      invariant forall i, j | 0 <= i < j < |ks| :: ks[i] != ks[j]
    {
      var k :| k in left;
      ks := ks + [k];
      left := left - {k};
    }
  }
}
