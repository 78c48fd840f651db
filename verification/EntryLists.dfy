/** Observer lists as plain sequences. */
module EntryLists {
  datatype Entry = Entry(client: string, tag: string)

  /** The last position of `e` in `s[lo..hi]`, or -1. */
  function LastIn(s: seq<Entry>, e: Entry, lo: nat, hi: nat): (i: int)
    requires lo <= hi <= |s|
    ensures i == -1 || lo <= i < hi
    ensures i == -1 <==> forall m | lo <= m < hi :: s[m] != e
    ensures i >= 0 ==> s[i] == e && forall m | i < m < hi :: s[m] != e
    decreases hi
  {
    if lo == hi then -1 else if s[hi - 1] == e then hi - 1 else LastIn(s, e, lo, hi - 1)
  }

  function LastIndex(s: seq<Entry>, e: Entry): int { LastIn(s, e, 0, |s|) }

  function RemoveAt(s: seq<Entry>, i: nat): seq<Entry>
    requires i < |s|
  {
    s[..i] + s[i + 1..]
  }

  /** The list without the last occurrence of `e`; everything else stays in order. */
  function DropLast(s: seq<Entry>, e: Entry): seq<Entry> {
    var i := LastIndex(s, e);
    if i < 0 then s else RemoveAt(s, i)
  }

  /** The list without the entries of client `c`, in order. */
  function Without(s: seq<Entry>, c: string): seq<Entry> {
    if s == [] then []
    else
      var rest := Without(s[..|s| - 1], c);
      if s[|s| - 1].client == c then rest else rest + [s[|s| - 1]]
  }

  /** How many entries client `c` has. */
  function CountOf(s: seq<Entry>, c: string): nat {
    if s == [] then 0
    else CountOf(s[..|s| - 1], c) + if s[|s| - 1].client == c then 1 else 0
  }

  predicate Mentions(s: seq<Entry>, c: string) { exists e :: e in s && e.client == c }

  lemma LastIndexAfterRemoval(s: seq<Entry>, i: nat, e: Entry)
    requires i < |s| && s[i] != e
    ensures LastIndex(RemoveAt(s, i), e) ==
            var m := LastIndex(s, e); if m > i then m - 1 else m
  {
    var s', m := RemoveAt(s, i), LastIndex(s, e);
    var m' := LastIndex(s', e);
    assert forall j | 0 <= j < |s'| :: s'[j] == if j < i then s[j] else s[j + 1];
    if m >= 0 {
      assert s'[if m > i then m - 1 else m] == e;
    }
    if m' >= 0 {
      assert s[if m' < i then m' else m' + 1] == e;
    }
  }

  lemma LastIndexAfterAppend(s: seq<Entry>, x: Entry, e: Entry)
    ensures LastIndex(s + [x], e) == if e == x then |s| else LastIndex(s, e)
  {
    var s' := s + [x];
    assert forall j | 0 <= j < |s| :: s'[j] == s[j];
    assert s'[|s|] == x;
  }

  lemma {:induction false} CountOfConcat(a: seq<Entry>, b: seq<Entry>, c: string)
    ensures CountOf(a + b, c) == CountOf(a, c) + CountOf(b, c)
  {
    if b == [] {
      assert a + b == a;
    } else {
      assert (a + b)[..|a + b| - 1] == a + b[..|b| - 1];
      CountOfConcat(a, b[..|b| - 1], c);
    }
  }

  lemma CountAfterRemoval(s: seq<Entry>, i: nat, c: string)
    requires i < |s|
    ensures CountOf(RemoveAt(s, i), c) == CountOf(s, c) - if s[i].client == c then 1 else 0
  {
    CountOfConcat(s[..i], s[i + 1..], c);
    CountOfConcat(s[..i] + [s[i]], s[i + 1..], c);
    CountOfConcat(s[..i], [s[i]], c);
    assert s == s[..i] + [s[i]] + s[i + 1..];
    assert CountOf([s[i]], c) == if s[i].client == c then 1 else 0 by {
      assert [s[i]][..0] == [];
    }
  }

  lemma DropLastCounts(s: seq<Entry>, e: Entry, c: string)
    ensures CountOf(DropLast(s, e), c) == CountOf(s, c) - if e in s && e.client == c then 1 else 0
  {
    hide CountOf, RemoveAt;
    var i := LastIndex(s, e);
    if i >= 0 {
      CountAfterRemoval(s, i, c);
    }
  }

  lemma {:induction false} CountZero(s: seq<Entry>, c: string)
    ensures CountOf(s, c) == 0 <==> !Mentions(s, c)
  {
    if s != [] {
      var n := |s| - 1;
      CountZero(s[..n], c);
      assert forall e :: e in s <==> e in s[..n] || e == s[n];
    }
  }

  lemma {:induction false} WithoutCounts(s: seq<Entry>, c: string, c': string)
    ensures CountOf(Without(s, c), c') == if c' == c then 0 else CountOf(s, c')
    ensures forall e :: e in Without(s, c) <==> e in s && e.client != c
  {
    if s != [] {
      var n := |s| - 1;
      WithoutCounts(s[..n], c, c');
      CountOfConcat(Without(s[..n], c), [s[n]], c');
      assert [s[n]][..0] == [];
      assert forall e :: e in s <==> e in s[..n] || e == s[n];
    }
  }

  /** Dropping an entry takes out its last occurrence and nothing else. */
  lemma DropLastExactly(a: seq<Entry>, e: Entry, b: seq<Entry>)
    requires e !in b
    ensures DropLast(a + [e] + b, e) == a + b && DropLast(b, e) == b
  {
    var s := a + [e] + b;
    assert s[|a|] == e && forall m | |a| < m < |s| :: s[m] == b[m - |a| - 1];
    assert LastIndex(s, e) == |a|;
    assert s[..|a|] == a && s[|a| + 1..] == b;
  }

  /** Leaving a client out works entry by entry, so what is left stays in order. */
  lemma {:induction false} WithoutExactly(a: seq<Entry>, b: seq<Entry>, e: Entry, c: string)
    ensures Without(a + b, c) == Without(a, c) + Without(b, c)
    ensures Without([e], c) == if e.client == c then [] else [e]
    decreases |b|
  {
    assert [e][..0] == [];
    if b == [] {
      assert a + b == a;
    } else {
      var n := |b| - 1;
      assert (a + b)[..|a + b| - 1] == a + b[..n];
      WithoutExactly(a, b[..n], e, c);
    }
  }
}
