/** Client ids and tags with dots: exactly when two entries share a path. */
module Collisions {
  import opened Text
  import opened Decimal
  import opened FlatStore
  import opened Keys

  /** Names denote one node exactly when they are equal up to one final dot. */
  lemma NodePathShares(a: string, b: string)
    ensures NodePath(a) == NodePath(b) <==> DropDot(a) == DropDot(b)
  {
    hide Split, NodePath;
    NodePathDrops(a);
    NodePathDrops(b);
    if Split(DropDot(a), '.') == Split(DropDot(b), '.') {
      SplitInjective(DropDot(a), DropDot(b), '.');
    }
  }

  lemma NodePathDrops(name: string)
    ensures NodePath(name) == Split(DropDot(name), '.')
  {
    hide Split, NodePath;
    if EndsIn(name, '.') {
      assert name == DropDot(name) + "." + "";
      NodePathExtend(DropDot(name), "");
    } else {
      NodePathIsSplit(name);
    }
  }

  lemma TextsShare(p: Path, a: string, b: string)
    ensures p + Split(a, '.') == p + Split(b, '.') <==> a == b
  {
    hide Split;
    if p + Split(a, '.') == p + Split(b, '.') {
      assert Split(a, '.') == (p + Split(a, '.'))[|p|..] == (p + Split(b, '.'))[|p|..] == Split(b, '.');
      SplitInjective(a, b, '.');
    }
  }

  // ---- index entries ----

  /** What follows `byId.` in the name of an index entry. */
  function IndexText(c: string, t: string): string {
    Dot(c, if t == "" then "byMetadata" else Dot("byMetadata", DropDot(t)))
  }

  function IndexRoot(v: Path): Path { v + ["_observers", "byId"] }

  /** The words a tag stands for. */
  function TagPath(t: string): Path { if t == "" then [] else NodePath(t) }

  lemma IndexSpelled(v: Path, c: string, t: string)
    ensures PathOf(ObsIndex(v, c, t)) == IndexRoot(v) + (Split(c, '.') + ["byMetadata"] + TagPath(t))
  {
    hide Split, NodePath;
    var r, tail := Split(c, '.'), TagPath(t);
    assert v + ["_observers"] + (["byId"] + r + ["byMetadata"] + tail)
        == v + ["_observers", "byId"] + (r + ["byMetadata"] + tail);
  }

  lemma IndexTextSplit(c: string, t: string)
    ensures Split(IndexText(c, t), '.') == Split(c, '.') + ["byMetadata"] + TagPath(t)
  {
    hide Split, NodePath, Dot, DropDot;
    WordPath("byMetadata");
    if t == "" {
      DotSplit(c, "byMetadata");
    } else {
      NodePathDrops(t);
      DotSplit("byMetadata", DropDot(t));
      DotSplit(c, Dot("byMetadata", DropDot(t)));
      Regroup(Split(c, '.'), ["byMetadata"], NodePath(t));
    }
  }

  lemma Regroup(a: Path, b: Path, c: Path)
    ensures a + (b + c) == a + b + c
  {
  }

  lemma IndexTextPath(v: Path, c: string, t: string)
    ensures PathOf(ObsIndex(v, c, t)) == IndexRoot(v) + Split(IndexText(c, t), '.')
  {
    hide *;
    IndexSpelled(v, c, t);
    IndexTextSplit(c, t);
  }

  /** Two index entries are one exactly when they belong to one variable and what follows `byId.` is the same text. */
  lemma IndexesShareExactly(v: Path, c: string, t: string, v': Path, c': string, t': string)
    requires VarOk(v) && VarOk(v')
    ensures PathOf(ObsIndex(v, c, t)) == PathOf(ObsIndex(v', c', t')) <==> v == v' && IndexText(c, t) == IndexText(c', t')
  {
    hide PathOf, Split, IndexText;
    IndexTextPath(v, c, t);
    IndexTextPath(v', c', t');
    TextsShare(IndexRoot(v), IndexText(c, t), IndexText(c', t'));
    var r, r' := ["byId"] + Split(IndexText(c, t), '.'), ["byId"] + Split(IndexText(c', t'), '.');
    assert IndexRoot(v) + Split(IndexText(c, t), '.') == v + ["_observers"] + r;
    assert IndexRoot(v') + Split(IndexText(c', t'), '.') == v' + ["_observers"] + r';
    if v + ["_observers"] + r == v' + ["_observers"] + r' {
      SplitAtObservers(v, r, v', r');
    }
  }

  /** One client's tags share an entry exactly when they are equal up to one final dot; the empty tag shares with none. */
  lemma TagsShareExactly(v: Path, c: string, t: string, t': string)
    ensures PathOf(ObsIndex(v, c, t)) == PathOf(ObsIndex(v, c, t')) <==>
              t == t' || (t != "" && t' != "" && DropDot(t) == DropDot(t'))
  {
    hide *;
    IndexSpelled(v, c, t);
    IndexSpelled(v, c, t');
    TailsShare(IndexRoot(v), Split(c, '.') + ["byMetadata"], TagPath(t), TagPath(t'));
    TagPathsShare(t, t');
  }

  lemma TailsShare(p: Path, m: Path, a: Path, b: Path)
    ensures p + (m + a) == p + (m + b) <==> a == b
  {
    if p + (m + a) == p + (m + b) {
      assert m + a == (p + (m + a))[|p|..] == (p + (m + b))[|p|..] == m + b;
      assert a == (m + a)[|m|..] == (m + b)[|m|..] == b;
    }
  }

  lemma TagPathsShare(t: string, t': string)
    ensures TagPath(t) == TagPath(t') <==> t == t' || (t != "" && t' != "" && DropDot(t) == DropDot(t'))
  {
    NodePathShares(t, t');
    hide NodePath, DropDot;
  }

  /** Client `c'` is `c` with `byMetadata` behind it, and perhaps more words. */
  predicate ExtendsIndex(c: string, c': string) { Split(c, '.') + ["byMetadata"] <= Split(c', '.') }

  lemma ExtendedShares(v: Path, c: string, c': string) returns (t: string)
    requires ExtendsIndex(c, c')
    ensures PathOf(ObsIndex(v, c, t)) == PathOf(ObsIndex(v, c', ""))
  {
    hide Split, NodePath, PathOf, TagPath;
    var a, a' := Split(c, '.'), Split(c', '.');
    var tail := a'[|a| + 1..] + ["byMetadata"];
    TailWords(c', |a| + 1);
    t := Join(tail, '.');
    SplitJoin(tail, '.');
    LastWordNames(t, tail);
    NoTag();
    IndexSpelled(v, c, t);
    IndexSpelled(v, c', "");
    Rejoined(a, a');
  }

  lemma NoTag()
    ensures TagPath("") == []
  {
  }

  lemma TailWords(c: string, i: nat)
    requires i <= |Split(c, '.')|
    ensures forall w | w in Split(c, '.')[i..] + ["byMetadata"] :: '.' !in w
  {
    SplitWords(c, '.');
    hide Split;
    assert forall w | w in Split(c, '.')[i..] :: w in Split(c, '.');
  }

  lemma Rejoined(a: Path, a': Path)
    requires a + ["byMetadata"] <= a'
    ensures a + ["byMetadata"] + (a'[|a| + 1..] + ["byMetadata"]) == a' + ["byMetadata"] + []
  {
    assert a' == a + ["byMetadata"] + a'[|a| + 1..];
  }

  lemma LastWordNames(t: string, ws: Path)
    requires Split(t, '.') == ws && ws[|ws| - 1] != ""
    ensures TagPath(t) == ws
  {
    SplitPiece("", '.');
  }

  lemma LongerExtends(a: Path, tail: Path, a': Path, tail': Path)
    requires a + ["byMetadata"] + tail == a' + ["byMetadata"] + tail' && |a| < |a'|
    ensures a + ["byMetadata"] <= a'
  {
    var p := a + ["byMetadata"] + tail;
    assert a' == p[..|a'|];
    assert p[..|a| + 1] == a + ["byMetadata"];
    assert a'[..|a| + 1] == p[..|a| + 1];
  }

  /** Two clients have tags whose entries on a variable coincide exactly when one id is the other and `byMetadata` on. */
  lemma ClientsShareExactly(v: Path, c: string, c': string)
    requires c != c'
    ensures (exists t, t' :: PathOf(ObsIndex(v, c, t)) == PathOf(ObsIndex(v, c', t')))
       <==> ExtendsIndex(c, c') || ExtendsIndex(c', c)
  {
    hide PathOf, NodePath, Split;
    if ExtendsIndex(c, c') {
      var t := ExtendedShares(v, c, c');
    }
    if ExtendsIndex(c', c) {
      var t := ExtendedShares(v, c', c);
      assert PathOf(ObsIndex(v, c, "")) == PathOf(ObsIndex(v, c', t));
    }
    if t, t' :| PathOf(ObsIndex(v, c, t)) == PathOf(ObsIndex(v, c', t')) {
      SharedExtends(v, c, t, c', t');
    }
  }

  lemma SharedExtends(v: Path, c: string, t: string, c': string, t': string)
    requires c != c' && PathOf(ObsIndex(v, c, t)) == PathOf(ObsIndex(v, c', t'))
    ensures ExtendsIndex(c, c') || ExtendsIndex(c', c)
  {
    IndexSpelled(v, c, t);
    IndexSpelled(v, c', t');
    hide PathOf, NodePath, Split, TagPath;
    var a, a', p := Split(c, '.'), Split(c', '.'), IndexRoot(v);
    TailsShare(p, [], a + ["byMetadata"] + TagPath(t), a' + ["byMetadata"] + TagPath(t'));
    assert [] + (a + ["byMetadata"] + TagPath(t)) == a + ["byMetadata"] + TagPath(t);
    assert [] + (a' + ["byMetadata"] + TagPath(t')) == a' + ["byMetadata"] + TagPath(t');
    if a == a' {
      SplitInjective(c, c', '.');
    } else {
      OneIsLonger(a, TagPath(t), a', TagPath(t'));
    }
  }

  lemma OneIsLonger(a: Path, tail: Path, a': Path, tail': Path)
    requires a + ["byMetadata"] + tail == a' + ["byMetadata"] + tail' && a != a'
    ensures a + ["byMetadata"] <= a' || a' + ["byMetadata"] <= a
  {
    var s := a + ["byMetadata"] + tail;
    assert a == s[..|a|] && a' == s[..|a'|];
    if |a| < |a'| {
      LongerExtends(a, tail, a', tail');
    } else {
      LongerExtends(a', tail', a, tail);
    }
  }

  // ---- client records ----

  predicate OfClient(k: Key) { k.RegPos? || k.RegApi? || k.RegLive? || k.SubCount? || k.SubSlot? }

  /** What follows `internal.clients.byId.` in the name of an entry of a client's record. */
  function RecordText(k: Key): string
    requires OfClient(k)
  {
    match k
    case RegPos(c) => DropDot(c)
    case RegApi(c) => Dot(c, "apiId")
    case RegLive(c) => Dot(c, "lastLiveTime")
    case SubCount(c) => Dot(c, Dot("observing", "count"))
    case SubSlot(c, i) => Dot(c, Dot("observing", Itoa(i)))
  }

  /** The words an entry other than the position adds to its client's. */
  function Ending(k: Key): Path
    requires OfClient(k) && !k.RegPos?
  {
    match k
    case RegApi(_) => ["apiId"]
    case RegLive(_) => ["lastLiveTime"]
    case SubCount(_) => ["observing", "count"]
    case SubSlot(_, i) => ["observing", Itoa(i)]
  }

  lemma EndingIs(k: Key)
    requires OfClient(k) && !k.RegPos?
    ensures PathOf(k) == ["internal", "clients", "byId"] + (Split(k.c, '.') + Ending(k))
  {
    hide Split, NodePath, Itoa;
  }

  lemma EndingText(k: Key) returns (e: string)
    requires OfClient(k) && !k.RegPos?
    ensures RecordText(k) == Dot(k.c, e) && Split(e, '.') == Ending(k)
  {
    hide Split, NodePath, Itoa, Dot;
    match k
    case RegApi(_) =>
      e := "apiId";
      WordPath(e);
    case RegLive(_) =>
      e := "lastLiveTime";
      WordPath(e);
    case SubCount(_) =>
      e := Dot("observing", "count");
      TwoWords("observing", "count");
    case SubSlot(_, i) =>
      e := Dot("observing", Itoa(i));
      DigitsAreNoName(i);
      TwoWords("observing", Itoa(i));
  }

  lemma RecordTextPath(k: Key)
    requires OfClient(k)
    ensures PathOf(k) == ["internal", "clients", "byId"] + Split(RecordText(k), '.')
  {
    if k.RegPos? {
      NodePathDrops(k.c);
      hide Split, NodePath, DropDot;
    } else {
      hide *;
      var e := EndingText(k);
      DotSplit(k.c, e);
      EndingIs(k);
    }
  }

  /** Two record entries are one exactly when what follows `byId.` is the same text. */
  lemma RecordsShareExactly(k: Key, k': Key)
    requires OfClient(k) && OfClient(k')
    ensures PathOf(k) == PathOf(k') <==> RecordText(k) == RecordText(k')
  {
    hide PathOf, Split, RecordText;
    RecordTextPath(k);
    RecordTextPath(k');
    TextsShare(["internal", "clients", "byId"], RecordText(k), RecordText(k'));
  }

  /** Client `c'` is, up to one final dot, client `c` or one of the names its entries are kept under. */
  ghost predicate NamesRecord(c: string, c': string) {
    var d := DropDot(c');
    || d == DropDot(c)
    || d == Dot(c, "apiId")
    || d == Dot(c, "lastLiveTime")
    || d == Dot(c, Dot("observing", "count"))
    || exists i: nat :: d == Dot(c, Dot("observing", Itoa(i)))
  }

  /** A client's position is kept at one of another client's entries exactly when its id names that entry. */
  lemma PositionsShareExactly(c: string, c': string)
    ensures (exists k {:trigger PathOf(k)} :: OfClient(k) && k.c == c && PathOf(RegPos(c')) == PathOf(k)) <==> NamesRecord(c, c')
  {
    hide PathOf, Dot, DropDot, Itoa;
    forall k | OfClient(k) ensures PathOf(RegPos(c')) == PathOf(k) <==> DropDot(c') == RecordText(k) {
      RecordsShareExactly(RegPos(c'), k);
    }
    if NamesRecord(c, c') {
      var d := DropDot(c');
      if i: nat :| d == Dot(c, Dot("observing", Itoa(i))) {
        assert RecordText(SubSlot(c, i)) == d;
      }
      assert RecordText(RegPos(c)) == DropDot(c) && RecordText(RegApi(c)) == Dot(c, "apiId");
      assert RecordText(RegLive(c)) == Dot(c, "lastLiveTime");
      assert RecordText(SubCount(c)) == Dot(c, Dot("observing", "count"));
    }
  }

  lemma EndingsDiffer(a: Path, k: Key, a': Path, k': Key)
    requires OfClient(k) && !k.RegPos? && OfClient(k') && !k'.RegPos? && a + Ending(k) == a' + Ending(k')
    ensures a == a' && (k.c == k'.c ==> k == k')
  {
    hide Itoa;
    var s := a + Ending(k);
    assert s[|s| - 1] == Ending(k)[|Ending(k)| - 1] == Ending(k')[|Ending(k')| - 1];
    assert !IsDigit("apiId"[0]) && !IsDigit("lastLiveTime"[0]);
    if k.SubSlot? {
      DigitsAreNoName(k.i);
      if k'.SubSlot? {
        ItoaInjective(k.i, k'.i);
      }
    }
    if k'.SubSlot? {
      DigitsAreNoName(k'.i);
    }
    assert |Ending(k)| == |Ending(k')|;
    assert a == s[..|a|] && a' == s[..|a'|];
  }

  /** Entries other than positions are never shared, whatever the ids. */
  lemma OthersAreApart(k: Key, k': Key)
    requires OfClient(k) && !k.RegPos? && OfClient(k') && !k'.RegPos?
    ensures PathOf(k) == PathOf(k') <==> k == k'
  {
    hide PathOf, Split, Ending, Itoa;
    EndingIs(k);
    EndingIs(k');
    if PathOf(k) == PathOf(k') {
      var a, a' := Split(k.c, '.'), Split(k'.c, '.');
      TailsShare(["internal", "clients", "byId"], [], a + Ending(k), a' + Ending(k'));
      assert [] + (a + Ending(k)) == a + Ending(k) && [] + (a' + Ending(k')) == a' + Ending(k');
      EndingsDiffer(a, k, a', k');
      SplitInjective(k.c, k'.c, '.');
    }
  }

  // ---- all entries ----

  predicate VarsOk(k: Key) { OfVariable(k) ==> VarOk(k.v) }

  /** Under one variable, or in the records, the two names end in the same text. */
  predicate SameText(k: Key, k': Key) {
    || (k.ObsIndex? && k'.ObsIndex? && k.v == k'.v && IndexText(k.c, k.t) == IndexText(k'.c, k'.t))
    || (OfClient(k) && OfClient(k') && RecordText(k) == RecordText(k'))
  }

  predicate HoldsId(k: Key) { k.ObsIndex? || OfClient(k) }

  lemma UnnamedIsOk(k: Key)
    requires VarsOk(k) && !HoldsId(k)
    ensures KeyOk(k)
  {
  }

  /** An index entry, or a record's, is apart from every entry of another kind. */
  lemma KindsAreApart(k: Key, k': Key)
    requires VarsOk(k) && VarsOk(k') && HoldsId(k) && !(k.ObsIndex? && k'.ObsIndex?) && !(OfClient(k) && OfClient(k'))
    ensures PathOf(k) != PathOf(k')
  {
    hide Itoa, NodePath, Split;
    var p, p' := PathOf(k), PathOf(k');
    if OfVariable(k) != OfVariable(k') {
      assert p[0] != p'[0];
    } else if k.ObsIndex? {
      if k'.LockFlag? {
        assert p[|k.v|] == "_observers";
        assert p' == k'.v + ["_lock"];
      } else {
        assert Rel(k)[0] == "byId" && Rel(k')[0] == "list";
        if p == p' {
          SplitAtObservers(k.v, Rel(k), k'.v, Rel(k'));
          assert false;
        }
      }
    } else {
      assert p[2] == "byId" && p'[2] == "list";
    }
  }

  /** Whatever ids and tags look like: two entries share a path exactly when they are one, or their names end in the same text. */
  lemma EntriesShareExactly(k: Key, k': Key)
    requires VarsOk(k) && VarsOk(k')
    ensures PathOf(k) == PathOf(k') <==> k == k' || SameText(k, k')
  {
    hide PathOf, IndexText, RecordText, VarOk;
    if k.ObsIndex? && k'.ObsIndex? {
      IndexesShareExactly(k.v, k.c, k.t, k'.v, k'.c, k'.t);
    } else if OfClient(k) && OfClient(k') {
      RecordsShareExactly(k, k');
    } else if HoldsId(k) {
      KindsAreApart(k, k');
    } else if HoldsId(k') {
      KindsAreApart(k', k);
    } else if PathOf(k) == PathOf(k') {
      UnnamedIsOk(k);
      UnnamedIsOk(k');
      PathOfInjective(k, k');
    }
  }

  // ---- two clients ----

  /** An entry kept for a client: on a variable's index or in the client's record. */
  predicate KeptFor(k: Key, c: string) { HoldsId(k) && VarsOk(k) && k.c == c }

  predicate Share(k: Key, k': Key) { PathOf(k) == PathOf(k') }

  /** Two different clients have some entry in common exactly when one id runs into the other's entries. */
  lemma ClientsApartExactly(c: string, c': string)
    requires c != c'
    ensures (exists k, k' {:trigger Share(k, k')} :: KeptFor(k, c) && KeptFor(k', c') && Share(k, k'))
       <==> ExtendsIndex(c, c') || ExtendsIndex(c', c) || NamesRecord(c, c') || NamesRecord(c', c)
  {
    SomeVariable();
    hide PathOf, ExtendsIndex, NamesRecord, VarOk, Split;
    var v := ["vars", "x"];
    ClientsShareExactly(v, c, c');
    if t, t' :| PathOf(ObsIndex(v, c, t)) == PathOf(ObsIndex(v, c', t')) {
      assert Share(ObsIndex(v, c, t), ObsIndex(v, c', t'));
    }
    PositionsShareExactly(c, c');
    if NamesRecord(c, c') {
      var k {:trigger PathOf(k)} :| OfClient(k) && k.c == c && PathOf(RegPos(c')) == PathOf(k);
      assert Share(k, RegPos(c'));
    }
    PositionsShareExactly(c', c);
    if NamesRecord(c', c) {
      var k {:trigger PathOf(k)} :| OfClient(k) && k.c == c' && PathOf(RegPos(c)) == PathOf(k);
      assert Share(RegPos(c), k);
    }
    if k, k' :| KeptFor(k, c) && KeptFor(k', c') && Share(k, k') {
      SharedNames(k, c, k', c');
    }
  }

  lemma SomeVariable()
    ensures VarOk(["vars", "x"])
  {
  }

  lemma SharedNames(k: Key, c: string, k': Key, c': string)
    requires c != c' && KeptFor(k, c) && KeptFor(k', c') && Share(k, k')
    ensures ExtendsIndex(c, c') || ExtendsIndex(c', c) || NamesRecord(c, c') || NamesRecord(c', c)
  {
    hide PathOf, ExtendsIndex, NamesRecord, VarOk, Split, IndexText, RecordText;
    EntriesShareExactly(k, k');
    if k.ObsIndex? {
      SharedExtends(k.v, c, k.t, c', k'.t);
    } else if k.RegPos? {
      PositionsShareExactly(c', c);
    } else if k'.RegPos? {
      PositionsShareExactly(c, c');
    } else {
      OthersAreApart(k, k');
    }
  }
}
