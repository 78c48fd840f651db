/** Which entries the dump file can carry, and which writes of the server and of clients leave only such entries. */
module CleanStores {
  import opened Options
  import opened Text
  import opened Decimal
  import opened FlatStore
  import opened DumpText
  import opened RoundTrip
  import opened Keys
  import opened Views
  import opened EntryLists
  import opened Observers
  import opened Registry
  import opened Subscriptions
  import opened Runs
  import opened Bookkeeping
  import opened Wildcard
  import opened Writes

  // ---- one path at a time ----

  predicate CleanWord(s: string) { CleanText(s) && '.' !in s }

  /** The ids and tags of observer lists become words of index entries. */
  predicate InList(p: Path) {
    |p| >= 4 && p[|p| - 4] == "_observers" && p[|p| - 3] == "list" && (p[|p| - 1] == "clientId" || p[|p| - 1] == "metadata")
  }

  /** What the file can carry at a path, and what is later used to build other paths. */
  predicate GoodAt(p: Path, x: string) {
    x != "" ==> Clean(p, x) && Canonical(p) && (InList(p) ==> CleanWord(x))
  }

  /** A dump-safe store whose observer lists hold clean ids and tags. */
  ghost predicate Tidy(d: Store) { forall p {:trigger Val(d, p)} :: GoodAt(p, Val(d, p)) }

  lemma TidyIsSafe(d: Store)
    requires Tidy(d)
    ensures DumpSafe(d)
  {
    forall p | p in d && d[p] != "" ensures Clean(p, d[p]) && Canonical(p) {
      assert GoodAt(p, Val(d, p));
    }
  }

  /** A change that keeps a store dump-safe, and clean lists clean. */
  ghost predicate Keeps(d: Store, d': Store) { DumpSafe(d') && (Tidy(d) ==> Tidy(d')) }

  lemma PutKeeps(d: Store, p: Path, x: string)
    requires DumpSafe(d) && GoodAt(p, x)
    ensures Keeps(d, Put(d, p, x))
  {
    PutSafeExactly(d, p, x);
    hide GoodAt, Put, DumpSafe;
    if Tidy(d) {
      forall q ensures GoodAt(q, Val(Put(d, p, x), q)) {
        PutVal(d, p, x, q);
        assert GoodAt(q, Val(d, q));
      }
    }
  }

  /** Nothing that only removes nodes or empties them can spoil a store. */
  lemma RemoveKeeps(d: Store, p: Path, cascade: bool)
    requires DumpSafe(d)
    ensures Keeps(d, Remove(d, p, cascade))
  {
    var d' := Remove(d, p, cascade);
    if Tidy(d) {
      forall q ensures GoodAt(q, Val(d', q)) {
        assert GoodAt(q, Val(d, q));
      }
    }
    forall q | q in d' && d'[q] != "" ensures Clean(q, d'[q]) && Canonical(q) {
      assert q in d && d[q] == d'[q];
    }
  }

  lemma EmptyIsTidy()
    ensures Tidy(EMPTY)
  {
  }

  // ---- the entries the server writes ----

  predicate Fixed(w: string) {
    || w in {"vars", "_observers", "list", "count", "clientId", "metadata", "byId", "byMetadata", "_lock"}
    || w in {"internal", "clients", "apiId", "lastLiveTime", "observing"}
  }

  lemma FixedIsClean(w: string)
    requires Fixed(w)
    ensures CleanText(w)
  {
  }

  /** The path of a variable whose name the file can carry. */
  predicate CleanVar(v: Path) { v != [] && v[0] == "vars" && forall w | w in v :: CleanText(w) }

  lemma IndexEntry(v: Path, c: string, t: string, x: string)
    requires CleanVar(v) && CleanWord(c) && CleanWord(t) && '\n' !in x
    ensures GoodAt(PathOf(ObsIndex(v, c, t)), x)
  {
    var r := ["_observers", "byId", c, "byMetadata"] + if t == "" then [] else [t];
    IndexPath(v, c, t);
    hide PathOf, CleanText;
    BelowVariable(v, r);
  }

  lemma IndexPath(v: Path, c: string, t: string)
    requires '.' !in c && '.' !in t
    ensures PathOf(ObsIndex(v, c, t)) == v + (["_observers", "byId", c, "byMetadata"] + if t == "" then [] else [t])
  {
    WordPath(c);
    WordPath(t);
    hide NodePath, Split;
  }

  lemma CountEntry(v: Path, x: string)
    requires CleanVar(v) && '\n' !in x
    ensures GoodAt(PathOf(ObsCount(v)), x)
  {
    var r := ["_observers", "list", "count"];
    assert PathOf(ObsCount(v)) == v + r;
    hide PathOf;
    BelowVariable(v, r);
  }

  lemma FlagEntry(v: Path, x: string)
    requires CleanVar(v) && '\n' !in x
    ensures GoodAt(PathOf(LockFlag(v)), x)
  {
    FlagPath(v);
    hide PathOf;
    BelowVariable(v, ["_lock"]);
  }

  predicate FixedOrClean(r: Path) { forall w | w in r :: Fixed(w) || CleanText(w) }

  lemma WordsAreClean(r: Path)
    requires FixedOrClean(r)
    ensures forall w | w in r :: CleanText(w)
  {
    hide Fixed, CleanText;
    forall w | w in r ensures CleanText(w) {
      if Fixed(w) {
        FixedIsClean(w);
      }
    }
  }

  lemma BelowVariable(v: Path, r: Path)
    requires CleanVar(v) && r != [] && r[|r| - 1] != "" && FixedOrClean(r)
    ensures var p := v + r; p[0] == "vars" && Canonical(p) && forall w | w in p :: CleanText(w)
    ensures var p := v + r; p[|p| - 1] == r[|r| - 1] && (|r| > 3 ==> p[|p| - 4] == r[|r| - 4])
  {
    WordsAreClean(r);
    hide CleanText, FixedOrClean;
  }

  lemma SlotEntry(v: Path, i: nat, k: Key)
    requires k == ObsClient(v, i) || k == ObsTag(v, i)
    ensures InList(PathOf(k))
    ensures CleanVar(v) ==> forall x | CleanWord(x) :: GoodAt(PathOf(k), x)
  {
    var last := if k.ObsClient? then "clientId" else "metadata";
    SlotPathIs(v, i, k);
    DigitsAreClean(i);
    hide PathOf, Itoa;
    var r := ["_observers", "list", Itoa(i), last];
    if CleanVar(v) {
      BelowVariable(v, r);
    }
  }

  lemma SlotPathIs(v: Path, i: nat, k: Key)
    requires k == ObsClient(v, i) || k == ObsTag(v, i)
    ensures PathOf(k) == v + ["_observers", "list", Itoa(i), if k.ObsClient? then "clientId" else "metadata"]
  {
    hide Itoa;
  }

  lemma DigitsAreClean(i: nat)
    ensures CleanWord(Itoa(i))
  {
    assert !IsDigit('=') && !IsDigit('\n') && !IsDigit('.');
  }

  lemma SlotIsClean(d: Store, v: Path, i: nat)
    requires Tidy(d)
    ensures CleanWord(EntryAt(d, v, i).client) && CleanWord(EntryAt(d, v, i).tag)
  {
    hide InList, Itoa;
    SlotEntry(v, i, ObsClient(v, i));
    SlotEntry(v, i, ObsTag(v, i));
    assert GoodAt(PathOf(ObsClient(v, i)), Val(d, PathOf(ObsClient(v, i))));
    assert GoodAt(PathOf(ObsTag(v, i)), Val(d, PathOf(ObsTag(v, i))));
  }

  lemma PutEntryKeeps(d: Store, v: Path, i: nat, e: Entry)
    requires DumpSafe(d) && CleanVar(v) && CleanWord(e.client) && CleanWord(e.tag)
    ensures Keeps(d, PutEntry(d, v, i, e))
  {
    hide Tidy, DumpSafe, GoodAt, PathOf, Itoa, Put, CleanVar, Val;
    DigitsAreClean(i);
    var d1 := PutKey(d, ObsClient(v, i), e.client);
    var d2 := PutKey(d1, ObsTag(v, i), e.tag);
    SlotEntry(v, i, ObsClient(v, i));
    PutKeeps(d, PathOf(ObsClient(v, i)), e.client);
    SlotEntry(v, i, ObsTag(v, i));
    PutKeeps(d1, PathOf(ObsTag(v, i)), e.tag);
    IndexEntry(v, e.client, e.tag, Itoa(i));
    PutKeeps(d2, PathOf(ObsIndex(v, e.client, e.tag)), Itoa(i));
  }

  lemma CountKeeps(d: Store, v: Path, n: nat)
    requires DumpSafe(d) && CleanVar(v)
    ensures Keeps(d, PutKey(d, ObsCount(v), Itoa(n)))
  {
    hide Tidy, DumpSafe, GoodAt, PathOf, Itoa, Put, CleanVar;
    DigitsAreClean(n);
    CountEntry(v, Itoa(n));
    PutKeeps(d, PathOf(ObsCount(v)), Itoa(n));
  }

  lemma RegisteredKeeps(d: Store, v: Path, e: Entry)
    requires DumpSafe(d) && CleanVar(v) && CleanWord(e.client) && CleanWord(e.tag)
    ensures Keeps(d, Registered(d, v, e))
  {
    hide Tidy, DumpSafe, PutEntry, PutKey, CleanVar, CleanWord, Itoa, Size;
    PutEntryKeeps(d, v, Size(d, v), e);
    CountKeeps(PutEntry(d, v, Size(d, v), e), v, Size(d, v) + 1);
  }

  lemma {:induction false} ShiftedTidy(d: Store, v: Path, i: nat, j: nat)
    requires Tidy(d) && CleanVar(v) && i <= j
    ensures Tidy(Shifted(d, v, i, j))
    decreases j
  {
    hide Tidy, PutEntry, EntryAt, CleanVar, CleanWord;
    if i < j {
      var d' := Shifted(d, v, i, j - 1);
      ShiftedTidy(d, v, i, j - 1);
      TidyIsSafe(d');
      SlotIsClean(d', v, j);
      PutEntryKeeps(d', v, j - 1, EntryAt(d', v, j));
    }
  }

  /** Where a client is listed, the variable's name is one the dump can carry. */
  lemma ListedIsClean(d: Store, v: Path, i: nat)
    requires DumpSafe(d) && v != [] && v[0] == "vars" && EntryAt(d, v, i).client != ""
    ensures CleanVar(v)
  {
    var k := ObsClient(v, i);
    var p := PathOf(k);
    SlotPathIs(v, i, k);
    hide Itoa, Canonical;
    assert p in d && Clean(p, d[p]);
    assert forall w | w in v :: w in p;
  }

  lemma RemovedTidy(d: Store, v: Path, e: Entry)
    requires Tidy(d) && v != [] && v[0] == "vars" && e.client != ""
    ensures Tidy(Removed(d, v, e))
  {
    hide Tidy, DumpSafe, CleanVar, Shifted, Remove, PutKey, Size, Itoa, NodePath, EntryAt;
    var n := Size(d, v);
    var i := FindLast(d, v, e, n);
    if i >= 0 {
      FoundThere(d, v, e, n);
      TidyIsSafe(d);
      ListedIsClean(d, v, i);
      hide FindLast;
      var d1 := Shifted(d, v, i, n - 1);
      var d2 := CutSlot(d1, v, n - 1);
      ShiftedTidy(d, v, i, n - 1);
      TidyIsSafe(d1);
      RemoveKeeps(d1, SlotPath(v, n - 1), true);
      TidyIsSafe(d2);
      CountKeeps(d2, v, n - 1);
      RemoveKeeps(PutKey(d2, ObsCount(v), Itoa(n - 1)), ByIdPath(v, e.client), true);
    }
  }

  lemma {:induction false} FoundThere(d: Store, v: Path, e: Entry, n: nat)
    ensures FindLast(d, v, e, n) >= 0 ==> EntryAt(d, v, FindLast(d, v, e, n)) == e
  {
    hide EntryAt;
    if n > 0 {
      FoundThere(d, v, e, n - 1);
    }
  }

  lemma {:induction false} PurgedTidy(d: Store, v: Path, c: string, i: nat)
    requires Tidy(d) && v != [] && v[0] == "vars" && c != ""
    ensures Tidy(Purged(d, v, c, i))
    decreases i
  {
    hide Tidy, Removed, EntryAt;
    if i > 0 {
      var e := EntryAt(d, v, i - 1);
      if e.client == c {
        RemovedTidy(d, v, e);
      }
      PurgedTidy(if e.client == c then Removed(d, v, e) else d, v, c, i - 1);
    }
  }

  // ---- the client's side ----

  lemma InternalEntry(r: Path)
    requires 2 <= |r| <= 4 && r[|r| - 1] != "" && r[0] != "_observers" && FixedOrClean(r)
    ensures var p := ["internal", "clients"] + r; Canonical(p) && !InList(p) && forall w | w in p :: CleanText(w)
  {
    var p := ["internal", "clients"] + r;
    WordsAreClean(p);
    hide CleanText;
    assert p[0] == "internal" && p[1] == "clients" && p[2] == r[0] && p[|p| - 1] == r[|r| - 1];
  }

  /** A key of the registry, or of client `c`'s record. */
  predicate RecordKey(k: Key, c: string, i: nat) {
    k in {RegCount, RegSlot(i), RegPos(c), RegApi(c), RegLive(c), SubCount(c), SubSlot(c, i)}
  }

  lemma RecordEntry(c: string, i: nat, k: Key, x: string)
    requires ClientOk(c) && CleanText(c) && '\n' !in x && RecordKey(k, c, i)
    ensures GoodAt(PathOf(k), x)
  {
    RecordWords(c, i, k);
    hide Itoa, Rel, PathOf, Split, NodePath, RecordKey;
    InternalEntry(Rel(k));
  }

  lemma RecordWords(c: string, i: nat, k: Key)
    requires ClientOk(c) && CleanText(c) && RecordKey(k, c, i)
    ensures PathOf(k) == ["internal", "clients"] + Rel(k)
    ensures var r := Rel(k); 2 <= |r| <= 4 && r[|r| - 1] != "" && r[0] != "_observers"
    ensures FixedOrClean(Rel(k))
  {
    DigitsAreClean(i);
    RecordKeysOk(c, i);
    hide Itoa, Split, NodePath, CleanText;
    RelOf(k);
  }

  lemma PutRecord(d: Store, c: string, i: nat, k: Key, x: string)
    requires DumpSafe(d) && ClientOk(c) && CleanText(c) && '\n' !in x && RecordKey(k, c, i)
    ensures Keeps(d, PutKey(d, k, x))
  {
    hide *;
    RecordEntry(c, i, k, x);
    PutKeeps(d, PathOf(k), x);
    PutKeyPut(d, k, x);
  }

  lemma PutKeyPut(d: Store, k: Key, x: string)
    ensures PutKey(d, k, x) == Put(d, PathOf(k), x) && View(d, k) == Val(d, PathOf(k))
  {
  }

  /** What a dump-safe store holds fits on one line. */
  lemma ViewIsOneLine(d: Store, k: Key)
    requires DumpSafe(d)
    ensures '\n' !in View(d, k)
  {
    hide Canonical, PathOf;
    var p := PathOf(k);
    assert p in d && d[p] != "" ==> Clean(p, d[p]);
  }

  lemma NumberIsClean(n: nat)
    ensures CleanText(Itoa(n)) && '\n' !in Itoa(n)
  {
    hide Itoa;
    DigitsAreClean(n);
  }

  lemma InitializedKeeps(d: Store, c: string, apiId: Option<string>, now: string)
    requires DumpSafe(d) && ClientOk(c) && CleanText(c) && '\n' !in now && (apiId.Some? ==> '\n' !in apiId.value)
    ensures Keeps(d, Initialized(d, c, apiId, now))
  {
    hide Tidy, DumpSafe, PutKey, Itoa, ClientOk, Has, RegisteredCount, NatOf;
    var n := NatOf(RegisteredCount(d));
    NumberIsClean(n);
    NumberIsClean(n + 1);
    var e1 := PutKey(d, RegCount, Itoa(n + 1));
    var e2 := PutKey(e1, RegSlot(n), c);
    PutRecord(d, c, n, RegCount, Itoa(n + 1));
    PutRecord(e1, c, n, RegSlot(n), c);
    PutRecord(e2, c, n, RegPos(c), Itoa(n));
    var d1 := if Has(d, RegPos(c)) then d else PutKey(e2, RegPos(c), Itoa(n));
    if apiId.Some? {
      PutRecord(d1, c, n, RegApi(c), apiId.value);
    }
    PutRecord(if apiId.Some? then PutKey(d1, RegApi(c), apiId.value) else d1, c, n, RegLive(c), now);
  }

  lemma SubscribedKeeps(d: Store, c: string, full: string, now: string)
    requires DumpSafe(d) && ClientOk(c) && CleanText(c) && '\n' !in full && '\n' !in now
    ensures Keeps(d, Subscribed(d, c, full, now))
  {
    hide Tidy, DumpSafe, PutKey, Itoa, ClientOk, SubsCount, NatOf;
    var d1 := PutKey(d, RegLive(c), now);
    var n := NatOf(SubsCount(d1, c));
    NumberIsClean(n + 1);
    PutRecord(d, c, n, RegLive(c), now);
    PutRecord(d1, c, n, SubCount(c), Itoa(n + 1));
    PutRecord(PutKey(d1, SubCount(c), Itoa(n + 1)), c, n, SubSlot(c, n), full);
  }

  lemma {:induction false} SubShiftedKeeps(d: Store, c: string, i: nat, j: nat)
    requires DumpSafe(d) && ClientOk(c) && CleanText(c) && i <= j
    ensures Keeps(d, SubShifted(d, c, i, j))
    decreases j
  {
    hide Tidy, DumpSafe, PutKey, ClientOk, View;
    if i < j {
      var d' := SubShifted(d, c, i, j - 1);
      SubShiftedKeeps(d, c, i, j - 1);
      ViewIsOneLine(d', SubSlot(c, j));
      PutRecord(d', c, j - 1, SubSlot(c, j - 1), View(d', SubSlot(c, j)));
    }
  }

  lemma UnsubscribedKeeps(d: Store, c: string, full: string, now: string)
    requires DumpSafe(d) && ClientOk(c) && CleanText(c) && '\n' !in now
    ensures Keeps(d, Unsubscribed(d, c, full, now))
  {
    hide Tidy, DumpSafe, PutKey, Remove, ClientOk, SubsCount, NatOf, FindSub, SubShifted, Itoa;
    var d1 := PutKey(d, RegLive(c), now);
    PutRecord(d, c, 0, RegLive(c), now);
    var n := NatOf(SubsCount(d1, c));
    var i := FindSub(d1, c, full, 0, n);
    if i >= 0 {
      var e1 := SubShifted(d1, c, i, n - 1);
      SubShiftedKeeps(d1, c, i, n - 1);
      RemoveKeeps(e1, PathOf(SubSlot(c, n - 1)), false);
      NumberIsClean(n - 1);
      PutRecord(DropKey(e1, SubSlot(c, n - 1)), c, n, SubCount(c), Itoa(n - 1));
    }
  }

  lemma {:induction false} RegShiftedKeeps(d: Store, i: nat, j: nat)
    requires DumpSafe(d) && i <= j
    ensures Keeps(d, RegShifted(d, i, j))
    decreases j
  {
    hide Tidy, DumpSafe, PutKey, View;
    if i < j {
      var d' := RegShifted(d, i, j - 1);
      RegShiftedKeeps(d, i, j - 1);
      ViewIsOneLine(d', RegSlot(j));
      PutRecord(d', "c", j - 1, RegSlot(j - 1), View(d', RegSlot(j)));
    }
  }

  lemma UnregisteredKeeps(d: Store, c: string)
    requires DumpSafe(d)
    ensures Keeps(d, Unregistered(d, c))
  {
    hide Tidy, DumpSafe, PutKey, Remove, Position, RegisteredCount, NatOf, RegShifted, Itoa, PathOf;
    var i, n := Position(d, c), NatOf(RegisteredCount(d));
    if i > -1 && n > 0 {
      var e1 := RegShifted(d, i, if i < n then n - 1 else i);
      RegShiftedKeeps(d, i, if i < n then n - 1 else i);
      RemoveKeeps(e1, PathOf(RegSlot(n - 1)), false);
      NumberIsClean(n - 1);
      PutRecord(DropKey(e1, RegSlot(n - 1)), "c", n, RegCount, Itoa(n - 1));
    }
    RemoveKeeps(if i > -1 && n > 0 then Delisted(d, i, n) else d, PathOf(RegPos(c)), true);
  }

  // ---- variables ----

  lemma VarIsClean(n: string)
    requires CleanText(n)
    ensures CleanVar(PathOfVar(n))
  {
    var m := Controlled(n);
    VarsFirst(n);
    assert CleanText(m) by {
      assert forall c | c in Full(n) :: c in "vars." || c in n;
    }
    hide Controlled;
    SplitChars(m, '.', '=');
    SplitChars(m, '.', '\n');
  }

  lemma {:induction false} PurgedNamesTidy(d: Store, c: string, names: seq<string>)
    requires Tidy(d) && c != ""
    ensures Tidy(PurgedNames(d, c, names))
    decreases |names|
  {
    hide Tidy, PurgedAll, PathOfVar;
    if names != [] {
      PurgedAllTidy(d, names[0], c);
      PurgedNamesTidy(PurgedAll(d, PathOfVar(names[0]), c), c, names[1..]);
    }
  }

  lemma PurgedAllTidy(d: Store, n: string, c: string)
    requires Tidy(d) && c != ""
    ensures Tidy(PurgedAll(d, PathOfVar(n), c))
  {
    VarsFirst(n);
    hide Tidy, Purged, Size, Controlled, Split;
    PurgedTidy(d, PathOfVar(n), c, Size(d, PathOfVar(n)));
  }

  lemma DeletedTidy(d: Store, c: string, names: seq<string>)
    requires Tidy(d) && ClientOk(c)
    ensures Tidy(Deleted(d, c, names))
  {
    TidyIsSafe(d);
    hide Tidy, DumpSafe, Unregistered, PurgedNames;
    UnregisteredKeeps(d, c);
    PurgedNamesTidy(Unregistered(d, c), c, names);
  }

  lemma {:induction false} ClearedKeeps(d: Store, ps: seq<Path>)
    requires DumpSafe(d)
    ensures Keeps(d, Cleared(d, ps))
  {
    hide Tidy, DumpSafe, Remove;
    if ps != [] {
      var n := |ps| - 1;
      ClearedKeeps(d, ps[..n]);
      RemoveKeeps(Cleared(d, ps[..n]), ps[n], false);
    }
  }

  // ---- what clients write ----

  /** An accepted write the dump can carry: no line end in the value, no empty word at the end of the path. */
  predicate Carried(n: string, v: string) {
    '*' in Controlled(n) || v == "" || ('\n' !in v && !HasSuffix(Controlled(n), ".."))
  }

  lemma LastWord(s: string)
    ensures var ws := Split(s, '.'); ws[|ws| - 1] == "" <==> s == "" || s[|s| - 1] == '.'
  {
    hide Split;
    var ws := Split(s, '.');
    var front, last := ws[..|ws| - 1], ws[|ws| - 1];
    JoinSplit(s, '.');
    SplitPiece("", '.');
    if s != "" && s[|s| - 1] == '.' {
      assert s == s[..|s| - 1] + ['.'] + "";
      SplitConcat(s[..|s| - 1], "", '.');
    } else if s != "" && last == "" && front != [] {
      assert ws == front + [last];
      JoinConcat(front, [last], '.');
    }
  }

  /** A name's path ends in an empty word exactly when the name ends in two dots. */
  lemma EndsEmpty(m: string)
    requires |m| > 1
    ensures var p := NodePath(m); p[|p| - 1] == "" <==> HasSuffix(m, "..")
  {
    var up := m[..|m| - 1];
    assert m == up + [m[|m| - 1]];
    if m[|m| - 1] == '.' {
      assert m == up + "." + "";
      NodePathExtend(up, "");
      LastWord(up);
      assert HasSuffix(m, "..") <==> up[|up| - 1] == '.';
    } else {
      NodePathIsSplit(m);
      LastWord(m);
    }
  }

  lemma NotAllowed(c: char)
    requires c in "=\n"
    ensures c !in NAME_CHARACTERS
  {
  }

  lemma WrittenWords(n: string)
    requires Acceptable(n)
    ensures forall w | w in NodeOf(n) :: CleanText(w)
  {
    hide Split, NodePath, HasHiddenWord;
    ControlledWords(n);
    NotAllowed('=');
    NotAllowed('\n');
    FixedIsClean("vars");
    hide *;
    forall w | w in NodeOf(n) ensures CleanText(w) {
      if w in Split(n, '.') {
        WordsAreText(n, w);
      }
    }
  }

  lemma WrittenAt(n: string, v: string)
    requires Acceptable(n) && v != ""
    ensures Clean(NodeOf(n), v) && Canonical(NodeOf(n)) <==> '\n' !in v && !HasSuffix(Controlled(n), "..")
  {
    WrittenWords(n);
    VarsFirst(n);
    hide NodePath, Split, Acceptable;
    EndsEmpty(Controlled(n));
  }

  lemma PutSafeExactly(d: Store, p: Path, x: string)
    requires DumpSafe(d)
    ensures DumpSafe(Put(d, p, x)) <==> x == "" || (Clean(p, x) && Canonical(p))
  {
    var d' := Put(d, p, x);
    hide Clean, Canonical;
    assert p in d' && d'[p] == x;
    forall q | q in d' && d'[q] != "" && q != p ensures Clean(q, d'[q]) && Canonical(q) {
      assert q in d && d'[q] == d[q];
    }
  }

  /** Which accepted writes keep a store dump-safe, exactly. */
  lemma WriteKeepsSafeExactly(d: Store, n: string, v: string)
    requires DumpSafe(d) && Acceptable(n)
    ensures DumpSafe(Written(d, n, v)) <==> Carried(n, v)
  {
    hide DumpSafe, Acceptable, Put, Clean, Canonical, NodeOf, Controlled, HasSuffix;
    PutSafeExactly(d, NodeOf(n), v);
    if v != "" {
      WrittenAt(n, v);
    }
  }

  lemma WrittenKeeps(d: Store, n: string, v: string)
    requires DumpSafe(d) && Acceptable(n) && Carried(n, v)
    ensures Keeps(d, Written(d, n, v))
  {
    if '*' !in Controlled(n) {
      WrittenPath(n);
      assert Hidden("_observers");
      var p := NodeOf(n);
      assert !InList(p) by {
        if |p| >= 4 {
          assert p[|p| - 4] in p;
        }
      }
      if v != "" {
        WrittenAt(n, v);
      }
      hide Tidy, DumpSafe, Clean, Canonical, InList, NodeOf, HasSuffix, Acceptable, Put;
      PutKeeps(d, p, v);
    }
  }

  lemma FlagKeeps(d: Store, n: string, x: string)
    requires DumpSafe(d) && CleanText(n) && '\n' !in x
    ensures Keeps(d, PutKey(d, LockFlag(PathOfVar(n)), x))
  {
    hide *;
    VarIsClean(n);
    FlagEntry(PathOfVar(n), x);
    PutKeeps(d, PathOf(LockFlag(PathOfVar(n))), x);
    PutKeyPut(d, LockFlag(PathOfVar(n)), x);
  }

  lemma ReloadKeeps(d: Store, order: seq<Path>)
    requires Closed(d) && DumpSafe(d) && Visits(d, [], order)
    ensures Keeps(d, Reloaded(d, order))
  {
    hide Reloaded, GoodAt, Closed, Visits;
    RoundTripExactly(d, order);
    SafeValues(d, Reloaded(d, order));
    if Tidy(d) {
      forall p ensures GoodAt(p, Val(Reloaded(d, order), p)) {
        assert GoodAt(p, Val(d, p));
        assert Val(Reloaded(d, order), p) == Val(d, p);
      }
    }
  }

  lemma SafeValues(d: Store, d': Store)
    requires DumpSafe(d) && SameValues(d, d')
    ensures DumpSafe(d')
  {
    forall p | p in d' && d'[p] != "" ensures Clean(p, d'[p]) && Canonical(p) {
      assert Val(d', p) == Val(d, p);
    }
  }
}
