/** The store's metadata entries under readable names: which path each lives at, and that no two share one. */
module Keys {
  import opened Text
  import opened Decimal
  import opened FlatStore

  /**
   Observer lists hang below a variable, client records below `internal.clients`. A variable is given
   by the words of its full name, `vars` included.
   */
  datatype Key =
    | ObsCount(v: Path)
    | ObsClient(v: Path, i: nat)
    | ObsTag(v: Path, i: nat)
    | ObsIndex(v: Path, c: string, t: string)
    | LockFlag(v: Path)
    | RegCount
    | RegSlot(i: nat)
    | RegPos(c: string)
    | RegApi(c: string)
    | RegLive(c: string)
    | SubCount(c: string)
    | SubSlot(c: string, i: nat)

  // ---- names as the helpers spell them ----

  function Dot(a: string, b: string): string { a + "." + b }

  function SlotName(base: string, i: nat): string { Dot(base, Dot("_observers", Dot("list", Itoa(i)))) }
  function ByIdName(base: string, c: string): string { Dot(Dot(base, Dot("_observers", "byId")), c) }
  function ClientName(c: string): string { Dot(Dot("internal", Dot("clients", "byId")), c) }
  function RegisterName(w: string): string { Dot("internal", Dot("clients", Dot("list", w))) }

  /** The dotted name of an entry; `base` is the variable's full name, for the entries that hang below one. */
  function NameOf(base: string, k: Key): string {
    match k
    case ObsCount(_) => Dot(base, Dot("_observers", Dot("list", "count")))
    case ObsClient(_, i) => Dot(SlotName(base, i), "clientId")
    case ObsTag(_, i) => Dot(SlotName(base, i), "metadata")
    case ObsIndex(_, c, t) => Dot(Dot(ByIdName(base, c), "byMetadata"), t)
    case LockFlag(_) => Dot(base, "_lock")
    case RegCount => RegisterName("count")
    case RegSlot(i) => RegisterName(Itoa(i))
    case RegPos(c) => ClientName(c)
    case RegApi(c) => Dot(ClientName(c), "apiId")
    case RegLive(c) => Dot(ClientName(c), "lastLiveTime")
    case SubCount(c) => Dot(ClientName(c), Dot("observing", "count"))
    case SubSlot(c, i) => Dot(ClientName(c), Dot("observing", Itoa(i)))
  }

  // ---- the names written out ----

  lemma DotEnd(a: string, b: string)
    ensures Dot(a, b) == a + ("." + b)
  {
  }

  lemma ThreeDots(a: string, b: string, c: string)
    ensures Dot(a, Dot(b, c)) == a + ("." + b + ".") + c
  {
  }

  lemma FourDots(a: string, b: string, c: string, e: string)
    ensures Dot(a, Dot(b, Dot(c, e))) == a + ("." + b + "." + c + ".") + e
  {
    assert Dot(b, Dot(c, e)) == (b + "." + c + ".") + e;
  }

  lemma SlotSpelled(base: string, w: string)
    ensures Dot(base, Dot("_observers", Dot("list", w))) == base + "._observers.list." + w
  {
    hide Dot;
    FourDots(base, "_observers", "list", w);
    assert "." + "_observers" + "." + "list" + "." == "._observers.list.";
  }

  lemma ByIdSpelled(base: string, c: string)
    ensures ByIdName(base, c) == base + "._observers.byId." + c
  {
    var a := Dot(base, Dot("_observers", "byId"));
    ThreeDots(base, "_observers", "byId");
    hide Dot;
    assert "." + "_observers" + "." == "._observers.";
    assert a == base + "._observers." + "byId";
    DotEnd(a, c);
    assert "._observers." + "byId" + "." == "._observers.byId.";
    FiveParts(base, "._observers.", "byId", ".", c);
  }

  lemma FiveParts(a: string, b: string, c: string, e: string, f: string)
    ensures a + b + c + (e + f) == a + (b + c + e) + f
  {
  }

  lemma ClientSpelled(list: string, w: string)
    ensures Dot("internal", Dot("clients", Dot(list, w))) == "internal.clients." + list + "." + w
    ensures Dot(Dot("internal", Dot("clients", list)), w) == "internal.clients." + list + "." + w
  {
    FourDots("internal", "clients", list, w);
    ThreeDots("internal", "clients", list);
    hide Dot;
    assert "internal" + ("." + "clients" + ".") == "internal.clients.";
    DotEnd(Dot("internal", Dot("clients", list)), w);
  }

  /** The entries of a variable called `base`, by name. */
  lemma ObserverNames(base: string, v: Path, i: nat, c: string, t: string)
    ensures NameOf(base, ObsCount(v)) == base + "._observers.list." + "count"
    ensures NameOf(base, ObsClient(v, i)) == base + "._observers.list." + Itoa(i) + ".clientId"
    ensures NameOf(base, ObsTag(v, i)) == base + "._observers.list." + Itoa(i) + ".metadata"
    ensures NameOf(base, ObsIndex(v, c, t)) == base + "._observers.byId." + c + ".byMetadata." + t
    ensures NameOf(base, LockFlag(v)) == base + "._lock"
  {
    hide Dot, Itoa, ByIdName;
    SlotSpelled(base, "count");
    SlotSpelled(base, Itoa(i));
    DotEnd(SlotName(base, i), "clientId");
    DotEnd(SlotName(base, i), "metadata");
    assert "." + "clientId" == ".clientId" && "." + "metadata" == ".metadata" && "." + "_lock" == "._lock";
    ByIdSpelled(base, c);
    DotEnd(ByIdName(base, c), "byMetadata");
    DotEnd(Dot(ByIdName(base, c), "byMetadata"), t);
    assert "." + "byMetadata" + "." == ".byMetadata.";
    DotEnd(base, "_lock");
  }

  /** The entries of the registry and of a client's record, by name. */
  lemma ClientNames(base: string, i: nat, c: string)
    ensures NameOf(base, RegCount) == "internal.clients." + "list" + "." + "count"
    ensures NameOf(base, RegSlot(i)) == "internal.clients." + "list" + "." + Itoa(i)
    ensures NameOf(base, RegPos(c)) == "internal.clients." + "byId" + "." + c
    ensures NameOf(base, RegApi(c)) == "internal.clients." + "byId" + "." + c + ".apiId"
    ensures NameOf(base, RegLive(c)) == "internal.clients." + "byId" + "." + c + ".lastLiveTime"
    ensures NameOf(base, SubCount(c)) == "internal.clients." + "byId" + "." + c + ".observing." + "count"
    ensures NameOf(base, SubSlot(c, i)) == "internal.clients." + "byId" + "." + c + ".observing." + Itoa(i)
  {
    hide Dot, Itoa;
    ClientSpelled("list", "count");
    ClientSpelled("list", Itoa(i));
    ClientSpelled("byId", c);
    DotEnd(ClientName(c), "apiId");
    DotEnd(ClientName(c), "lastLiveTime");
    assert "." + "apiId" == ".apiId" && "." + "lastLiveTime" == ".lastLiveTime" && "." + "observing" + "." == ".observing.";
    ThreeDots(ClientName(c), "observing", "count");
    ThreeDots(ClientName(c), "observing", Itoa(i));
  }

  // ---- the paths those names denote ----

  /** What follows `v._observers`, or `internal.clients`, or the variable itself. */
  function Rel(k: Key): Path {
    match k
    case ObsCount(_) => ["list", "count"]
    case ObsClient(_, i) => ["list", Itoa(i), "clientId"]
    case ObsTag(_, i) => ["list", Itoa(i), "metadata"]
    case ObsIndex(_, c, t) => ["byId"] + Split(c, '.') + ["byMetadata"] + if t == "" then [] else NodePath(t)
    case LockFlag(_) => ["_lock"]
    case RegCount => ["list", "count"]
    case RegSlot(i) => ["list", Itoa(i)]
    case RegPos(c) => ["byId"] + NodePath(c)
    case RegApi(c) => ["byId"] + Split(c, '.') + ["apiId"]
    case RegLive(c) => ["byId"] + Split(c, '.') + ["lastLiveTime"]
    case SubCount(c) => ["byId"] + Split(c, '.') + ["observing", "count"]
    case SubSlot(c, i) => ["byId"] + Split(c, '.') + ["observing", Itoa(i)]
  }

  predicate OfVariable(k: Key) { k.ObsCount? || k.ObsClient? || k.ObsTag? || k.ObsIndex? || k.LockFlag? }

  function Root(k: Key): Path {
    if k.LockFlag? then k.v
    else if OfVariable(k) then k.v + ["_observers"]
    else ["internal", "clients"]
  }

  function PathOf(k: Key): Path { Root(k) + Rel(k) }

  function SlotPath(v: Path, i: nat): Path { v + ["_observers"] + ["list", Itoa(i)] }
  function ByIdPath(v: Path, c: string): Path { v + ["_observers"] + ["byId"] + if c == "" then [] else NodePath(c) }

  // ---- well-formed keys ----

  /** A variable whose name cannot be mistaken for part of some other variable's bookkeeping. */
  predicate VarOk(v: Path) {
    v != [] && v[0] == "vars" && "_observers" !in v && forall w | w in v :: '.' !in w
  }

  predicate ClientOk(c: string) { c != "" && '.' !in c }

  /** A tag is one word or nothing at all. */
  predicate TagOk(t: string) { '.' !in t }

  predicate KeyOk(k: Key) {
    match k
    case ObsCount(v) => VarOk(v)
    case ObsClient(v, _) => VarOk(v)
    case ObsTag(v, _) => VarOk(v)
    case ObsIndex(v, c, t) => VarOk(v) && ClientOk(c) && TagOk(t)
    case LockFlag(v) => VarOk(v)
    case RegCount => true
    case RegSlot(_) => true
    case RegPos(c) => ClientOk(c)
    case RegApi(c) => ClientOk(c)
    case RegLive(c) => ClientOk(c)
    case SubCount(c) => ClientOk(c)
    case SubSlot(c, _) => ClientOk(c)
  }

  /** For well-formed keys the words are just the parts. */
  lemma RelOf(k: Key)
    requires KeyOk(k)
    ensures k.ObsIndex? ==> Rel(k) == ["byId", k.c, "byMetadata"] + if k.t == "" then [] else [k.t]
    ensures k.RegPos? ==> Rel(k) == ["byId", k.c]
    ensures k.RegApi? ==> Rel(k) == ["byId", k.c, "apiId"]
    ensures k.RegLive? ==> Rel(k) == ["byId", k.c, "lastLiveTime"]
    ensures k.SubCount? ==> Rel(k) == ["byId", k.c, "observing", "count"]
    ensures k.SubSlot? ==> Rel(k) == ["byId", k.c, "observing", Itoa(k.i)]
  {
    hide Itoa;
    match k
    case ObsIndex(_, c, t) =>
      SplitPiece(c, '.');
      SplitPiece(t, '.');
    case RegPos(c) => SplitPiece(c, '.');
    case RegApi(c) => SplitPiece(c, '.');
    case RegLive(c) => SplitPiece(c, '.');
    case SubCount(c) => SplitPiece(c, '.');
    case SubSlot(c, _) => SplitPiece(c, '.');
    case _ =>
  }

  lemma DigitsAreNoName(i: nat)
    ensures Itoa(i) != "count" && '.' !in Itoa(i)
  {
    assert !IsDigit("count"[0]);
  }

  /** A variable is read off a path below it: it ends where `_observers` first appears. */
  lemma {:induction false} SplitAtObservers(v: Path, r: Path, v': Path, r': Path)
    requires "_observers" !in v && "_observers" !in v'
    requires v + ["_observers"] + r == v' + ["_observers"] + r'
    ensures v == v' && r == r'
  {
    var p, p' := v + ["_observers"] + r, v' + ["_observers"] + r';
    if v != [] && v' != [] {
      assert p[1..] == v[1..] + ["_observers"] + r;
      assert p'[1..] == v'[1..] + ["_observers"] + r';
      assert p[0] == v[0] && p'[0] == v'[0];
      SplitAtObservers(v[1..], r, v'[1..], r');
    } else {
      assert p[0] == (v + ["_observers"])[0] && p'[0] == (v' + ["_observers"])[0];
      assert p[1..] == (v + ["_observers"])[1..] + r;
      assert p'[1..] == (v' + ["_observers"])[1..] + r';
    }
  }

  lemma RelInjective(k: Key, k': Key)
    requires KeyOk(k) && KeyOk(k') && Rel(k) == Rel(k')
    requires !k.LockFlag? && !k'.LockFlag?
    requires OfVariable(k) <==> OfVariable(k')
    requires OfVariable(k) ==> k.v == k'.v
    ensures k == k'
  {
    hide Itoa, KeyOk, PathOf;
    RelOf(k);
    RelOf(k');
    var r, r' := Rel(k), Rel(k');
    assert r[0] == r'[0] && r[1] == r'[1];
    assert |r| > 2 ==> r[2] == r'[2];
    assert |r| > 3 ==> r[3] == r'[3];
    if k.ObsClient? || k.ObsTag? || k.RegSlot? || k.SubSlot? {
      DigitsAreNoName(k.i);
      if k'.ObsClient? || k'.ObsTag? || k'.RegSlot? || k'.SubSlot? {
        if Itoa(k.i) == Itoa(k'.i) {
          ItoaInjective(k.i, k'.i);
        }
      }
    }
    if k'.ObsClient? || k'.ObsTag? || k'.RegSlot? || k'.SubSlot? {
      DigitsAreNoName(k'.i);
    }
  }

  /** No two entries live at one path. */
  lemma PathOfInjective(k: Key, k': Key)
    requires KeyOk(k) && KeyOk(k') && PathOf(k) == PathOf(k')
    ensures k == k'
  {
    hide Rel, Itoa;
    var p := PathOf(k);
    if k.LockFlag? || k'.LockFlag? {
      LockPath(k);
      LockPath(k');
      assert k.LockFlag? ==> p == k.v + ["_lock"] && p[..|k.v|] == k.v;
      assert k'.LockFlag? ==> p == k'.v + ["_lock"] && p[..|k'.v|] == k'.v;
    } else {
      assert OfVariable(k) <==> p[0] == "vars";
      assert OfVariable(k') <==> p[0] == "vars";
      if OfVariable(k) {
        SplitAtObservers(k.v, Rel(k), k'.v, Rel(k'));
      } else {
        assert Rel(k) == p[2..] == Rel(k');
      }
      RelInjective(k, k');
    }
  }

  lemma LockPath(k: Key)
    requires KeyOk(k)
    ensures k.LockFlag? <==> PathOf(k)[0] == "vars" && "_observers" !in PathOf(k)
    ensures k.LockFlag? ==> PathOf(k) == k.v + ["_lock"]
  {
    var p := PathOf(k);
    if !k.LockFlag? && OfVariable(k) {
      assert p[|k.v|] == "_observers";
    }
  }

  // ---- names and paths agree ----

  lemma DotPath(a: string, b: string)
    ensures NodePath(Dot(a, b)) == Split(a, '.') + if b == "" then [] else NodePath(b)
  {
    NodePathExtend(a, b);
  }

  lemma DotSplit(a: string, b: string)
    ensures Split(Dot(a, b), '.') == Split(a, '.') + Split(b, '.')
  {
    hide Split;
    SplitConcat(a, b, '.');
    assert Dot(a, b) == a + ['.'] + b;
  }

  lemma WordPath(w: string)
    requires '.' !in w
    ensures NodePath(w) == [w] && Split(w, '.') == [w]
  {
    SplitPiece(w, '.');
  }

  lemma TwoWords(a: string, b: string)
    requires '.' !in a && '.' !in b && b != ""
    ensures Dot(a, b) != "" && NodePath(Dot(a, b)) == [a, b] && Split(Dot(a, b), '.') == [a, b]
  {
    hide NodePath, Split;
    DotPath(a, b);
    DotSplit(a, b);
    WordPath(a);
    WordPath(b);
  }

  lemma BelowObservers(base: string, rest: string)
    requires rest != ""
    ensures NodePath(Dot(base, Dot("_observers", rest))) == Split(base, '.') + ["_observers"] + NodePath(rest)
    ensures Split(Dot(base, Dot("_observers", rest)), '.') == Split(base, '.') + ["_observers"] + Split(rest, '.')
  {
    hide NodePath, Split;
    DotPath(base, Dot("_observers", rest));
    DotPath("_observers", rest);
    DotSplit(base, Dot("_observers", rest));
    DotSplit("_observers", rest);
    WordPath("_observers");
  }

  lemma BelowInternalClients(rest: string)
    requires rest != ""
    ensures NodePath(Dot("internal", Dot("clients", rest))) == ["internal", "clients"] + NodePath(rest)
    ensures Split(Dot("internal", Dot("clients", rest)), '.') == ["internal", "clients"] + Split(rest, '.')
  {
    hide NodePath, Split;
    DotPath("internal", Dot("clients", rest));
    DotPath("clients", rest);
    DotSplit("internal", Dot("clients", rest));
    DotSplit("clients", rest);
    WordPath("internal");
    WordPath("clients");
  }

  lemma SlotNamePath(base: string, i: nat)
    ensures NodePath(SlotName(base, i)) == SlotPath(Split(base, '.'), i)
    ensures Split(SlotName(base, i), '.') == SlotPath(Split(base, '.'), i)
  {
    hide NodePath, Split, Itoa;
    DigitsAreNoName(i);
    BelowObservers(base, Dot("list", Itoa(i)));
    TwoWords("list", Itoa(i));
  }

  lemma ByIdNamePath(base: string, c: string)
    ensures NodePath(ByIdName(base, c)) == ByIdPath(Split(base, '.'), c)
    ensures Split(ByIdName(base, c), '.') == Split(base, '.') + ["_observers", "byId"] + Split(c, '.')
  {
    hide NodePath, Split;
    var head := Dot(base, Dot("_observers", "byId"));
    BelowObservers(base, "byId");
    WordPath("byId");
    DotSplit(head, c);
    DotPath(head, c);
  }

  lemma ClientNamePath(c: string)
    ensures c != "" ==> NodePath(ClientName(c)) == ["internal", "clients", "byId"] + NodePath(c)
    ensures Split(ClientName(c), '.') == ["internal", "clients", "byId"] + Split(c, '.')
  {
    hide NodePath, Split;
    var head := Dot("internal", Dot("clients", "byId"));
    BelowInternalClients("byId");
    WordPath("byId");
    DotSplit(head, c);
    DotPath(head, c);
  }

  lemma RegisterNamePath(w: string)
    requires w != "" && '.' !in w
    ensures NodePath(RegisterName(w)) == ["internal", "clients", "list", w]
  {
    hide NodePath, Split;
    BelowInternalClients(Dot("list", w));
    TwoWords("list", w);
  }

  lemma SlotNameDenotes(base: string, k: Key)
    requires (k.ObsCount? || k.ObsClient? || k.ObsTag?) && k.v == Split(base, '.')
    ensures NodePath(NameOf(base, k)) == PathOf(k)
  {
    hide NodePath, Split, Itoa, SlotName, ByIdName, Dot;
    match k
    case ObsCount(_) =>
      TwoWords("list", "count");
      BelowObservers(base, Dot("list", "count"));
    case ObsClient(_, i) =>
      SlotNamePath(base, i);
      DotPath(SlotName(base, i), "clientId");
      WordPath("clientId");
    case ObsTag(_, i) =>
      SlotNamePath(base, i);
      DotPath(SlotName(base, i), "metadata");
      WordPath("metadata");
  }

  lemma IndexNameDenotes(base: string, k: Key)
    requires (k.ObsIndex? || k.LockFlag?) && k.v == Split(base, '.')
    ensures NodePath(NameOf(base, k)) == PathOf(k)
  {
    hide NodePath, Split, ByIdName, Dot;
    match k
    case ObsIndex(_, c, t) =>
      ByIdNamePath(base, c);
      DotSplit(ByIdName(base, c), "byMetadata");
      WordPath("byMetadata");
      DotPath(Dot(ByIdName(base, c), "byMetadata"), t);
    case LockFlag(_) =>
      DotPath(base, "_lock");
      WordPath("_lock");
  }

  lemma ClientNameDenotes(k: Key)
    requires (k.RegCount? || k.RegSlot? || k.RegPos? || k.RegApi? || k.RegLive?) && (k.RegPos? ==> k.c != "")
    ensures NodePath(NameOf("", k)) == PathOf(k)
  {
    hide NodePath, Split, Itoa, ClientName, RegisterName, Dot;
    match k
    case RegCount =>
      RegisterNamePath("count");
    case RegSlot(i) =>
      DigitsAreNoName(i);
      RegisterNamePath(Itoa(i));
    case RegPos(c) =>
      ClientNamePath(c);
    case RegApi(c) =>
      ClientNamePath(c);
      DotPath(ClientName(c), "apiId");
      WordPath("apiId");
    case RegLive(c) =>
      ClientNamePath(c);
      DotPath(ClientName(c), "lastLiveTime");
      WordPath("lastLiveTime");
  }

  lemma SubscriptionNameDenotes(k: Key)
    requires k.SubCount? || k.SubSlot?
    ensures NodePath(NameOf("", k)) == PathOf(k)
  {
    hide NodePath, Split, Itoa, ClientName, Dot;
    match k
    case SubCount(c) =>
      ClientNamePath(c);
      DotPath(ClientName(c), Dot("observing", "count"));
      TwoWords("observing", "count");
    case SubSlot(c, i) =>
      DigitsAreNoName(i);
      ClientNamePath(c);
      DotPath(ClientName(c), Dot("observing", Itoa(i)));
      TwoWords("observing", Itoa(i));
  }

  /** Every name the helpers build denotes the path its entry lives at. */
  lemma NameDenotes(base: string, k: Key)
    requires OfVariable(k) ==> k.v == Split(base, '.')
    requires k.RegPos? ==> k.c != ""
    ensures NodePath(NameOf(base, k)) == PathOf(k)
  {
    hide NodePath, PathOf;
    if k.ObsIndex? || k.LockFlag? {
      IndexNameDenotes(base, k);
    } else if OfVariable(k) {
      SlotNameDenotes(base, k);
    } else if k.SubCount? || k.SubSlot? {
      SubscriptionNameDenotes(k);
    } else {
      ClientNameDenotes(k);
    }
  }
}
