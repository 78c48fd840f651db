/** The helper through which the controller keeps a client's record. */
module ClientHelper {
  import opened Options
  import opened Text
  import opened Decimal
  import opened FlatStore
  import opened RamCache
  import opened Keys
  import opened Views
  import opened KeyAccess
  import opened Registry
  import opened RegistryNodes
  import opened Subscriptions
  import opened Runs

  class ControllerClientHelper {
    const db: RamCacheDB
    const clientId: string
    const apiId: Option<string>

    /** Enlists the client on first contact; `now` is the clock's text. */
    constructor (db: RamCacheDB, clientId: string, apiId: Option<string>, now: string)
      requires db.Valid() && clientId != "" && RegisteredCount(db.Contents()) >= 0
      modifies db, db.nodes
      ensures this.db == db && this.clientId == clientId && this.apiId == apiId
      ensures db.Valid() && fresh(db.nodes - old(db.nodes))
      ensures db.Contents() == Initialized(old(db.Contents()), clientId, apiId, now)
    {
      hide *;
      this.db := db;
      this.clientId := clientId;
      this.apiId := apiId;
      new;
      Initialize(now);
    }

    method Initialize(now: string)
      requires db.Valid() && clientId != "" && RegisteredCount(db.Contents()) >= 0
      modifies db, db.nodes
      ensures db.Valid() && fresh(db.nodes - old(db.nodes))
      ensures db.Contents() == Initialized(old(db.Contents()), clientId, apiId, now)
    {
      hide PutKey, PathOf, View, Itoa, Has, RegisteredCount, RamCacheDB.Valid, RamCacheDB.Contents;
      var known := IsKnown();
      if !known {
        Enlist();
      }
      if apiId.Some? {
        WriteKey(db, "", RegApi(clientId), apiId.value);
      }
      UpdateLiveTime(now);
    }

    method IsKnown() returns (known: bool)
      requires db.Valid() && clientId != ""
      ensures known <==> Has(db.Contents(), RegPos(clientId))
    {
      hide PathOf, NameOf, NodePath, RamCacheDB.Valid, RamCacheDB.Contents;
      NameDenotes("", RegPos(clientId));
      known := db.HasValue(NameOf("", RegPos(clientId)));
    }

    method GetRegisteredCount() returns (n: int)
      requires db.Valid()
      ensures n == RegisteredCount(db.Contents())
    {
      hide PathOf, RamCacheDB.Valid, RamCacheDB.Contents;
      var t := ReadKey(db, "", RegCount, "0");
      MissingIsZero(db.Contents(), RegCount);
      n := GetInt(t);
    }

    /** Appends the client to the list and records the position it got. */
    method Enlist()
      requires db.Valid() && clientId != "" && RegisteredCount(db.Contents()) >= 0
      modifies db, db.nodes
      ensures db.Valid() && fresh(db.nodes - old(db.nodes))
      ensures db.Contents() == (
                var d, n := old(db.Contents()), old(NatOf(RegisteredCount(db.Contents())));
                PutKey(PutKey(PutKey(d, RegCount, Itoa(n + 1)), RegSlot(n), clientId), RegPos(clientId), Itoa(n)))
    {
      hide PutKey, Itoa, RegisteredCount, RamCacheDB.Valid, RamCacheDB.Contents;
      var cnt := GetRegisteredCount();
      WriteKey(db, "", RegCount, Itoa(cnt + 1));
      WriteKey(db, "", RegSlot(cnt), clientId);
      WriteKey(db, "", RegPos(clientId), Itoa(cnt));
    }

    method UpdateLiveTime(now: string)
      requires db.Valid()
      modifies db, db.nodes
      ensures db.Valid() && fresh(db.nodes - old(db.nodes))
      ensures db.Contents() == PutKey(old(db.Contents()), RegLive(clientId), now)
    {
      WriteKey(db, "", RegLive(clientId), now);
    }

    method GetObservingVarsCount() returns (n: int)
      requires db.Valid()
      ensures n == SubsCount(db.Contents(), clientId)
    {
      hide PathOf, RamCacheDB.Valid, RamCacheDB.Contents;
      var t := ReadKey(db, "", SubCount(clientId), "0");
      MissingIsZero(db.Contents(), SubCount(clientId));
      n := GetInt(t);
    }

    method GetSlot(i: nat) returns (x: string)
      requires db.Valid()
      ensures x == View(db.Contents(), SubSlot(clientId, i))
    {
      hide PathOf, RamCacheDB.Valid, RamCacheDB.Contents;
      x := ReadKey(db, "", SubSlot(clientId, i), "");
    }

    /** What the client observes, one name per slot, in whatever order the slots' nodes are visited. */
    method GetObservingVars() returns (res: seq<string>, ghost order: seq<string>)
      requires db.Valid()
      ensures VisitsSlots(order, db.Contents(), clientId) && TellsSlots(res, db.Contents(), clientId, order)
      ensures TellsSome(res, db.Contents(), clientId)
    {
      hide PathOf, NodePath, ChildWords, ObservingName, Strip, Contains, RamCacheDB.Valid, RamCacheDB.Contents;
      var childs := db.GetChilds(ObservingName(clientId));
      ObservingNamed(clientId);
      res, order := [], [];
      for i := 0 to |childs|
        invariant TellsSlots(res, db.Contents(), clientId, order)
        invariant forall w :: w in order <==> w in childs[..i] && SlotNamed(w)
        invariant forall k, j | 0 <= k < j < |order| :: order[k] != order[j]
      {
        var w := childs[i];
        assert childs[..i + 1] == childs[..i] + [w];
        if !SlotNamed(w) {
          continue;
        }
        var curr := db.Get(Dot(ObservingName(clientId), w), "");
        curr := Strip(curr);
        res, order := res + [curr], order + [w];
      }
      assert childs[..|childs|] == childs;
    }

    method RegisterNewObservation(varName: string, now: string)
      requires db.Valid() && SubsCount(PutKey(db.Contents(), RegLive(clientId), now), clientId) >= 0
      modifies db, db.nodes
      ensures db.Valid() && fresh(db.nodes - old(db.nodes))
      ensures db.Contents() == Subscribed(old(db.Contents()), clientId, Full(varName), now)
    {
      hide PutKey, Itoa, Full, SubsCount, RamCacheDB.Valid, RamCacheDB.Contents;
      UpdateLiveTime(now);
      var curr := GetObservingVarsCount();
      WriteKey(db, "", SubCount(clientId), Itoa(curr + 1));
      WriteKey(db, "", SubSlot(clientId, curr), Full(varName));
    }

    method FindVarIndexOnObservingVars(varName: string) returns (idx: int)
      requires db.Valid()
      ensures idx == FindSub(db.Contents(), clientId, varName, 0, NatOf(SubsCount(db.Contents(), clientId)))
    {
      hide View, SubsCount, RamCacheDB.Valid, RamCacheDB.Contents;
      ghost var d := db.Contents();
      var cnt := GetObservingVarsCount();
      var i := 0;
      while i < cnt
        invariant 0 <= i <= NatOf(SubsCount(d, clientId))
        invariant FindSub(d, clientId, varName, 0, NatOf(SubsCount(d, clientId)))
               == FindSub(d, clientId, varName, i, NatOf(SubsCount(d, clientId)))
      {
        var v := GetSlot(i);
        if v == varName {
          return i;
        }
        i := i + 1;
      }
      return -1;
    }

    method UnregisterObservation(varName: string, now: string)
      requires db.Valid()
      modifies db, db.nodes
      ensures db.Valid() && fresh(db.nodes - old(db.nodes))
      ensures db.Contents() == Unsubscribed(old(db.Contents()), clientId, Full(varName), now)
    {
      hide PutKey, Full, SubsCount, FindSub, SubRemovedAt, RamCacheDB.Valid, RamCacheDB.Contents;
      UpdateLiveTime(now);
      var curr := GetObservingVarsCount();
      var idx := FindVarIndexOnObservingVars(Full(varName));
      if idx > -1 {
        RemoveSubscription(idx, curr);
      }
    }

    /** Closes the gap at slot `idx` of the client's own list. */
    method RemoveSubscription(idx: nat, curr: nat)
      requires db.Valid() && idx < curr
      modifies db, db.nodes
      ensures db.Valid() && fresh(db.nodes - old(db.nodes))
      ensures db.Contents() == SubRemovedAt(old(db.Contents()), clientId, idx, curr)
    {
      hide PutKey, DropKey, Itoa, View, RamCacheDB.Valid, RamCacheDB.Contents;
      ghost var d := db.Contents();
      for c := idx to curr - 1
        invariant db.Valid() && fresh(db.nodes - old(db.nodes))
        invariant db.Contents() == SubShifted(d, clientId, idx, c)
      {
        var next := GetSlot(c + 1);
        WriteKey(db, "", SubSlot(clientId, c), next);
      }
      DeleteKey(db, "", SubSlot(clientId, curr - 1));
      WriteKey(db, "", SubCount(clientId), Itoa(curr - 1));
    }

    /** Drops one slot of the client list, at the position the client was once given, and then the record. */
    method RemoveClientFromObservationSystem()
      requires db.Valid() && clientId != ""
      requires Position(db.Contents(), clientId) > -1 ==> RegisteredCount(db.Contents()) > 0
      modifies db, db.nodes
      ensures db.Valid() && fresh(db.nodes - old(db.nodes))
      ensures db.Contents() == Unregistered(old(db.Contents()), clientId)
    {
      hide CutRecord, RegisteredCount, Position, Delisted, RamCacheDB.Valid, RamCacheDB.Contents;
      var clientIndex := GetPosition();
      if clientIndex > -1 {
        var currentCount := GetRegisteredCount();
        DelistAt(clientIndex, currentCount);
      }
      DropRecord();
    }

    method DropRecord()
      requires db.Valid() && clientId != ""
      modifies db, db.nodes
      ensures db.Valid() && fresh(db.nodes - old(db.nodes))
      ensures db.Contents() == CutRecord(old(db.Contents()), clientId)
    {
      hide CutRecord, PathOf, NodePath, NameOf, Remove, RamCacheDB.Valid, RamCacheDB.Contents;
      NameDenotes("", RegPos(clientId));
      CutRecordIs(db.Contents(), clientId);
      db.DeleteValue(NameOf("", RegPos(clientId)), true);
    }

    method GetPosition() returns (i: int)
      requires db.Valid() && clientId != ""
      ensures i == Position(db.Contents(), clientId)
    {
      hide PathOf, RamCacheDB.Valid, RamCacheDB.Contents;
      var tci := ReadKey(db, "", RegPos(clientId), "-1");
      MinusOne();
      i := GetInt(tci);
    }

    method DelistAt(clientIndex: nat, currentCount: nat)
      requires db.Valid() && currentCount > 0
      modifies db, db.nodes
      ensures db.Valid() && fresh(db.nodes - old(db.nodes))
      ensures db.Contents() == Delisted(old(db.Contents()), clientIndex, currentCount)
    {
      hide PutKey, DropKey, Itoa, View, RamCacheDB.Valid, RamCacheDB.Contents;
      ghost var d := db.Contents();
      var c := clientIndex;
      while c < currentCount - 1
        invariant clientIndex <= c && (clientIndex < currentCount ==> c <= currentCount - 1)
        invariant clientIndex >= currentCount ==> c == clientIndex
        invariant db.Valid() && fresh(db.nodes - old(db.nodes))
        invariant db.Contents() == RegShifted(d, clientIndex, c)
      {
        var next := GetListSlot(c + 1);
        WriteKey(db, "", RegSlot(c), next);
        c := c + 1;
      }
      DeleteKey(db, "", RegSlot(currentCount - 1));
      WriteKey(db, "", RegCount, Itoa(currentCount - 1));
    }

    method GetListSlot(i: nat) returns (x: string)
      requires db.Valid()
      ensures x == View(db.Contents(), RegSlot(i))
    {
      hide PathOf, RamCacheDB.Valid, RamCacheDB.Contents;
      x := ReadKey(db, "", RegSlot(i), "");
    }
  }

  // ---- what a client observes ----

  function ObservingName(c: string): string { Dot(ClientName(c), "observing") }

  lemma ObservingNamed(c: string)
    ensures ObservingName(c) != ""
  {
  }

  predicate SlotNamed(w: string) { !Contains(w, "count") && !Contains(w, "size") }

  /** Passed over is what has `count` or `size` anywhere in it. */
  lemma SlotNamedExactly(w: string)
    ensures !SlotNamed(w) <==> exists a, b :: w == a + "count" + b || w == a + "size" + b
  {
    ContainsExactly(w, "count");
    ContainsExactly(w, "size");
    hide Contains;
  }

  lemma ContainsExactly(w: string, p: string)
    ensures Contains(w, p) <==> exists a, b :: w == a + p + b
  {
    if Contains(w, p) {
      var i :| 0 <= i <= |w| && OccursAt(w, p, i);
      assert w == w[..i] + p + w[i + |p|..];
    }
    forall a, b | w == a + p + b ensures Contains(w, p) {
      assert w[|a|..|a| + |p|] == p;
      assert OccursAt(w, p, |a|);
    }
  }

  function ToldName(d: Store, c: string, w: string): string { Strip(Lookup(d, NodePath(Dot(ObservingName(c), w)), "")) }

  /** Each child of `observing` that is not named like the counter, once. */
  ghost predicate VisitsSlots(order: seq<string>, d: Store, c: string) {
    && (forall w :: w in order <==> w in ChildWords(d, NodePath(ObservingName(c))) && SlotNamed(w))
    && (forall i, j | 0 <= i < j < |order| :: order[i] != order[j])
  }

  predicate TellsSlots(res: seq<string>, d: Store, c: string, order: seq<string>) {
    |res| == |order| && forall i | 0 <= i < |res| :: res[i] == ToldName(d, c, order[i])
  }

  ghost predicate TellsSome(res: seq<string>, d: Store, c: string) {
    exists order :: VisitsSlots(order, d, c) && TellsSlots(res, d, c, order)
  }

  lemma DigitsNameASlot(i: nat)
    ensures SlotNamed(Itoa(i))
  {
    NoSuchText(Itoa(i), "count");
    NoSuchText(Itoa(i), "size");
  }

  lemma NoSuchText(s: string, p: string)
    requires p != "" && !IsDigit(p[0]) && forall c | c in s :: IsDigit(c)
    ensures !Contains(s, p)
  {
    forall i | 0 <= i <= |s| ensures !OccursAt(s, p, i) {
      if i + |p| <= |s| {
        assert s[i] in s && s[i] == s[i..i + |p|][0];
      }
    }
  }

  lemma CountIsNoSlot()
    ensures !SlotNamed("count")
  {
    assert OccursAt("count", "count", 0);
  }

  lemma ObservingNamePath(c: string, w: string)
    requires ClientOk(c) && '.' !in w && w != ""
    ensures NodePath(ObservingName(c)) == ObservingPath(c)
    ensures NodePath(Dot(ObservingName(c), w)) == ObservingPath(c) + [w]
  {
    hide NodePath, Split;
    ClientNamePath(c);
    WordPath(c);
    WordPath("observing");
    WordPath(w);
    DotPath(ClientName(c), "observing");
    DotSplit(ClientName(c), "observing");
    DotPath(ObservingName(c), w);
  }

  /** A slot's word is told as the variable in that slot. */
  lemma SlotTold(d: Store, c: string, i: nat)
    requires ClientOk(c) && i < |Subs(d, c)|
    ensures ToldName(d, c, Itoa(i)) == Strip(Subs(d, c)[i])
  {
    hide NodePath, Split, Itoa, Strip, ObservingName;
    DigitsAreNoName(i);
    ObservingNamePath(c, Itoa(i));
    ObservingKeyPath(SubSlot(c, i));
  }

  lemma ToldIsListed(d: Store, c: string, w: string)
    requires ClientOk(c) && NumeralBelow(|Subs(d, c)|, w)
    ensures exists y :: y in Subs(d, c) && ToldName(d, c, w) == Strip(y)
  {
    hide Itoa, Strip, ToldName, ClientOk;
    var j: nat :| j < |Subs(d, c)| && w == Itoa(j);
    SlotTold(d, c, j);
    assert Subs(d, c)[j] in Subs(d, c);
  }

  lemma ListedIsTold(d: Store, c: string, y: string) returns (j: nat)
    requires ClientOk(c) && y in Subs(d, c)
    ensures j < |Subs(d, c)| && ToldName(d, c, Itoa(j)) == Strip(y)
  {
    hide Itoa, Strip, ToldName, ClientOk;
    j :| 0 <= j < |Subs(d, c)| && Subs(d, c)[j] == y;
    SlotTold(d, c, j);
  }

  /** In a well-kept record the visit yields every variable on the client's list and nothing else. */
  lemma VisitListsSubs(d: Store, c: string, order: seq<string>, res: seq<string>)
    requires ClientOk(c) && RecordOk(d, c) && VisitsSlots(order, d, c)
    requires TellsSlots(res, d, c, order)
    ensures Lists(res, Subs(d, c)) && |res| == |Subs(d, c)|
  {
    SlotsVisited(d, c, order);
    var n := |Subs(d, c)|;
    hide NodePath, Itoa, Strip, ToldName, Subs, ClientOk, RecordOk, VisitsSlots, NumeralBelow;
    forall x ensures x in res <==> exists y :: y in Subs(d, c) && x == Strip(y) {
      if x in res {
        var i :| 0 <= i < |res| && x == res[i];
        ToldIsListed(d, c, order[i]);
      }
      if y :| y in Subs(d, c) && x == Strip(y) {
        var j := ListedIsTold(d, c, y);
        assert Itoa(j) in order;
      }
    }
    EachOnce(order, n);
  }

  lemma SlotsVisited(d: Store, c: string, order: seq<string>)
    requires ClientOk(c) && RecordOk(d, c) && VisitsSlots(order, d, c)
    ensures forall w | w in order :: NumeralBelow(|Subs(d, c)|, w)
    ensures forall i: nat | i < |Subs(d, c)| :: Itoa(i) in order
    ensures forall i, j | 0 <= i < j < |order| :: order[i] != order[j]
  {
    var n := |Subs(d, c)|;
    hide NodePath, Itoa, SlotNamed, ChildWords;
    CountIsNoSlot();
    ObservingNamePath(c, "x");
    forall w | w in order ensures NumeralBelow(n, w) {
      ChildWordsIn(d, ObservingPath(c), w);
      assert HasChild(d, c, w);
    }
    forall i: nat | i < n ensures Itoa(i) in order {
      DigitsNameASlot(i);
      ObservingKeyPath(SubSlot(c, i));
      assert Subs(d, c)[i] in Subs(d, c);
      ChildWordsIn(d, ObservingPath(c), Itoa(i));
    }
  }

  lemma SomeMember(order: seq<string>)
    ensures order != [] ==> exists w :: w in order
  {
    assert order != [] ==> order[0] in order;
  }

  /** Distinct words that are exactly the first `n` numerals number `n`. */
  lemma {:induction false} EachOnce(order: seq<string>, n: nat)
    requires forall w | w in order :: NumeralBelow(n, w)
    requires forall i: nat | i < n :: Itoa(i) in order
    requires forall i, j | 0 <= i < j < |order| :: order[i] != order[j]
    ensures |order| == n
  {
    hide Itoa;
    if n == 0 {
      SomeMember(order);
    } else {
      assert Itoa(n - 1) in order;
      var k :| 0 <= k < |order| && order[k] == Itoa(n - 1);
      var rest := order[..k] + order[k + 1..];
      forall a | 0 <= a < |rest| ensures rest[a] in order && rest[a] != order[k] {
        assert rest[a] == order[if a < k then a else a + 1];
      }
      forall w | w in rest ensures NumeralBelow(n - 1, w) {
        assert NumeralBelow(n, w);
        var i: nat :| i < n && w == Itoa(i);
        assert i != n - 1;
      }
      forall i: nat | i < n - 1 ensures Itoa(i) in rest {
        if Itoa(i) == Itoa(n - 1) {
          ItoaInjective(i, n - 1);
        }
        var a :| 0 <= a < |order| && order[a] == Itoa(i);
        assert rest[if a < k then a else a - 1] == Itoa(i);
      }
      EachOnce(rest, n - 1);
    }
  }

  lemma MinusOne()
    ensures GetInt("-1") == -1
  {
    assert "-1"[1..] == "1" && "1"[..0] == "" && AllDigits("1");
    assert DigitsValue("1") == 1;
  }

  lemma CutRecordIs(d: Store, c: string)
    ensures CutRecord(d, c) == Remove(d, PathOf(RegPos(c)), true)
  {
  }
}
