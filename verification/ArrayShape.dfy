/** Turning objects whose keys count up from zero into arrays, whatever order their keys are visited in. */
module ArrayShape {
  import opened Decimal
  import opened MapOrder

  datatype Json =
    | Null
    | Plain(x: string)
    | Object(fields: map<string, Json>)
    | Array(items: seq<Json>)

  // ---- what normalising may do ----

  /** `k` reads as the index `i`; a sign or leading zeros do not matter. */
  predicate Indexes(k: string, i: int) { Atoi(k) == Number(i) }

  predicate InSlot(items: seq<Json>, i: int, k: string, child: Json) {
    0 <= i < |items| && Indexes(k, i) && items[i] == child
  }

  predicate Slot(items: seq<Json>, k: string, child: Json) { exists i :: 0 <= i < |items| && InSlot(items, i, k, child) }

  /** Slot `i` holds a child whose key names it. */
  predicate Filled(kids: map<string, Json>, items: seq<Json>, i: int) {
    exists k :: k in kids && InSlot(items, i, k, kids[k])
  }

  /** One slot per child, each child in the slot its key names, and no slot without one. */
  predicate Slotted(kids: map<string, Json>, items: seq<Json>) {
    && |items| == |kids|
    && (forall k | k in kids :: Slot(items, k, kids[k]))
    && forall i | 0 <= i < |items| :: Filled(kids, items, i)
  }

  /** One child, under a key that reads as zero: the one case in which every order counts up. */
  predicate OnlyZero(kids: map<string, Json>) { |kids| == 1 && exists k :: k in kids && Indexes(k, 0) }

  /** An object keeps all its children, or becomes a gap-free array of them. */
  predicate Shaped(kids: map<string, Json>, r: Json) {
    if r.Array? then kids != map[] && Slotted(kids, r.items) else r == Object(kids) && !OnlyZero(kids)
  }

  /** `r` is `v` with every object below it shaped one way or the other. */
  ghost predicate Normalized(v: Json, r: Json)
    decreases v
  {
    match v
    case Object(fields) =>
      exists kids: map<string, Json> {:trigger Shaped(kids, r)} ::
        && kids.Keys == fields.Keys
        && (forall k | k in fields :: Normalized(fields[k], kids[k]))
        && Shaped(kids, r)
    case Array(items) =>
      && r.Array?
      && |r.items| == |items|
      && forall i | 0 <= i < |items| :: Normalized(items[i], r.items[i])
    case _ => r == v
  }

  // ---- the walk ----

  /** Normalises the children in place, in one order, then decides the shape, in two others. */
  method NormalizeArrays(v: Json) returns (r: Json)
    ensures Normalized(v, r)
    ensures v.Object? ==>
              forall k, i | k in v.fields && 0 <= i < |k| && !('0' <= k[i] <= '9') && (i > 0 || k[0] !in "+-") ::
                r.Object? && r.fields.Keys == v.fields.Keys
    decreases v
  {
    hide Shaped;
    match v
    case Object(fields) =>
      var t := fields;
      var keys := KeysInSomeOrder(t);
      for i := 0 to |keys|
        invariant t.Keys == fields.Keys
        invariant forall k | k in keys[..i] :: Normalized(fields[k], t[k])
        invariant forall k | k in keys[i..] :: t[k] == fields[k]
      {
        var child := NormalizeArrays(t[keys[i]]);
        t := t[keys[i] := child];
      }
      ghost var order;
      r, order := Shape(t);
      assert Normalized(v, r);
    case Array(items) =>
      var t := items;
      for i := 0 to |items|
        invariant |t| == |items|
        invariant forall k | 0 <= k < i :: Normalized(items[k], t[k])
        invariant forall k | i <= k < |items| :: t[k] == items[k]
      {
        var child := NormalizeArrays(t[i]);
        t := t[i := child];
      }
      r := Array(t);
    case _ =>
      r := v;
  }

  /** The keys, as they were visited, counted up from zero. */
  predicate CountsUp(order: seq<string>) { forall i | 0 <= i < |order| :: Indexes(order[i], i) }

  /** An array exactly when the visit happened to count up from zero. */
  method Shape(t: map<string, Json>) returns (r: Json, ghost order: seq<string>)
    ensures Shaped(t, r)
    ensures (forall k :: k in order <==> k in t) && forall i, j | 0 <= i < j < |order| :: order[i] != order[j]
    ensures r.Array? <==> t != map[] && CountsUp(order)
    ensures forall k, i | k in t && 0 <= i < |k| && !('0' <= k[i] <= '9') && (i > 0 || k[0] !in "+-") :: r == Object(t)
  {
    hide Atoi;
    var keys := KeysInSomeOrder(t);
    order := keys;
    KeysCount(t, keys);
    if |t| == 0 {
      assert t == map[];
      return Object(t), order;
    }
    var previusNum, maxIdx := -1, -1;
    for i := 0 to |keys|
      invariant previusNum == maxIdx == i - 1
      invariant CountsUp(keys[..i])
    {
      assert keys[..i + 1] == keys[..i] + [keys[i]];
      var parsed := Atoi(keys[i]);
      if parsed.NotANumber? || parsed.n < 0 || parsed.n != previusNum + 1 {
        assert !Indexes(keys[i], i);
        NotOnlyZero(t, keys, i);
        return Object(t), order;
      }
      if parsed.n > maxIdx {
        maxIdx := parsed.n;
      }
      previusNum := parsed.n;
    }
    assert keys[..|keys|] == keys;
    var items := FillSlots(t, keys, maxIdx);
    NoSlotFree(t, keys, items);
    r := Array(items);
    StrangeKeys(t, r);
  }

  // ---- which objects stay objects ----

  /** In an array every child stands at the number its key spells; a key with any other character keeps the object. */
  lemma ArrayKeys(t: map<string, Json>, r: Json, k: string)
    requires Shaped(t, r) && k in t
    ensures r.Array? ==>
              && k != "" && k[0] in "+-0123456789" && (forall i | 1 <= i < |k| :: '0' <= k[i] <= '9')
              && Atoi(k).Number? && 0 <= Atoi(k).n < |r.items| == |t| && r.items[Atoi(k).n] == t[k]
    ensures forall i | 0 <= i < |k| && !('0' <= k[i] <= '9') && (i > 0 || k[0] !in "+-") :: r == Object(t)
  {
    NumbersExactly(k);
    hide Atoi;
    assert r.Array? ==> Slot(r.items, k, t[k]);
  }

  lemma StrangeKeys(t: map<string, Json>, r: Json)
    requires Shaped(t, r)
    ensures forall k, i | k in t && 0 <= i < |k| && !('0' <= k[i] <= '9') && (i > 0 || k[0] !in "+-") :: r == Object(t)
  {
    hide Shaped;
    forall k, i | k in t && 0 <= i < |k| && !('0' <= k[i] <= '9') && (i > 0 || k[0] !in "+-") ensures r == Object(t) {
      ArrayKeys(t, r, k);
    }
  }

  /** An object with one child becomes an array exactly when its key is zero, with any sign and any number of zeros. */
  lemma OneKeyExactly(k: string, child: Json, r: Json)
    requires Shaped(map[k := child], r)
    ensures r == if k != "" && k != "+" && k != "-" && k[0] in "+-0" && (forall i | 1 <= i < |k| :: k[i] == '0')
                 then Array([child]) else Object(map[k := child])
  {
    ZeroExactly(k);
    hide Atoi;
    var t := map[k := child];
    assert k in t && |t| == 1;
    assert OnlyZero(t) <==> Indexes(k, 0);
    if r.Array? {
      assert Slot(r.items, k, t[k]);
    }
  }

  /** The same further up: an object with such a key keeps all its keys, and its children are normalised below them. */
  lemma StrangeKeyStays(fields: map<string, Json>, r: Json, k: string, i: nat)
    requires Normalized(Object(fields), r)
    requires k in fields && i < |k| && !('0' <= k[i] <= '9') && (i > 0 || k[0] !in "+-")
    ensures r.Object? && r.fields.Keys == fields.Keys && forall x | x in fields :: Normalized(fields[x], r.fields[x])
  {
    var kids: map<string, Json> :|
      kids.Keys == fields.Keys && (forall x | x in fields :: Normalized(fields[x], kids[x])) && Shaped(kids, r);
    hide Normalized, Shaped;
    ArrayKeys(kids, r, k);
  }

  /** No object anywhere inside. */
  predicate Objectless(v: Json) {
    match v
    case Object(_) => false
    case Array(items) => forall i | 0 <= i < |items| :: Objectless(items[i])
    case _ => true
  }

  /** What has no object in it is left exactly as it is, arrays included. */
  lemma {:induction false} ObjectlessStays(v: Json, r: Json)
    requires Normalized(v, r) && Objectless(v)
    ensures r == v
    decreases v
  {
    match v
    case Array(items) =>
      forall i | 0 <= i < |items| ensures r.items[i] == items[i] {
        ObjectlessStays(items[i], r.items[i]);
      }
      assert r.items == items;
    case _ =>
  }

  /** Keys that count up leave no slot free. */
  lemma NoSlotFree(t: map<string, Json>, order: seq<string>, items: seq<Json>)
    requires (forall k :: k in order <==> k in t) && CountsUp(order) && |items| == |order|
    requires forall k | k in t :: Slot(items, k, t[k])
    ensures forall i | 0 <= i < |items| :: Filled(t, items, i)
  {
    hide Atoi;
    forall i | 0 <= i < |items| ensures Filled(t, items, i) {
      var k := order[i];
      assert Slot(items, k, t[k]) && Indexes(k, i);
    }
  }

  lemma NotOnlyZero(t: map<string, Json>, keys: seq<string>, i: nat)
    requires (forall k :: k in keys <==> k in t) && |keys| == |t| && i < |keys| && !Indexes(keys[i], i)
    ensures !OnlyZero(t)
  {
    hide Atoi;
  }

  /** Puts every child into the slot its key names; the slots start out empty. */
  method FillSlots(t: map<string, Json>, ghost order: seq<string>, maxIdx: int) returns (items: seq<Json>)
    requires (forall k :: k in order <==> k in t) && CountsUp(order) && maxIdx == |order| - 1
    requires forall i, j | 0 <= i < j < |order| :: order[i] != order[j]
    ensures |items| == |order| && forall k | k in t :: Slot(items, k, t[k])
  {
    hide Atoi, Slot;
    var arr := new Json[maxIdx + 1](_ => Null);
    var keys := KeysInSomeOrder(t);
    for j := 0 to |keys|
      invariant forall a | 0 <= a < j :: Slot(arr[..], keys[a], t[keys[a]])
    {
      var idx := IndexOfKey(keys[j], order);
      ghost var before := arr[..];
      arr[idx] := t[keys[j]];
      assert arr[..] == before[idx := t[keys[j]]];
      forall a | 0 <= a < j + 1 ensures Slot(arr[..], keys[a], t[keys[a]]) {
        if a < j {
          SlotKept(before, keys[a], t[keys[a]], keys[j], t[keys[j]], idx, order);
        } else {
          SlotFilled(before, keys[j], t[keys[j]], idx);
        }
      }
    }
    items := arr[..];
  }

  /** The index a key names; with keys that count up it is always within the array. */
  method IndexOfKey(k: string, ghost order: seq<string>) returns (idx: int)
    requires k in order && CountsUp(order)
    ensures 0 <= idx < |order| && Indexes(k, idx) && order[idx] == k
  {
    hide Atoi;
    ghost var i :| 0 <= i < |order| && order[i] == k;
    assert Indexes(order[i], i);
    var parsed := Atoi(k);
    idx := parsed.n;
  }

  lemma SlotFilled(items: seq<Json>, k: string, child: Json, idx: int)
    requires 0 <= idx < |items| && Indexes(k, idx)
    ensures Slot(items[idx := child], k, child)
  {
    assert InSlot(items[idx := child], idx, k, child);
  }

  /** Filling one child's slot leaves another child's slot alone. */
  lemma SlotKept(items: seq<Json>, k: string, child: Json, k': string, child': Json, idx: int, order: seq<string>)
    requires Slot(items, k, child) && 0 <= idx < |items| == |order| && Indexes(k', idx) && order[idx] == k' && k != k'
    requires CountsUp(order) && k in order
    ensures Slot(items[idx := child'], k, child)
  {
    hide Atoi;
    var i :| 0 <= i < |items| && InSlot(items, i, k, child);
    var j :| 0 <= j < |order| && order[j] == k;
    assert Indexes(order[j], j);
    assert i == j;
    assert InSlot(items[idx := child'], i, k, child);
  }

  lemma {:induction false} KeysCount<V>(t: map<string, V>, keys: seq<string>)
    requires (forall k :: k in keys <==> k in t) && forall i, j | 0 <= i < j < |keys| :: keys[i] != keys[j]
    ensures |keys| == |t|
    decreases |keys|
  {
    if keys == [] {
      assert t.Keys == {};
    } else {
      var n := |keys| - 1;
      var t' := t - {keys[n]};
      assert keys == keys[..n] + [keys[n]];
      KeysCount(t', keys[..n]);
      assert t.Keys == t'.Keys + {keys[n]};
    }
  }

  // ---- nothing is lost ----

  function Numbered(items: seq<Json>): map<string, Json> {
    if items == [] then map[] else Numbered(items[..|items| - 1])[Itoa(|items| - 1) := items[|items| - 1]]
  }

  /** Arrays turned back into objects keyed by position. */
  function Unlisted(r: Json): Json {
    match r
    case Object(fields) => Object(map k | k in fields :: Unlisted(fields[k]))
    case Array(items) => Object(Numbered(seq(|items|, i requires 0 <= i < |items| => Unlisted(items[i]))))
    case _ => r
  }

  predicate KeyCanonical(k: string) { Atoi(k).Number? && Atoi(k).n >= 0 ==> k == Itoa(Atoi(k).n) }

  /** No arrays yet, and every key that reads as an index is that index in plain decimal. */
  predicate Canonical(v: Json) {
    match v
    case Object(fields) => forall k | k in fields :: KeyCanonical(k) && Canonical(fields[k])
    case Array(_) => false
    case _ => true
  }

  lemma {:induction false} NumberedAt(items: seq<Json>, k: string)
    ensures k in Numbered(items) <==> NumeralBelow(|items|, k)
    ensures forall i: nat | i < |items| :: Itoa(i) in Numbered(items) && Numbered(items)[Itoa(i)] == items[i]
    decreases |items|
  {
    hide Itoa;
    if items != [] {
      var n := |items| - 1;
      var front := items[..n];
      NumberedAt(front, k);
      NumeralStep(n + 1, k);
      forall i: nat | i < |items| ensures Itoa(i) in Numbered(items) && Numbered(items)[Itoa(i)] == items[i] {
        if i < n {
          assert front[i] == items[i];
          if Itoa(i) == Itoa(n) {
            ItoaInjective(i, n);
          }
        }
      }
    }
  }

  /** With canonical keys the original comes back from whatever normalising made of it. */
  lemma {:induction false} Recoverable(v: Json, r: Json)
    requires Normalized(v, r) && Canonical(v)
    ensures Unlisted(r) == v
    decreases v
  {
    match v
    case Object(fields) =>
      var kids: map<string, Json> :|
        kids.Keys == fields.Keys && (forall k | k in fields :: Normalized(fields[k], kids[k])) && Shaped(kids, r);
      hide Normalized, Shaped, Unlisted;
      forall k | k in fields ensures Unlisted(kids[k]) == fields[k] && KeyCanonical(k) {
        Recoverable(fields[k], kids[k]);
      }
      hide Canonical, KeyCanonical;
      RecoverShape(fields, kids, r);
    case _ =>
  }

  lemma RecoverShape(fields: map<string, Json>, kids: map<string, Json>, r: Json)
    requires kids.Keys == fields.Keys && Shaped(kids, r)
    requires forall k | k in fields :: KeyCanonical(k)
    requires forall k | k in fields :: Unlisted(kids[k]) == fields[k]
    ensures Unlisted(r) == Object(fields)
  {
    hide KeyCanonical, Slotted, OnlyZero;
    if r.Array? {
      RecoverArray(fields, kids, r.items);
    } else {
      assert (map k | k in kids :: Unlisted(kids[k])) == fields;
    }
  }

  lemma RecoverArray(fields: map<string, Json>, kids: map<string, Json>, items: seq<Json>)
    requires kids.Keys == fields.Keys && Slotted(kids, items) && forall k | k in fields :: KeyCanonical(k)
    requires forall k | k in fields :: Unlisted(kids[k]) == fields[k]
    ensures Unlisted(Array(items)) == Object(fields)
  {
    hide Slotted, KeyCanonical, NumeralBelow, Numbered;
    var back := seq(|items|, i requires 0 <= i < |items| => Unlisted(items[i]));
    forall k | k in fields ensures NumeralBelow(|items|, k) && k in Numbered(back) && Numbered(back)[k] == fields[k] {
      RecoverSlot(fields, kids, items, back, k);
    }
    hide Itoa, Numbered, Slotted, NumeralBelow, Unlisted, Canonical;
    SameCount(fields, kids, items);
    EverySlotUsed(fields, |items|);
    forall k ensures k in Numbered(back) <==> k in fields {
      NumberedAt(back, k);
    }
    assert Numbered(back) == fields;
    UnlistedArray(items, back);
  }

  lemma SameCount(fields: map<string, Json>, kids: map<string, Json>, items: seq<Json>)
    requires kids.Keys == fields.Keys && Slotted(kids, items)
    ensures |items| == |fields|
  {
    assert |kids| == |kids.Keys| && |fields| == |fields.Keys|;
  }

  lemma UnlistedArray(items: seq<Json>, back: seq<Json>)
    requires |back| == |items| && forall i | 0 <= i < |items| :: back[i] == Unlisted(items[i])
    ensures Unlisted(Array(items)) == Object(Numbered(back))
  {
    hide Numbered;
    assert back == seq(|items|, i requires 0 <= i < |items| => Unlisted(items[i]));
  }

  lemma RecoverSlot(fields: map<string, Json>, kids: map<string, Json>, items: seq<Json>, back: seq<Json>, k: string)
    requires k in fields && k in kids && Slotted(kids, items) && KeyCanonical(k) && Unlisted(kids[k]) == fields[k]
    requires |back| == |items| && forall i | 0 <= i < |items| :: back[i] == Unlisted(items[i])
    ensures NumeralBelow(|items|, k) && k in Numbered(back) && Numbered(back)[k] == fields[k]
  {
    hide Itoa, Atoi, Numbered;
    assert Slot(items, k, kids[k]);
    var i :| 0 <= i < |items| && InSlot(items, i, k, kids[k]);
    assert k == Itoa(i);
    NumberedAt(back, k);
  }

  /** When as many numerals below `n` as `n` are taken, all of them are. */
  lemma EverySlotUsed(fields: map<string, Json>, n: nat)
    requires |fields| == n && forall k | k in fields :: NumeralBelow(n, k)
    ensures forall k | NumeralBelow(n, k) :: k in fields
  {
    var all := Numerals(n);
    assert fields.Keys <= all;
    SubsetOfSameSize(fields.Keys, all);
  }

  ghost function Numerals(n: nat): (s: set<string>)
    ensures |s| == n && forall k :: k in s <==> NumeralBelow(n, k)
  {
    if n == 0 then {}
    else
      FreshNumeral(n);
      Numerals(n - 1) + {Itoa(n - 1)}
  }

  lemma FreshNumeral(n: nat)
    requires n > 0
    ensures !NumeralBelow(n - 1, Itoa(n - 1))
    ensures forall k :: NumeralBelow(n, k) <==> NumeralBelow(n - 1, k) || k == Itoa(n - 1)
  {
    hide Itoa;
    if NumeralBelow(n - 1, Itoa(n - 1)) {
      var i: nat :| i < n - 1 && Itoa(n - 1) == Itoa(i);
      ItoaInjective(i, n - 1);
    }
    forall k ensures NumeralBelow(n, k) <==> NumeralBelow(n - 1, k) || k == Itoa(n - 1) {
      NumeralStep(n, k);
    }
  }

  lemma SubsetOfSameSize(a: set<string>, b: set<string>)
    requires a <= b && |a| == |b|
    ensures a == b
  {
    assert |b - a| == 0 by { assert b == a + (b - a); }
  }
}
