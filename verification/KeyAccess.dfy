/** Reading and writing one metadata entry by the name the helpers build for it. */
module KeyAccess {
  import opened Text
  import opened Decimal
  import opened FlatStore
  import opened RamCache
  import opened Keys
  import opened Views

  /** A counter that is missing and one that reads "0" count the same. */
  lemma MissingIsZero(d: Store, k: Key)
    ensures GetInt(Lookup(d, PathOf(k), "0")) == GetInt(View(d, k))
  {
    hide PathOf;
    assert Atoi("") == NotANumber;
    assert "0"[1..] == "" && "0"[..|"0"| - 1] == "";
    assert Atoi("0") == Number(0);
  }

  lemma PutKeyIs(d: Store, k: Key, x: string)
    ensures PutKey(d, k, x) == Put(d, PathOf(k), x)
  {
  }

  method WriteKey(db: RamCacheDB, base: string, k: Key, x: string)
    requires db.Valid() && (OfVariable(k) ==> k.v == Split(base, '.')) && (k.RegPos? ==> k.c != "")
    modifies db, db.nodes
    ensures db.Valid() && fresh(db.nodes - old(db.nodes))
    ensures db.Contents() == PutKey(old(db.Contents()), k, x)
  {
    hide NodePath, NameOf, PathOf, Split, Put, PutKey;
    NameDenotes(base, k);
    db.Set(NameOf(base, k), x);
    PutKeyIs(old(db.Contents()), k, x);
  }

  method ReadKey(db: RamCacheDB, base: string, k: Key, defaultValue: string) returns (x: string)
    requires db.Valid() && (OfVariable(k) ==> k.v == Split(base, '.')) && (k.RegPos? ==> k.c != "")
    ensures x == Lookup(db.Contents(), PathOf(k), defaultValue)
  {
    hide NodePath, NameOf, PathOf, Split;
    NameDenotes(base, k);
    x := db.Get(NameOf(base, k), defaultValue);
  }

  method DeleteKey(db: RamCacheDB, base: string, k: Key)
    requires db.Valid() && (OfVariable(k) ==> k.v == Split(base, '.')) && (k.RegPos? ==> k.c != "")
    modifies db, db.nodes
    ensures db.Valid() && fresh(db.nodes - old(db.nodes))
    ensures db.Contents() == DropKey(old(db.Contents()), k)
  {
    hide NodePath, NameOf, PathOf, Split, Remove;
    NameDenotes(base, k);
    db.DeleteValue(NameOf(base, k), false);
  }
}
