/** The dump file between two lives of the server: what a flush leaves on disk and what the next start makes of it. */
module Restart {
  import opened Text
  import opened FlatStore
  import opened DumpText
  import opened RoundTrip
  import opened RamCache

  /** With nothing pending, what is on disk reads back as the values in memory. */
  ghost predicate KeepsUp(d: Store, pending: bool, disk: DumpFile) {
    pending || SameValues(d, if disk.Text? then LoadText(EMPTY, disk.text) else EMPTY)
  }

  /** A path that leads to a value. */
  ghost predicate Leads(d: Store, p: Path) { p != [] && exists q :: q in d && d[q] != "" && p <= q }

  /** A start over any dump of a store finds every value again exactly when the file can carry them all. */
  method StartOver(text: string, ghost d: Store) returns (db: RamCacheDB)
    requires Closed(d) && IsDump(text, d, [])
    ensures fresh(db) && db.Valid() && fresh(db.nodes)
    ensures SameValues(d, db.Contents()) <==> DumpSafe(d)
    ensures DumpSafe(d) ==> forall p :: p in db.Contents() <==> Leads(d, p)
  {
    hide *;
    db := new RamCacheDB.FromDisk(DumpFile.Text(text));
    DumpReadBack(text, d);
  }

  lemma DumpReadBack(text: string, d: Store)
    requires Closed(d) && IsDump(text, d, [])
    ensures SameValues(d, LoadText(EMPTY, text)) <==> DumpSafe(d)
    ensures DumpSafe(d) ==> forall p :: p in LoadText(EMPTY, text) <==> Leads(d, p)
  {
    var order :| Visits(d, [], order) && text == DumpLines(d, order);
    hide Closed, SameValues, DumpSafe, LoadText, DumpLines;
    RoundTripExactly(d, order);
    assert Reloaded(d, order) == LoadText(EMPTY, text);
    if DumpSafe(d) {
      forall p ensures p in LoadText(EMPTY, text) <==> Leads(d, p) {
        SafeStoreReturns(d, order, p);
        RootIsNoPath(d);
      }
    }
  }

  /**
   One turn of the dumper: with changes pending the file is rewritten and nothing is pending any more, not even
   if the write failed.
   */
  method Flush(db: RamCacheDB, disk: DumpFile, written: bool) returns (disk': DumpFile)
    requires db.Valid()
    modifies db`pendingChanges
    ensures db.Valid() && db.Contents() == old(db.Contents()) && !db.pendingChanges
    ensures old(db.pendingChanges) && written ==>
              && disk'.Text? && IsDump(disk'.text, db.Contents(), [])
              && (KeepsUp(db.Contents(), false, disk') <==> DumpSafe(db.Contents()))
    ensures !(old(db.pendingChanges) && written) ==> disk' == disk
  {
    hide *;
    disk' := disk;
    db.ContentsClosed();
    if db.pendingChanges {
      RootIs(db);
      var text;
      ghost var order;
      text, order := db.DumpToString(db.root, "", []);
      DumpReadBack(text, db.Contents());
      KeepsUpIs(db.Contents(), text);
      if written {
        disk' := DumpFile.Text(text);
      }
      db.pendingChanges := false;
    }
  }

  lemma RootIs(db: RamCacheDB)
    requires db.Valid()
    ensures [] in db.at && db.at[[]] == db.root && KeyText([]) == ""
  {
  }

  lemma KeepsUpIs(d: Store, text: string)
    ensures KeepsUp(d, false, DumpFile.Text(text)) <==> SameValues(d, LoadText(EMPTY, text))
  {
  }

  /** The last turn of the dumper and the next start: no value is lost if what was pending was written and can be carried. */
  method StopAndStart(db: RamCacheDB, disk: DumpFile, written: bool) returns (next: RamCacheDB)
    requires db.Valid() && KeepsUp(db.Contents(), db.pendingChanges, disk)
    modifies db`pendingChanges
    ensures next.Valid() && fresh(next) && fresh(next.nodes)
    ensures db.Valid() && db.Contents() == old(db.Contents())
    ensures old(db.pendingChanges) && written ==> (SameValues(db.Contents(), next.Contents()) <==> DumpSafe(db.Contents()))
    ensures !old(db.pendingChanges) ==> SameValues(db.Contents(), next.Contents())
  {
    hide SameValues, DumpSafe, IsDump, LoadText, TakesLines, Split, RamCacheDB.Valid, RamCacheDB.Contents;
    var disk' := Flush(db, disk, written);
    next := new RamCacheDB.FromDisk(disk');
  }
}
