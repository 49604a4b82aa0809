/**
 * The `blacklist_gi` and `whitelist_gi` commands of workflows/phylo.py: a user
 * switches a raw record off (and records why) or back on, by its NCBI gi.
 */
module Curation {
  import opened Util
  import opened Text
  import opened Store

  /** `sys.exit(0)` when no gi was given, or the store after `DB.save()`. */
  datatype Outcome = Exited | Saved(db: Db)

  datatype CurationError = UnknownGi(gi: int)

  /** `if not GI`: the argument is absent or zero. */
  predicate NoGi(gi: Option<int>) {
    gi.None? || gi.value == 0
  }

  /** The three updates of `blacklist_gi` on a known record. */
  function Blacklist(db: Db, gi: int, id: int): Db
    requires id in db.records
  {
    var row := db.records[id];
    db.SetActiveByGi(gi, false)
      .AddBlacklist(BlacklistRow(gi, row.version, row.internalRef, USER_DELETED))
      .DeleteAncestryByParent(id)
  }

  /** The two updates of `whitelist_gi`. */
  function Whitelist(db: Db, gi: int): Db {
    db.SetActiveByGi(gi, true).DeleteBlacklistByGi(gi)
  }

  /** The `blacklist_gi` command. */
  function BlacklistGi(db: Db, gi: Option<int>): Result<Outcome, CurationError> {
    if NoGi(gi) then Ok(Exited)
    else match db.RecordForGi(gi.value)
      case None => Err(UnknownGi(gi.value))
      case Some(id) => Ok(Saved(Blacklist(db, gi.value, id)))
  }

  /** The `whitelist_gi` command. */
  function WhitelistGi(db: Db, gi: Option<int>): Outcome {
    if NoGi(gi) then Exited else Saved(Whitelist(db, gi.value))
  }

  /**
   * `blacklist_gi` with a gi fails exactly when no stored record carries it,
   * and otherwise acts on the first record that does.
   */
  lemma BlacklistGiCases(db: Db, gi: Option<int>)
    ensures BlacklistGi(db, gi) == Ok(Exited) <==> NoGi(gi)
    ensures BlacklistGi(db, gi).Err? <==> !NoGi(gi) && (forall id :: id in db.records ==> db.records[id].gi != gi)
    ensures BlacklistGi(db, gi).Ok? && !NoGi(gi) ==>
      exists id :: id in db.records && db.records[id].gi == gi &&
        (forall j :: j in db.records && db.records[j].gi == gi ==> id <= j) &&
        BlacklistGi(db, gi) == Ok(Saved(Blacklist(db, gi.value, id)))
  {
    if !NoGi(gi) {
      var found := db.RecordForGi(gi.value);
      if found.None? {
        forall id | id in db.records ensures db.records[id].gi != gi {
          assert id !in db.IdsWithGi(gi.value);
        }
      } else {
        var id := found.value;
        assert db.records[id].gi == gi;
        forall j | j in db.records && db.records[j].gi == gi ensures id <= j {
          assert j in db.IdsWithGi(gi.value);
        }
      }
    }
  }

  /**
   * Blacklisting switches off every record carrying the gi and nothing else,
   * adds exactly one blacklist row noted `user_deleted` with the record's
   * version and internal reference, and drops exactly the ancestry edges whose
   * parent is that record.
   */
  lemma BlacklistEffects(db: Db, gi: int)
    requires db.RecordForGi(gi).Some?
    ensures var id := db.RecordForGi(gi).value;
      var after := Blacklist(db, gi, id);
      db.records[id].gi == Some(gi) &&
      after.records.Keys == db.records.Keys &&
      (forall r :: r in db.records ==>
         after.records[r] == if db.records[r].gi == Some(gi) then db.records[r].(active := false) else db.records[r]) &&
      after.blacklist == db.blacklist +
         {BlacklistRow(gi, db.records[id].version, db.records[id].internalRef, USER_DELETED)} &&
      (forall e :: e in after.ancestry <==> e in db.ancestry && e.parent != id) &&
      after.alignments == db.alignments && after.sequences == db.sequences
  {
  }

  /**
   * Whitelisting switches on every record carrying the gi and deletes every
   * blacklist row for it, leaving ancestry untouched.
   */
  lemma WhitelistEffects(db: Db, gi: int)
    ensures var after := Whitelist(db, gi);
      after.records.Keys == db.records.Keys &&
      (forall r :: r in db.records ==>
         after.records[r] == if db.records[r].gi == Some(gi) then db.records[r].(active := true) else db.records[r]) &&
      (forall b :: b in after.blacklist <==> b in db.blacklist && b.gi != gi) &&
      after.ancestry == db.ancestry && after.sequences == db.sequences
  {
  }

  /**
   * Whitelisting a gi after blacklisting it leaves the records and the
   * blacklist exactly as whitelisting alone would: every record carrying the
   * gi is active, even one that was inactive before, and no blacklist row
   * for the gi is left, even one older than the blacklisting. The ancestry
   * edges the blacklisting dropped stay dropped.
   */
  lemma {:induction false} WhitelistAfterBlacklist(db: Db, gi: int)
    requires db.RecordForGi(gi).Some?
    ensures var id := db.RecordForGi(gi).value;
      var after := Whitelist(Blacklist(db, gi, id), gi);
      after.records == Whitelist(db, gi).records &&
      after.blacklist == Whitelist(db, gi).blacklist &&
      after.ancestry == db.DeleteAncestryByParent(id).ancestry
  {
    var id := db.RecordForGi(gi).value;
    var b := Blacklist(db, gi, id);
    BlacklistEffects(db, gi);
    WhitelistEffects(b, gi);
    WhitelistEffects(db, gi);
    assert Whitelist(b, gi).records == Whitelist(db, gi).records;
    var added := BlacklistRow(gi, db.records[id].version, db.records[id].internalRef, USER_DELETED);
    assert b.blacklist == db.blacklist + {added};
    assert Whitelist(b, gi).blacklist == Whitelist(db, gi).blacklist;
  }

  /** `blacklist_gi` on the store object; a crash or an exit leaves `saved` as it was. */
  method BlacklistGiCommand(store: RecordStore, gi: Option<int>) returns (r: Result<Outcome, CurationError>)
    modifies store
    ensures r == BlacklistGi(old(store.State()), gi)
    ensures r.Ok? && r.value.Saved? ==> store.State() == r.value.db && store.saved == store.State()
    ensures !(r.Ok? && r.value.Saved?) ==> store.State() == old(store.State()) && store.saved == old(store.saved)
  {
    if gi.None? || gi.value == 0 {
      return Ok(Exited);
    }
    var g := gi.value;
    var found := store.State().RecordForGi(g);
    if found.None? {
      return Err(UnknownGi(g));
    }
    var delRecId := found.value;
    var record := store.records[delRecId];
    store.SetActiveByGi(g, false);
    store.AddBlacklist(BlacklistRow(g, record.version, record.internalRef, USER_DELETED));
    store.DeleteAncestryByParent(delRecId);
    store.Save();
    r := Ok(Saved(store.State()));
  }

  /** `whitelist_gi` on the store object. */
  method WhitelistGiCommand(store: RecordStore, gi: Option<int>) returns (r: Outcome)
    modifies store
    ensures r == WhitelistGi(old(store.State()), gi)
    ensures r.Saved? ==> store.State() == r.db && store.saved == store.State()
    ensures r.Exited? ==> store.State() == old(store.State()) && store.saved == old(store.saved)
  {
    if gi.None? || gi.value == 0 {
      return Exited;
    }
    store.SetActiveByGi(gi.value, true);
    store.DeleteBlacklistByGi(gi.value);
    store.Save();
    r := Saved(store.State());
  }
}
