/**
 * The part of the sequence database (`KRSequenceDatabase`) that the flatten
 * step and the blacklist/whitelist commands read and write: the `records`,
 * `record_ancestry`, `blacklist`, `alignments` and `sequences` tables, and the
 * gi lookup `db_get_row_ids('records', {'ncbi_gi': gi})[0]` computed from
 * `records`.
 *
 * `Db` is the state as a value with one function per table update; the class
 * `RecordStore` holds the same state in fields, one method per database call,
 * and a `saved` snapshot that `DB.save()` refreshes.
 */
module Store {
  import opened Util
  import opened Text

  /** The blacklist note of a record the user deleted or blacklisted. */
  const USER_DELETED: String := "user_deleted"

  /** A row of `records`; `flatLocus` is its `locus_flat` annotation, if any. */
  datatype RecordRow = RecordRow(gi: Option<int>, version: Option<String>, internalRef: String,
                                 org: int, active: bool, flatLocus: Option<String>)

  /** A row of `record_ancestry`: record `rec` was derived from record `parent`. */
  datatype Edge = Edge(rec: int, parent: int)

  datatype BlacklistRow = BlacklistRow(gi: int, version: Option<String>, internalRef: String, notes: String)

  /** One row of a stored alignment: the record it represents and its aligned residues. */
  datatype AlnRow = AlnRow(recId: int, residues: String)

  datatype Db = Db(records: map<int, RecordRow>, ancestry: set<Edge>, blacklist: set<BlacklistRow>,
                   alignments: map<int, seq<AlnRow>>, sequences: map<int, String>, nextId: int)
  {
    /** The ids of the records `rec` was derived from (`get_parent_rec_ids`). */
    function Parents(rec: int): set<int> {
      set e | e in ancestry && e.rec == rec :: e.parent
    }

    /** The ids of the rows of `records` carrying `gi`. */
    function IdsWithGi(gi: int): set<int> {
      set id | id in records && records[id].gi == Some(gi)
    }

    /**
     * The record looked up by gi (`DB.get_record` by gi,
     * `db_get_row_ids('records', {'ncbi_gi': gi})[0]`): the first row carrying
     * `gi` in row-id order, or `None` where the lookup fails.
     */
    function RecordForGi(gi: int): (r: Option<int>)
      ensures r.None? <==> IdsWithGi(gi) == {}
      ensures r.Some? ==> r.value in records && records[r.value].gi == Some(gi) &&
                          forall id :: id in IdsWithGi(gi) ==> r.value <= id
    {
      var ids := IdsWithGi(gi);
      if ids == {} then None else Some(Least(ids))
    }

    /** The gis the rows of `records` carry. */
    function Gis(): set<int> {
      set id | id in records && records[id].gi.Some? :: records[id].gi.value
    }

    /** The lookup for every gi some row carries, as a dictionary. */
    function GiIndex(): (m: map<int, int>)
      ensures forall g :: g in m <==> IdsWithGi(g) != {}
      ensures forall g :: g in m ==> RecordForGi(g) == Some(m[g])
    {
      assert forall g :: g in Gis() <==> IdsWithGi(g) != {} by {
        forall g ensures g in Gis() <==> IdsWithGi(g) != {} {
          if IdsWithGi(g) != {} {
            NonEmptyHasElement(IdsWithGi(g));
            var id :| id in IdsWithGi(g);
            assert records[id].gi.value == g;
          }
          if g in Gis() {
            var id :| id in records && records[id].gi.Some? && records[id].gi.value == g;
            assert id in IdsWithGi(g);
          }
        }
      }
      map g | g in Gis() :: RecordForGi(g).value
    }

    /** `set_active`/`set_inactive` with `{'id': id}`. */
    function SetActiveById(id: int, flag: bool): Db {
      if id in records then this.(records := records[id := records[id].(active := flag)]) else this
    }

    /** `set_active`/`set_inactive` with `{'ncbi_gi': gi}`: every row carrying that gi. */
    function SetActiveByGi(gi: int, flag: bool): Db {
      this.(records := map id | id in records ::
        if records[id].gi == Some(gi) then records[id].(active := flag) else records[id])
    }

    function AddBlacklist(row: BlacklistRow): Db {
      this.(blacklist := blacklist + {row})
    }

    /** `db_delete('blacklist', {'ncbi_gi': gi})`. */
    function DeleteBlacklistByGi(gi: int): Db {
      this.(blacklist := set b | b in blacklist && b.gi != gi)
    }

    /** `db_delete('record_ancestry', {'parent_rec_id': parent})`. */
    function DeleteAncestryByParent(parent: int): Db {
      this.(ancestry := set e | e in ancestry && e.parent != parent)
    }

    /** `db_delete('record_ancestry', {'rec_id': rec})`. */
    function DeleteAncestryByRec(rec: int): Db {
      this.(ancestry := set e | e in ancestry && e.rec != rec)
    }

    /** `db_insert('record_ancestry', {'rec_id': rec, 'parent_rec_id': parent})`. */
    function InsertAncestry(rec: int, parent: int): Db {
      this.(ancestry := ancestry + {Edge(rec, parent)})
    }

    /** One `db_insert` per parent, in order. */
    function InsertAncestryAll(rec: int, parents: seq<int>): Db
      decreases |parents|
    {
      if parents == [] then this
      else InsertAncestryAll(rec, parents[..|parents| - 1]).InsertAncestry(rec, parents[|parents| - 1])
    }

    /** `db_delete('alignments', {'rec_id': rec})`. */
    function DeleteAlignment(rec: int): Db {
      this.(alignments := alignments - {rec})
    }

    function SetAlignment(rec: int, rows: seq<AlnRow>): Db {
      this.(alignments := alignments[rec := rows])
    }

    /** `db_delete('sequences', {'rec_id': rec})`. */
    function DeleteSequence(rec: int): Db {
      this.(sequences := sequences - {rec})
    }

    function AddSequence(rec: int, residues: String): Db {
      this.(sequences := sequences[rec := residues])
    }

    /** `db_delete('records', {'id': id})`. */
    function DeleteRecord(id: int): Db {
      this.(records := records - {id})
    }

    /** `add_record`: a fresh id, the row, its sequence and one ancestry edge per parent. */
    function AddRecord(row: RecordRow, residues: String, parents: seq<int>): Db {
      var id := nextId;
      var withRow := this.(records := records[id := row], nextId := nextId + 1);
      withRow.AddSequence(id, residues).InsertAncestryAll(id, parents)
    }

    /** Every row id any table mentions is below `nextId`, so `nextId` is fresh. */
    predicate Valid() {
      (forall id :: id in records ==> id < nextId) &&
      (forall e :: e in ancestry ==> e.rec < nextId) &&
      (forall id :: id in alignments ==> id < nextId) &&
      (forall id :: id in sequences ==> id < nextId)
    }
  }

  /** Inserting edges from `rec` to each of `parents` adds exactly those edges. */
  lemma {:induction false} InsertAncestryAllEdges(db: Db, rec: int, parents: seq<int>)
    ensures db.InsertAncestryAll(rec, parents).ancestry == db.ancestry + set p | p in parents :: Edge(rec, p)
    ensures db.InsertAncestryAll(rec, parents) == db.(ancestry := db.InsertAncestryAll(rec, parents).ancestry)
    decreases |parents|
  {
    if parents != [] {
      var init := parents[..|parents| - 1];
      InsertAncestryAllEdges(db, rec, init);
      assert (set p | p in parents :: Edge(rec, p)) ==
             (set p | p in init :: Edge(rec, p)) + {Edge(rec, parents[|parents| - 1])} by {
        assert parents == init + [parents[|parents| - 1]];
      }
    }
  }

  /** A record added to a valid store has exactly the given parents, and the store stays valid. */
  lemma AddRecordParents(db: Db, row: RecordRow, residues: String, parents: seq<int>)
    requires db.Valid()
    ensures db.AddRecord(row, residues, parents).Parents(db.nextId) == set p | p in parents
    ensures db.AddRecord(row, residues, parents).Valid()
    ensures db.AddRecord(row, residues, parents).records == db.records[db.nextId := row]
    ensures db.AddRecord(row, residues, parents).sequences == db.sequences[db.nextId := residues]
    ensures forall r :: r != db.nextId ==> db.AddRecord(row, residues, parents).Parents(r) == db.Parents(r)
  {
    var id := db.nextId;
    var withRow := db.(records := db.records[id := row], nextId := db.nextId + 1);
    InsertAncestryAllEdges(withRow.AddSequence(id, residues), id, parents);
    var after := db.AddRecord(row, residues, parents);
    assert after.ancestry == db.ancestry + set p | p in parents :: Edge(id, p);
    forall p | p in after.Parents(id) ensures p in parents {
      var e :| e in after.ancestry && e.rec == id && e.parent == p;
      assert e !in db.ancestry;
    }
    forall p | p in parents ensures p in after.Parents(id) {
      assert Edge(id, p) in after.ancestry;
    }
  }

  /**
   * The database as an object: each method is one database call, and `saved`
   * is the state at the last `save()`.
   */
  class RecordStore {
    var records: map<int, RecordRow>
    var ancestry: set<Edge>
    var blacklist: set<BlacklistRow>
    var alignments: map<int, seq<AlnRow>>
    var sequences: map<int, String>
    var nextId: int
    var saved: Db

    function State(): Db
      reads this
    {
      Db(records, ancestry, blacklist, alignments, sequences, nextId)
    }

    constructor (db: Db)
      ensures State() == db && saved == db
    {
      records, ancestry, blacklist := db.records, db.ancestry, db.blacklist;
      alignments, sequences, nextId := db.alignments, db.sequences, db.nextId;
      saved := db;
    }

    /** `DB.save()`. */
    method Save()
      modifies this
      ensures State() == old(State()) && saved == State()
    {
      saved := State();
    }

    method SetActiveById(id: int, flag: bool)
      modifies this
      ensures State() == old(State()).SetActiveById(id, flag) && saved == old(saved)
    {
      if id in records {
        records := records[id := records[id].(active := flag)];
      }
    }

    method SetActiveByGi(gi: int, flag: bool)
      modifies this
      ensures State() == old(State()).SetActiveByGi(gi, flag) && saved == old(saved)
    {
      records := map id | id in records ::
        if records[id].gi == Some(gi) then records[id].(active := flag) else records[id];
    }

    method AddBlacklist(row: BlacklistRow)
      modifies this
      ensures State() == old(State()).AddBlacklist(row) && saved == old(saved)
    {
      blacklist := blacklist + {row};
    }

    method DeleteBlacklistByGi(gi: int)
      modifies this
      ensures State() == old(State()).DeleteBlacklistByGi(gi) && saved == old(saved)
    {
      blacklist := set b | b in blacklist && b.gi != gi;
    }

    method DeleteAncestryByParent(parent: int)
      modifies this
      ensures State() == old(State()).DeleteAncestryByParent(parent) && saved == old(saved)
    {
      ancestry := set e | e in ancestry && e.parent != parent;
    }

    method DeleteAncestryByRec(rec: int)
      modifies this
      ensures State() == old(State()).DeleteAncestryByRec(rec) && saved == old(saved)
    {
      ancestry := set e | e in ancestry && e.rec != rec;
    }

    method InsertAncestry(rec: int, parent: int)
      modifies this
      ensures State() == old(State()).InsertAncestry(rec, parent) && saved == old(saved)
    {
      ancestry := ancestry + {Edge(rec, parent)};
    }

    method DeleteAlignment(rec: int)
      modifies this
      ensures State() == old(State()).DeleteAlignment(rec) && saved == old(saved)
    {
      alignments := alignments - {rec};
    }

    method SetAlignment(rec: int, rows: seq<AlnRow>)
      modifies this
      ensures State() == old(State()).SetAlignment(rec, rows) && saved == old(saved)
    {
      alignments := alignments[rec := rows];
    }

    method DeleteSequence(rec: int)
      modifies this
      ensures State() == old(State()).DeleteSequence(rec) && saved == old(saved)
    {
      sequences := sequences - {rec};
    }

    method AddSequence(rec: int, residues: String)
      modifies this
      ensures State() == old(State()).AddSequence(rec, residues) && saved == old(saved)
    {
      sequences := sequences[rec := residues];
    }

    method DeleteRecord(id: int)
      modifies this
      ensures State() == old(State()).DeleteRecord(id) && saved == old(saved)
    {
      records := records - {id};
    }

    /** `add_record`, returning the new row id. */
    method AddRecord(row: RecordRow, residues: String, parents: seq<int>) returns (id: int)
      modifies this
      ensures id == old(nextId)
      ensures State() == old(State()).AddRecord(row, residues, parents) && saved == old(saved)
    {
      id := nextId;
      records := records[id := row];
      nextId := nextId + 1;
      sequences := sequences[id := residues];
      var i := 0;
      while i < |parents|
        invariant 0 <= i <= |parents|
        invariant State() == old(State()).(records := records, nextId := nextId,
                                           sequences := sequences).InsertAncestryAll(id, parents[..i])
        invariant records == old(records)[id := row] && nextId == old(nextId) + 1 && saved == old(saved)
        invariant sequences == old(sequences)[id := residues]
      {
        assert parents[..i + 1][..i] == parents[..i];
        ancestry := ancestry + {Edge(id, parents[i])};
        i := i + 1;
      }
      assert parents[..i] == parents;
    }
  }
}
