/**
 * The per-organism body of the flatten step (workflows/phylo.py): apply the
 * deletions detected for an existing flat record, choose how to regenerate it
 * from the size of the remaining working set, and rewrite its ancestry,
 * sequence and alignment; or create the flat record when there is none.
 *
 * Trimming, alignment, consensus and the translation of an alignment into
 * stored rows are services passed in as functions.
 */
module Flatten {
  import opened Util
  import opened Text
  import opened Store
  import opened Detect
  import opened Commands

  /** A flattened alignment and its identity score (`new_aln[0]`, `new_aln[1]`). */
  datatype Aligned = Aligned(aln: seq<Entry>, score: real)

  datatype Services = Services(
    trim: RawRec -> Option<Entry>,                  // wf.trim_record_to_locus
    realign: seq<Option<Entry>> -> Option<Aligned>, // wf.flatten_locus(..., already_trimmed=True)
    alignRaw: seq<RawRec> -> Option<Aligned>,       // wf.flatten_locus on untrimmed records
    consensus: seq<Entry> -> String,                // kralign.consensus
    alignmentRows: seq<Entry> -> seq<AlnRow>,       // what wf.update_record_alignment stores
    idBottom: real)                                 // FLAT_ID_BOTTOM

  datatype FlattenError =
    | DetectFailed(cause: DetectError)   // a file gi with no stored record
    | RealignFailed                      // flatten_locus returned None, `new_aln[1]` fails
    | UnknownAlignedGi(gi: int)          // an aligned record with no stored record
    | NoStoredSequence(recId: int)       // an aligned record with no stored sequence

  /** The store, the artifacts and the command set after one organism, and what was flattened. */
  datatype Outcome = Outcome(db: Db, files: Files, commands: set<String>, working: seq<RawRec>, produced: bool)

  /** Raw record ids are row ids, so no two records of the working set share one. */
  predicate DistinctIds(working: seq<RawRec>) {
    forall i, j :: 0 <= i < j < |working| ==> working[i].id != working[j].id
  }

  // ---------------------------------------------------------------------------
  // Deletions (the loop over `deleted_rec_ids`)
  // ---------------------------------------------------------------------------

  /** `org_records` after removing every record whose id is in `deleted`, order kept. */
  function Remaining(working: seq<RawRec>, deleted: set<int>): (r: seq<RawRec>)
    ensures |r| <= |working|
    ensures forall x :: x in r <==> x in working && x.id !in deleted
  {
    if working == [] then []
    else (if working[0].id in deleted then [] else [working[0]]) + Remaining(working[1..], deleted)
  }

  /** `org_records.remove(del_rec)` for the first record with id `d`. */
  function RemoveId(working: seq<RawRec>, d: int): seq<RawRec> {
    if working == [] then []
    else if working[0].id == d then working[1..]
    else [working[0]] + RemoveId(working[1..], d)
  }

  /** The ids of the working set that are also deleted: the only ones acted on. */
  function Hits(working: seq<RawRec>, deleted: set<int>): set<int> {
    set r | r in working && r.id in deleted :: r.id
  }

  function DeletedRow(r: RawRec): BlacklistRow {
    BlacklistRow(r.gi, Some(r.version), r.internalRef, USER_DELETED)
  }

  /** The store after the deletion loop: inactive, blacklisted, ancestry edges dropped. */
  function ApplyDeletions(db: Db, working: seq<RawRec>, deleted: set<int>): Db {
    var hits := Hits(working, deleted);
    db.(records := map id | id in db.records :: if id in hits then db.records[id].(active := false) else db.records[id],
        blacklist := db.blacklist + set r | r in working && r.id in deleted :: DeletedRow(r),
        ancestry := set e | e in db.ancestry && e.parent !in hits)
  }

  /**
   * Each deleted id present in the working set makes its record inactive,
   * blacklists it with note `user_deleted` and drops every ancestry edge whose
   * parent it is; deleted ids absent from the working set change nothing.
   */
  lemma DeletionEffects(db: Db, working: seq<RawRec>, deleted: set<int>)
    ensures var after := ApplyDeletions(db, working, deleted);
      after.records.Keys == db.records.Keys &&
      (forall r :: r in working && r.id in deleted && r.id in db.records ==> !after.records[r.id].active) &&
      (forall r :: r in working && r.id in deleted ==> DeletedRow(r) in after.blacklist) &&
      (forall e :: e in after.ancestry ==> e in db.ancestry) &&
      (forall r, e :: r in working && r.id in deleted && e in after.ancestry ==> e.parent != r.id) &&
      (forall id :: id in db.records && id !in Ids(working) ==> after.records[id] == db.records[id]) &&
      (forall e :: e in db.ancestry && e.parent !in Ids(working) ==> e in after.ancestry) &&
      after.sequences == db.sequences && after.alignments == db.alignments && after.nextId == db.nextId
    ensures Ids(Remaining(working, deleted)) == Ids(working) - deleted
    ensures (forall x :: x in working ==> x.id !in deleted) ==> Remaining(working, deleted) == working
  {
    if forall x :: x in working ==> x.id !in deleted {
      NothingToRemove(working, deleted);
    }
  }

  lemma {:induction false} NothingToRemove(working: seq<RawRec>, deleted: set<int>)
    requires forall x :: x in working ==> x.id !in deleted
    ensures Remaining(working, deleted) == working
  {
    if working != [] {
      assert forall x :: x in working[1..] ==> x in working;
      NothingToRemove(working[1..], deleted);
      assert working == [working[0]] + working[1..];
    }
  }

  lemma {:induction false} RemoveAbsent(working: seq<RawRec>, d: int)
    requires forall x :: x in working ==> x.id != d
    ensures RemoveId(working, d) == working
  {
    if working != [] {
      RemoveAbsent(working[1..], d);
    }
  }

  lemma TailDistinct(working: seq<RawRec>)
    requires working != [] && DistinctIds(working)
    ensures DistinctIds(working[1..])
    ensures forall x :: x in working[1..] ==> x.id != working[0].id
  {
    var tail := working[1..];
    forall i, j | 0 <= i < j < |tail| ensures tail[i].id != tail[j].id {
      assert tail[i] == working[i + 1] && tail[j] == working[j + 1];
    }
    forall x | x in tail ensures x.id != working[0].id {
      var j :| 0 <= j < |tail| && tail[j] == x;
      assert working[j + 1] == x;
    }
  }

  /** Deleting one more id removes one record, the first with that id. */
  lemma {:induction false} RemainingStep(working: seq<RawRec>, done: set<int>, d: int)
    requires DistinctIds(working) && d !in done
    ensures Remaining(working, done + {d}) == RemoveId(Remaining(working, done), d)
  {
    if working != [] {
      var tail := working[1..];
      TailDistinct(working);
      var w0 := working[0];
      if w0.id == d {
        SameRemaining(tail, done, d);
        assert Remaining(working, done + {d}) == Remaining(tail, done + {d});
        assert Remaining(working, done) == [w0] + Remaining(tail, done);
      } else {
        RemainingStep(tail, done, d);
        if w0.id in done {
          assert Remaining(working, done + {d}) == Remaining(tail, done + {d});
          assert Remaining(working, done) == Remaining(tail, done);
        } else {
          assert Remaining(working, done + {d}) == [w0] + Remaining(tail, done + {d});
          assert Remaining(working, done) == [w0] + Remaining(tail, done);
          assert ([w0] + Remaining(tail, done))[1..] == Remaining(tail, done);
        }
      }
    }
  }

  lemma {:induction false} SameRemaining(working: seq<RawRec>, done: set<int>, d: int)
    requires forall x :: x in working ==> x.id != d
    ensures Remaining(working, done + {d}) == Remaining(working, done)
  {
    if working != [] {
      SameRemaining(working[1..], done, d);
    }
  }

  /** The record the search loop finds, as one step of the deletion loop applies it. */
  function DeleteStep(db: Db, r: RawRec): Db {
    db.SetActiveById(r.id, false).AddBlacklist(DeletedRow(r)).DeleteAncestryByParent(r.id)
  }

  /** One pass of the deletion loop for an id in the remaining working set. */
  lemma ApplyDeletionsStep(db: Db, working: seq<RawRec>, done: set<int>, r: RawRec)
    requires DistinctIds(working) && r in working && r.id !in done
    ensures ApplyDeletions(db, working, done + {r.id}) == DeleteStep(ApplyDeletions(db, working, done), r)
  {
    var d := r.id;
    var before := ApplyDeletions(db, working, done);
    var after := ApplyDeletions(db, working, done + {d});
    var step := DeleteStep(before, r);
    HitsStep(working, done, r);
    assert after.records == step.records by {
      RecordsStep(db, Hits(working, done), d);
    }
    assert after.blacklist == step.blacklist by { BlacklistStep(working, done, r); }
    assert after.ancestry == step.ancestry by {
      AncestryStep(db, Hits(working, done), d);
    }
  }

  lemma HitsStep(working: seq<RawRec>, done: set<int>, r: RawRec)
    requires r in working
    ensures Hits(working, done + {r.id}) == Hits(working, done) + {r.id}
  {
  }

  lemma RecordsStep(db: Db, hits: set<int>, d: int)
    ensures (map id | id in db.records :: if id in hits + {d} then db.records[id].(active := false) else db.records[id]) ==
            db.(records := map id | id in db.records :: if id in hits then db.records[id].(active := false) else db.records[id])
              .SetActiveById(d, false).records
  {
  }

  lemma AncestryStep(db: Db, hits: set<int>, d: int)
    ensures (set e | e in db.ancestry && e.parent !in hits + {d}) ==
            db.(ancestry := set e | e in db.ancestry && e.parent !in hits).DeleteAncestryByParent(d).ancestry
  {
  }

  lemma BlacklistStep(working: seq<RawRec>, done: set<int>, r: RawRec)
    requires DistinctIds(working) && r in working
    ensures (set x | x in working && x.id in done + {r.id} :: DeletedRow(x)) ==
            (set x | x in working && x.id in done :: DeletedRow(x)) + {DeletedRow(r)}
  {
    forall x | x in working && x.id == r.id ensures x == r {
      var i :| 0 <= i < |working| && working[i] == x;
      var j :| 0 <= j < |working| && working[j] == r;
      assert i == j;
    }
  }

  /** A deleted id absent from the remaining working set changes nothing. */
  lemma ApplyDeletionsSkip(db: Db, working: seq<RawRec>, done: set<int>, d: int)
    requires forall x :: x in working ==> x.id != d || x.id in done
    ensures ApplyDeletions(db, working, done + {d}) == ApplyDeletions(db, working, done)
  {
    assert Hits(working, done + {d}) == Hits(working, done);
    assert (set x | x in working && x.id in done + {d} :: DeletedRow(x)) ==
           (set x | x in working && x.id in done :: DeletedRow(x));
  }

  lemma ApplyDeletionsNone(db: Db, working: seq<RawRec>)
    ensures ApplyDeletions(db, working, {}) == db
  {
    assert Hits(working, {}) == {};
    assert (set x | x in working && x.id in {} :: DeletedRow(x)) == {};
    assert (map id | id in db.records :: db.records[id]) == db.records;
    assert (set e | e in db.ancestry && e.parent !in {}) == db.ancestry;
  }

  /** The search `for r in org_records: ... break`. */
  method FindRecord(working: seq<RawRec>, d: int) returns (found: Option<RawRec>)
    ensures found.Some? ==> found.value in working && found.value.id == d &&
                            RemoveId(working, d) == RemoveFound(working, found.value)
    ensures found.None? ==> forall x :: x in working ==> x.id != d
  {
    var i := 0;
    while i < |working|
      invariant 0 <= i <= |working|
      invariant forall k :: 0 <= k < i ==> working[k].id != d
    {
      if working[i].id == d {
        RemoveIdAt(working, d, i);
        return Some(working[i]);
      }
      i := i + 1;
    }
    return None;
  }

  /** `list.remove(x)` on a list whose first element with `x`'s id is `x`. */
  function RemoveFound(working: seq<RawRec>, x: RawRec): seq<RawRec> {
    RemoveId(working, x.id)
  }

  lemma {:induction false} RemoveIdAt(working: seq<RawRec>, d: int, i: nat)
    requires i < |working| && working[i].id == d
    requires forall k :: 0 <= k < i ==> working[k].id != d
    ensures RemoveId(working, d) == working[..i] + working[i + 1..]
  {
    if i > 0 {
      RemoveIdAt(working[1..], d, i - 1);
      assert working[1..][..i - 1] == working[1..i];
      assert working == [working[0]] + working[1..];
    }
  }

  /** The deletion loop on the store object. */
  method ApplyDeletionsOn(store: RecordStore, working: seq<RawRec>, deleted: set<int>)
    returns (remaining: seq<RawRec>)
    requires DistinctIds(working)
    modifies store
    ensures store.State() == ApplyDeletions(old(store.State()), working, deleted)
    ensures remaining == Remaining(working, deleted)
    ensures store.saved == old(store.saved)
  {
    ghost var db0 := store.State();
    ApplyDeletionsNone(db0, working);
    NothingToRemove(working, {});
    remaining := working;
    var todo := deleted;
    assert deleted - todo == {};
    while todo != {}
      invariant todo <= deleted
      invariant store.State() == ApplyDeletions(db0, working, deleted - todo)
      invariant remaining == Remaining(working, deleted - todo)
      invariant store.saved == old(store.saved)
      decreases |todo|
    {
      NonEmptyHasElement(todo);
      var d: int :| d in todo;
      ghost var done := deleted - todo;
      assert deleted - (todo - {d}) == done + {d};
      RemainingStep(working, done, d);
      var delRec := FindRecord(remaining, d);
      if delRec.Some? {
        var r := delRec.value;
        assert r in working && r.id !in done;
        ApplyDeletionsStep(db0, working, done, r);
        remaining := RemoveFound(remaining, r);
        store.SetActiveById(d, false);
        store.AddBlacklist(DeletedRow(r));
        store.DeleteAncestryByParent(d);
      } else {
        RemoveAbsent(remaining, d);
        ApplyDeletionsSkip(db0, working, done, d);
      }
      todo := todo - {d};
    }
    assert deleted - todo == deleted;
  }

  // ---------------------------------------------------------------------------
  // Regeneration of an existing flat record (the branches on `len(org_records)`)
  // ---------------------------------------------------------------------------

  /** What a regeneration branch leaves behind before the ancestry rewrite. */
  datatype Regen = Regen(db: Db, files: Files, commands: set<String>, produced: bool, newSeq: String)

  /** The flags of the detection, or the untouched initial flags beside a second flat record. */
  function Detected(db: Db, flats: seq<FlatRec>, working: seq<RawRec>, files: Files): (r: Result<Detection, DetectError>)
    requires |flats| >= 1
    ensures r.Ok? ==> WellFormed(r.value)
    ensures |flats| > 1 ==> r == Ok(UNCHECKED)
    ensures |flats| == 1 ==> r == DetectSpec(db, flats[0], working, files)
  {
    if |flats| > 1 then Ok(UNCHECKED)
    else
      var d := DetectSpec(db, flats[0], working, files);
      if d.Ok? then RedoAndExisting(db, flats[0], working, files); d else d
  }

  /** `os.remove` of each artifact the detection saw. */
  function RemoveFiles(files: Files, det: Detection): Files {
    Files(if det.seqExists then None else files.seqFile, if det.alnExists then None else files.alnFile)
  }

  /** `parent_rec_id_list`: the ids of the working set, in its order. */
  function IdList(working: seq<RawRec>): (r: seq<int>)
    ensures |r| == |working|
    ensures forall i :: 0 <= i < |working| ==> r[i] == working[i].id
  {
    seq(|working|, i requires 0 <= i < |working| => working[i].id)
  }

  lemma IdListIds(working: seq<RawRec>)
    ensures (set p | p in IdList(working)) == Ids(working)
  {
    var l := IdList(working);
    forall p | p in l ensures p in Ids(working) {
      var i :| 0 <= i < |l| && l[i] == p;
      assert working[i] in working;
    }
    forall r | r in working ensures r.id in l {
      var i :| 0 <= i < |working| && working[i] == r;
      assert l[i] == r.id;
    }
  }

  /** The file records as alignment inputs. */
  function Somes(existing: seq<Entry>): (r: seq<Option<Entry>>)
    ensures |r| == |existing|
    ensures forall i :: 0 <= i < |existing| ==> r[i] == Some(existing[i])
  {
    seq(|existing|, i requires 0 <= i < |existing| => Some(existing[i]))
  }

  /** The trims appended to `records_to_align`: one per record on redo, else one per new record. */
  function Trims(w: seq<RawRec>, redo: bool, newIds: set<int>, trim: RawRec -> Option<Entry>): seq<Option<Entry>>
    decreases |w|
  {
    if w == [] then []
    else
      var r := w[|w| - 1];
      Trims(w[..|w| - 1], redo, newIds, trim) + if redo || r.id in newIds then [trim(r)] else []
  }

  /** New or deleted records, the change flags other than `redo_aln` and `aln_match`. */
  predicate Changed(det: Detection) {
    det.newIds != {} || det.deleted != {}
  }

  /** The condition of the realignment branch. */
  predicate WantsRealign(det: Detection, n: int) {
    n > 1 && (det.redo || !det.alnMatch || Changed(det))
  }

  /** `update_record_alignment`, the consensus as the new flat sequence, and the `.phy` file. */
  function Realigned(db: Db, flatId: int, cleared: Files, sv: Services, cmds: set<String>, aln: seq<Entry>): Regen {
    Regen(db.SetAlignment(flatId, sv.alignmentRows(aln)), cleared.(alnFile := Some(aln)), cmds, true,
          Upper(sv.consensus(aln)))
  }

  /** More than one record and some change: realign, or reuse the file alignment when only content differs. */
  function Realign(db: Db, flatId: int, det: Detection, files: Files, sv: Services, cmds: set<String>,
                   w: seq<RawRec>): Result<Regen, FlattenError>
  {
    var cleared := RemoveFiles(files, det);
    if Changed(det) || det.redo then
      match sv.realign(Somes(det.existing) + Trims(w, det.redo, det.newIds, sv.trim))
      case None => Err(RealignFailed)
      case Some(al) => Ok(Realigned(db, flatId, cleared, sv, GateOnScore(cmds, al.score, sv.idBottom), al.aln))
    else Ok(Realigned(db, flatId, cleared, sv, cmds, det.existing))
  }

  /** Exactly one record: drop the alignment rows, then take the file sequence or a fresh trim. */
  function Single(db: Db, flat: FlatRec, det: Detection, files: Files, sv: Services, cmds: set<String>,
                  r: RawRec): Regen
    requires WellFormed(det)
  {
    var db2 := db.DeleteAlignment(flat.id);
    var noChange := Regen(db2, files, cmds, false, []);
    if !det.seqMatch then
      var er := det.existing[0];
      Regen(db2, RemoveFiles(files, det).(seqFile := Some([er])), cmds, true, Upper(er.residues))
    else if det.deleted != {} || det.redo then
      match sv.trim(r)
      case None => noChange
      case Some(t) =>
        if !SameIgnoringCase(t.residues, flat.residues) || det.redo then
          Regen(db2, RemoveFiles(files, det).(seqFile := Some([t])), cmds, true, t.residues)
        else noChange
    else noChange
  }

  /** The branch on the size of the remaining working set. */
  function Regenerate(db: Db, flat: FlatRec, det: Detection, files: Files, sv: Services, cmds: set<String>,
                      w: seq<RawRec>): Result<Regen, FlattenError>
    requires WellFormed(det)
  {
    if WantsRealign(det, |w|) then Realign(db, flat.id, det, files, sv, cmds, w)
    else if |w| == 1 then Ok(Single(db, flat, det, files, sv, cmds, w[0]))
    else Ok(Regen(db, files, cmds, false, []))
  }

  /** `if flat_locus_produced:` the ancestry becomes the working set, and the sequence is replaced. */
  function Produce(db: Db, flatId: int, w: seq<RawRec>, newSeq: String): Db {
    db.DeleteAncestryByRec(flatId).InsertAncestryAll(flatId, IdList(w)).DeleteSequence(flatId).AddSequence(flatId, newSeq)
  }

  /** The whole treatment of an organism that already has a flat record. */
  function ExistingFlat(db: Db, flats: seq<FlatRec>, working: seq<RawRec>, files: Files, sv: Services,
                        cmds: set<String>): Result<Outcome, FlattenError>
    requires |flats| >= 1
  {
    var flat := flats[0];
    match Detected(db, flats, working, files)
    case Err(e) => Err(DetectFailed(e))
    case Ok(det) =>
      var w1 := Remaining(working, det.deleted);
      match Regenerate(ApplyDeletions(db, working, det.deleted), flat, det, files, sv, cmds, w1)
      case Err(e) => Err(e)
      case Ok(g) => Ok(Finish(g, flat.id, w1, det))
  }

  /** The ancestry rewrite of a produced flat locus, then the removal of a flat record with no records left. */
  function Finish(g: Regen, flatId: int, w: seq<RawRec>, det: Detection): Outcome {
    var db3 := if g.produced then Produce(g.db, flatId, w, g.newSeq) else g.db;
    if |w| == 0 then Outcome(db3.DeleteRecord(flatId), RemoveFiles(g.files, det), g.commands, w, false)
    else Outcome(db3, g.files, g.commands, w, g.produced)
  }

  // ---------------------------------------------------------------------------
  // A new flat record (no flat record yet, a non-empty working set)
  // ---------------------------------------------------------------------------

  /** The row `add_record` inserts for a new flat record, annotated `locus_flat`. */
  function FlatRow(org: int, locus: String, randomId: String): RecordRow {
    RecordRow(None, None, locus + "_" + randomId, org, true, Some(locus))
  }

  /**
   * The loop over the aligned records: some stored record must carry each gi,
   * and the first that does must have a stored sequence; the row keeps that
   * record's id and the upper-cased aligned residues.
   */
  function ResolveRows(db: Db, aln: seq<Entry>): (r: Result<seq<AlnRow>, FlattenError>)
    ensures r.Ok? ==> |r.value| == |aln|
    ensures r.Ok? ==> forall i :: 0 <= i < |aln| ==>
      db.RecordForGi(aln[i].gi).Some? && db.RecordForGi(aln[i].gi).value in db.sequences &&
      db.records[db.RecordForGi(aln[i].gi).value].gi == Some(aln[i].gi) &&
      r.value[i] == AlnRow(db.RecordForGi(aln[i].gi).value, Upper(aln[i].residues))
    ensures r.Err? ==>
      exists i :: 0 <= i < |aln| && (db.IdsWithGi(aln[i].gi) == {} || db.RecordForGi(aln[i].gi).value !in db.sequences)
    ensures r.Err? ==> r.error.UnknownAlignedGi? || r.error.NoStoredSequence?
    decreases |aln|
  {
    if aln == [] then Ok([])
    else
      var init := aln[..|aln| - 1];
      var ar := aln[|aln| - 1];
      match ResolveRows(db, init)
      case Err(e) =>
        assert forall i :: 0 <= i < |init| ==> init[i] == aln[i];
        Err(e)
      case Ok(rows) =>
        assert forall i :: 0 <= i < |init| ==> init[i] == aln[i];
        match db.RecordForGi(ar.gi)
        case None => Err(UnknownAlignedGi(ar.gi))
        case Some(id) =>
          if id !in db.sequences then Err(NoStoredSequence(id))
          else Ok(rows + [AlnRow(id, Upper(ar.residues))])
  }

  /** `add_record` with the working set as parents, and `add_alignment` when there is more than one row. */
  function AddFlat(db: Db, org: int, working: seq<RawRec>, locus: String, randomId: String, newSeq: String,
                   rows: seq<AlnRow>): Db
  {
    var added := db.AddRecord(FlatRow(org, locus, randomId), newSeq, IdList(working));
    if |rows| > 1 then added.SetAlignment(db.nextId, rows) else added
  }

  function NewFlat(db: Db, org: int, working: seq<RawRec>, files: Files, sv: Services, cmds: set<String>,
                   locus: String, randomId: String): Result<Outcome, FlattenError>
    requires |working| > 0
  {
    var noChange := Outcome(db, files, cmds, working, false);
    if |working| > 1 then
      match sv.alignRaw(working)
      case None => Ok(noChange)
      case Some(al) =>
        var gated := GateOnScore(cmds, al.score, sv.idBottom);
        match ResolveRows(db, al.aln)
        case Err(e) => Err(e)
        case Ok(rows) =>
          Ok(Outcome(AddFlat(db, org, working, locus, randomId, sv.consensus(al.aln), rows),
                     files.(alnFile := Some(al.aln)), gated, working, true))
    else
      match sv.trim(working[0])
      case None => Ok(noChange)
      case Some(t) =>
        Ok(Outcome(AddFlat(db, org, working, locus, randomId, t.residues, []),
                   files.(seqFile := Some([t])), cmds, working, true))
  }

  /** One organism of the flatten step: the existing flat record, a new one, or nothing to do. */
  function FlattenOrganism(db: Db, org: int, flats: seq<FlatRec>, working: seq<RawRec>, files: Files,
                           sv: Services, cmds: set<String>, locus: String, randomId: String)
    : Result<Outcome, FlattenError>
  {
    if |flats| > 0 then ExistingFlat(db, flats, working, files, sv, cmds)
    else if |working| > 0 then NewFlat(db, org, working, files, sv, cmds, locus, randomId)
    else Ok(Outcome(db, files, cmds, working, false))
  }

  // ---------------------------------------------------------------------------
  // Properties of the reconciliation
  // ---------------------------------------------------------------------------

  /**
   * Producing a flat locus makes the flat record's parents exactly the ids of
   * the working set and its sequence the new one, and touches no other
   * record's parents, no row and no alignment.
   */
  lemma ProduceEffects(db: Db, flatId: int, w: seq<RawRec>, newSeq: String)
    ensures var p := Produce(db, flatId, w, newSeq);
      p.Parents(flatId) == Ids(w) &&
      (forall r :: r != flatId ==> p.Parents(r) == db.Parents(r)) &&
      p.sequences == db.sequences[flatId := newSeq] &&
      p.records == db.records && p.alignments == db.alignments && p.blacklist == db.blacklist &&
      p.nextId == db.nextId
  {
    var cleared := db.DeleteAncestryByRec(flatId);
    var linked := cleared.InsertAncestryAll(flatId, IdList(w));
    InsertAncestryAllEdges(cleared, flatId, IdList(w));
    IdListIds(w);
    var p := Produce(db, flatId, w, newSeq);
    assert p.ancestry == linked.ancestry;
    assert linked.ancestry == cleared.ancestry + set q | q in IdList(w) :: Edge(flatId, q);
    forall q | q in p.Parents(flatId) ensures q in Ids(w) {
      var e :| e in p.ancestry && e.rec == flatId && e.parent == q;
      assert e !in cleared.ancestry;
    }
    forall q | q in Ids(w) ensures q in p.Parents(flatId) {
      assert Edge(flatId, q) in p.ancestry;
    }
    forall r | r != flatId ensures p.Parents(r) == db.Parents(r) {
      forall q | q in p.Parents(r) ensures q in db.Parents(r) {
        var e :| e in p.ancestry && e.rec == r && e.parent == q;
        assert e in cleared.ancestry;
      }
      forall q | q in db.Parents(r) ensures q in p.Parents(r) {
        var e :| e in db.ancestry && e.rec == r && e.parent == q;
        assert e in cleared.ancestry;
      }
    }
  }

  /**
   * The key invariant: when an existing flat record is produced again, its
   * ancestry is exactly the ids of the working set left after the deletions,
   * which are the active ids minus the deleted ones.
   */
  lemma ExistingFlatAncestry(db: Db, flats: seq<FlatRec>, working: seq<RawRec>, files: Files, sv: Services,
                             cmds: set<String>)
    requires |flats| >= 1
    requires ExistingFlat(db, flats, working, files, sv, cmds).Ok?
    ensures var o := ExistingFlat(db, flats, working, files, sv, cmds).value;
      var deleted := Detected(db, flats, working, files).value.deleted;
      o.working == Remaining(working, deleted) &&
      Ids(o.working) == Ids(working) - deleted &&
      (o.produced ==> o.db.Parents(flats[0].id) == Ids(o.working) &&
                      o.db.records == ApplyDeletions(db, working, deleted).records)
  {
    var det := Detected(db, flats, working, files).value;
    var db1 := ApplyDeletions(db, working, det.deleted);
    var w1 := Remaining(working, det.deleted);
    var g := Regenerate(db1, flats[0], det, files, sv, cmds, w1).value;
    assert ExistingFlat(db, flats, working, files, sv, cmds).value == Finish(g, flats[0].id, w1, det);
    assert Ids(w1) == Ids(working) - det.deleted by { DeletionEffects(db, working, det.deleted); }
    FinishAncestry(g, flats[0].id, w1, det);
    assert g.db.records == db1.records by { RegenerateTouchesAlignments(db1, flats[0], det, files, sv, cmds, w1); }
  }

  lemma FinishAncestry(g: Regen, flatId: int, w: seq<RawRec>, det: Detection)
    ensures Finish(g, flatId, w, det).working == w
    ensures Finish(g, flatId, w, det).produced ==>
      Finish(g, flatId, w, det).db.Parents(flatId) == Ids(w) && Finish(g, flatId, w, det).db.records == g.db.records
  {
    if g.produced {
      ProduceEffects(g.db, flatId, w, g.newSeq);
    }
  }

  /** Regeneration only ever changes the store's alignments. */
  lemma RegenerateTouchesAlignments(db: Db, flat: FlatRec, det: Detection, files: Files, sv: Services,
                                    cmds: set<String>, w: seq<RawRec>)
    requires WellFormed(det) && Regenerate(db, flat, det, files, sv, cmds, w).Ok?
    ensures Regenerate(db, flat, det, files, sv, cmds, w).value.db ==
            db.(alignments := Regenerate(db, flat, det, files, sv, cmds, w).value.db.alignments)
  {
  }

  /** What each branch of `Regenerate` leaves, by the size of the working set. */
  lemma RegenerateBranches(db: Db, flat: FlatRec, det: Detection, files: Files, sv: Services,
                           cmds: set<String>, w: seq<RawRec>)
    requires WellFormed(det) && Regenerate(db, flat, det, files, sv, cmds, w).Ok?
    ensures var g := Regenerate(db, flat, det, files, sv, cmds, w).value;
      (WantsRealign(det, |w|) ==>
         g.produced && g.files.alnFile.Some? && g.db.alignments == db.alignments[flat.id := sv.alignmentRows(g.files.alnFile.value)] &&
         g.newSeq == Upper(sv.consensus(g.files.alnFile.value))) &&
      (|w| == 1 ==> g.db.alignments == db.alignments - {flat.id}) &&
      (!WantsRealign(det, |w|) && |w| != 1 ==> g == Regen(db, files, cmds, false, []))
  {
  }

  /** Finishing keeps the alignments and, for a produced locus, stores its sequence. */
  lemma FinishStores(g: Regen, flatId: int, w: seq<RawRec>, det: Detection)
    ensures Finish(g, flatId, w, det).db.alignments == g.db.alignments
    ensures Finish(g, flatId, w, det).files == if |w| == 0 then RemoveFiles(g.files, det) else g.files
    ensures Finish(g, flatId, w, det).commands == g.commands
    ensures g.produced && |w| > 0 ==>
      Finish(g, flatId, w, det).produced && Finish(g, flatId, w, det).db.sequences == g.db.sequences[flatId := g.newSeq]
    ensures !g.produced && |w| > 0 ==> Finish(g, flatId, w, det) == Outcome(g.db, g.files, g.commands, w, false)
    ensures |w| == 0 ==> flatId !in Finish(g, flatId, w, det).db.records && !Finish(g, flatId, w, det).produced
  {
    if g.produced {
      ProduceEffects(g.db, flatId, w, g.newSeq);
    }
  }

  /**
   * Branch selection for an existing flat record: no record left deletes the
   * flat record; exactly one deletes its alignment rows; more than one with a
   * change flag realigns and stores the consensus; more than one without any
   * change leaves everything as it was.
   */
  lemma BranchSelection(db: Db, flats: seq<FlatRec>, working: seq<RawRec>, files: Files, sv: Services,
                        cmds: set<String>)
    requires |flats| >= 1
    requires ExistingFlat(db, flats, working, files, sv, cmds).Ok?
    ensures var o := ExistingFlat(db, flats, working, files, sv, cmds).value;
      var det := Detected(db, flats, working, files).value;
      var n := |o.working|;
      var flatId := flats[0].id;
      (n == 0 ==> flatId !in o.db.records && !o.produced) &&
      (n == 1 ==> flatId !in o.db.alignments) &&
      (WantsRealign(det, n) ==>
         o.produced && o.files.alnFile.Some? && flatId in o.db.alignments &&
         o.db.alignments[flatId] == sv.alignmentRows(o.files.alnFile.value) &&
         o.db.sequences[flatId] == Upper(sv.consensus(o.files.alnFile.value))) &&
      (n > 1 && !WantsRealign(det, n) ==> o == Outcome(db, files, cmds, working, false))
  {
    var det := Detected(db, flats, working, files).value;
    var db1 := ApplyDeletions(db, working, det.deleted);
    var w1 := Remaining(working, det.deleted);
    var g := Regenerate(db1, flats[0], det, files, sv, cmds, w1).value;
    assert ExistingFlat(db, flats, working, files, sv, cmds).value == Finish(g, flats[0].id, w1, det);
    FinishAncestry(g, flats[0].id, w1, det);
    RegenerateBranches(db1, flats[0], det, files, sv, cmds, w1);
    FinishStores(g, flats[0].id, w1, det);
    if |w1| > 1 && !WantsRealign(det, |w1|) {
      ApplyDeletionsNone(db, working);
      DeletionEffects(db, working, {});
    }
  }

  /**
   * The single-record branch: a file sequence that differs from the stored
   * flat sequence wins, upper-cased; otherwise only a deletion or a redo
   * retrims, and the trim is produced only when it differs ignoring case or
   * on redo.
   */
  lemma SingleBranch(db: Db, flats: seq<FlatRec>, working: seq<RawRec>, files: Files, sv: Services,
                     cmds: set<String>)
    requires |flats| >= 1
    requires ExistingFlat(db, flats, working, files, sv, cmds).Ok?
    requires |ExistingFlat(db, flats, working, files, sv, cmds).value.working| == 1
    ensures var o := ExistingFlat(db, flats, working, files, sv, cmds).value;
      var det := Detected(db, flats, working, files).value;
      var flat := flats[0];
      var t := sv.trim(o.working[0]);
      (!det.seqMatch ==>
         o.produced && o.db.sequences[flat.id] == Upper(det.existing[0].residues) &&
         o.files.seqFile == Some([det.existing[0]])) &&
      (det.seqMatch && det.deleted == {} && !det.redo ==> !o.produced) &&
      (det.seqMatch && (det.deleted != {} || det.redo) ==>
         (o.produced <==> t.Some? && (!SameIgnoringCase(t.value.residues, flat.residues) || det.redo)) &&
         (o.produced ==> o.db.sequences[flat.id] == t.value.residues && o.files.seqFile == Some([t.value])))
  {
    var det := Detected(db, flats, working, files).value;
    var db1 := ApplyDeletions(db, working, det.deleted);
    var w1 := Remaining(working, det.deleted);
    var g := Single(db1, flats[0], det, files, sv, cmds, w1[0]);
    assert ExistingFlat(db, flats, working, files, sv, cmds).value == Finish(g, flats[0].id, w1, det);
    FinishStores(g, flats[0].id, w1, det);
  }

  /** Deletions alone add no trims: without redo only records with new ids are trimmed. */
  lemma {:induction false} TrimsNone(w: seq<RawRec>, newIds: set<int>, trim: RawRec -> Option<Entry>)
    requires forall r :: r in w ==> r.id !in newIds
    ensures Trims(w, false, newIds, trim) == []
    decreases |w|
  {
    if w != [] {
      assert forall r :: r in w[..|w| - 1] ==> r in w;
      TrimsNone(w[..|w| - 1], newIds, trim);
      assert w[|w| - 1] in w;
    }
  }

  /** On redo every record of the working set is trimmed, in order. */
  lemma {:induction false} TrimsAll(w: seq<RawRec>, newIds: set<int>, trim: RawRec -> Option<Entry>)
    ensures |Trims(w, true, newIds, trim)| == |w|
    ensures forall i :: 0 <= i < |w| ==> Trims(w, true, newIds, trim)[i] == trim(w[i])
    decreases |w|
  {
    if w != [] {
      var init := w[..|w| - 1];
      TrimsAll(init, newIds, trim);
      assert forall i :: 0 <= i < |init| ==> init[i] == w[i];
    }
  }

  /** Without redo, each trim belongs to a record with a new id. */
  lemma {:induction false} TrimsOfNew(w: seq<RawRec>, newIds: set<int>, trim: RawRec -> Option<Entry>)
    ensures |Trims(w, false, newIds, trim)| == |Filter(w, (r: RawRec) => r.id in newIds)|
    ensures forall x :: x in Trims(w, false, newIds, trim) ==> exists r :: r in w && r.id in newIds && x == trim(r)
    decreases |w|
  {
    if w != [] {
      var init := w[..|w| - 1];
      var last := w[|w| - 1];
      TrimsOfNew(init, newIds, trim);
      assert forall r :: r in init ==> r in w;
      assert last in w;
      assert |Filter(w, (r: RawRec) => r.id in newIds)| ==
             |Filter(init, (r: RawRec) => r.id in newIds)| + (if last.id in newIds then 1 else 0) by {
        assert w == init + [last];
        FilterSnoc(init, last, (r: RawRec) => r.id in newIds);
      }
    }
  }

  /**
   * Adding a flat record to a valid store: the new id holds the flat row, its
   * sequence and exactly the working set as parents, and an alignment exactly
   * when there is more than one row.
   */
  lemma AddFlatEffects(db: Db, org: int, working: seq<RawRec>, locus: String, randomId: String,
                       newSeq: String, rows: seq<AlnRow>)
    requires db.Valid()
    ensures var a := AddFlat(db, org, working, locus, randomId, newSeq, rows);
      var id := db.nextId;
      a.Valid() && a.nextId == id + 1 &&
      a.records == db.records[id := FlatRow(org, locus, randomId)] &&
      a.sequences == db.sequences[id := newSeq] &&
      a.Parents(id) == Ids(working) &&
      (forall r :: r != id ==> a.Parents(r) == db.Parents(r)) &&
      a.alignments == if |rows| > 1 then db.alignments[id := rows] else db.alignments
  {
    var row := FlatRow(org, locus, randomId);
    AddRecordParents(db, row, newSeq, IdList(working));
    IdListIds(working);
    var added := db.AddRecord(row, newSeq, IdList(working));
    assert added.alignments == db.alignments && added.nextId == db.nextId + 1 by {
      var withRow := db.(records := db.records[db.nextId := row], nextId := db.nextId + 1);
      InsertAncestryAllEdges(withRow.AddSequence(db.nextId, newSeq), db.nextId, IdList(working));
    }
    var a := AddFlat(db, org, working, locus, randomId, newSeq, rows);
    assert a == if |rows| > 1 then added.SetAlignment(db.nextId, rows) else added;
    assert a.Parents(db.nextId) == added.Parents(db.nextId);
  }

  /**
   * A new flat record, when one is produced, is the flat row for the locus
   * with the whole working set as parents; its sequence is the trimmed record
   * or the (not upper-cased) consensus; an alignment is stored only for more
   * than one aligned record. When nothing is produced the store is untouched.
   */
  lemma NewFlatEffects(db: Db, org: int, working: seq<RawRec>, files: Files, sv: Services, cmds: set<String>,
                       locus: String, randomId: String)
    requires db.Valid() && |working| > 0
    requires NewFlat(db, org, working, files, sv, cmds, locus, randomId).Ok?
    ensures var o := NewFlat(db, org, working, files, sv, cmds, locus, randomId).value;
      var id := db.nextId;
      o.working == working &&
      (!o.produced ==> o.db == db && o.files == files && o.commands == cmds) &&
      (o.produced ==>
         o.db.Valid() && o.db.nextId == id + 1 &&
         o.db.records == db.records[id := FlatRow(org, locus, randomId)] &&
         o.db.Parents(id) == Ids(working) &&
         (forall r :: r != id ==> o.db.Parents(r) == db.Parents(r))) &&
      (o.produced && |working| == 1 ==>
         sv.trim(working[0]).Some? && id in o.db.sequences &&
         o.db.sequences[id] == sv.trim(working[0]).value.residues &&
         id !in o.db.alignments && o.files.seqFile == Some([sv.trim(working[0]).value])) &&
      (o.produced && |working| > 1 ==>
         sv.alignRaw(working).Some? && id in o.db.sequences &&
         o.db.sequences[id] == sv.consensus(sv.alignRaw(working).value.aln) &&
         o.files.alnFile == Some(sv.alignRaw(working).value.aln) &&
         (id in o.db.alignments <==> |sv.alignRaw(working).value.aln| > 1))
  {
    var o := NewFlat(db, org, working, files, sv, cmds, locus, randomId).value;
    if o.produced {
      assert db.nextId !in db.alignments;
      if |working| > 1 {
        var al := sv.alignRaw(working).value;
        var rows := ResolveRows(db, al.aln).value;
        AddFlatEffects(db, org, working, locus, randomId, sv.consensus(al.aln), rows);
      } else {
        AddFlatEffects(db, org, working, locus, randomId, sv.trim(working[0]).value.residues, []);
      }
    }
  }

  /** Nothing the treatment of an existing flat record does adds a record. */
  lemma ExistingKeepsRecords(db: Db, flats: seq<FlatRec>, working: seq<RawRec>, files: Files, sv: Services,
                             cmds: set<String>)
    requires |flats| >= 1
    requires ExistingFlat(db, flats, working, files, sv, cmds).Ok?
    ensures ExistingFlat(db, flats, working, files, sv, cmds).value.db.records.Keys <= db.records.Keys
    ensures ExistingFlat(db, flats, working, files, sv, cmds).value.db.nextId == db.nextId
  {
    var det := Detected(db, flats, working, files).value;
    var db1 := ApplyDeletions(db, working, det.deleted);
    var w1 := Remaining(working, det.deleted);
    var g := Regenerate(db1, flats[0], det, files, sv, cmds, w1).value;
    assert ExistingFlat(db, flats, working, files, sv, cmds).value == Finish(g, flats[0].id, w1, det);
    RegenerateTouchesAlignments(db1, flats[0], det, files, sv, cmds, w1);
    FinishAncestry(g, flats[0].id, w1, det);
    if g.produced {
      ProduceEffects(g.db, flats[0].id, w1, g.newSeq);
    }
  }

  /**
   * A new flat record appears exactly when the organism has no flat record, a
   * non-empty working set, and a flat locus was produced.
   */
  lemma CreatedOnlyWhenNoFlat(db: Db, org: int, flats: seq<FlatRec>, working: seq<RawRec>, files: Files,
                              sv: Services, cmds: set<String>, locus: String, randomId: String)
    requires db.Valid()
    requires FlattenOrganism(db, org, flats, working, files, sv, cmds, locus, randomId).Ok?
    ensures var o := FlattenOrganism(db, org, flats, working, files, sv, cmds, locus, randomId).value;
      (db.nextId in o.db.records <==> |flats| == 0 && |working| > 0 && o.produced) &&
      (o.db.nextId == if |flats| == 0 && |working| > 0 && o.produced then db.nextId + 1 else db.nextId)
  {
    if |flats| > 0 {
      ExistingKeepsRecords(db, flats, working, files, sv, cmds);
    } else if |working| > 0 {
      NewFlatEffects(db, org, working, files, sv, cmds, locus, randomId);
    }
  }

  /**
   * Whatever happens to an organism, `align` and `concatenate` are the only
   * commands that can disappear, and no command is added.
   */
  lemma CommandsOnlyGated(db: Db, org: int, flats: seq<FlatRec>, working: seq<RawRec>, files: Files,
                          sv: Services, cmds: set<String>, locus: String, randomId: String)
    requires FlattenOrganism(db, org, flats, working, files, sv, cmds, locus, randomId).Ok?
    ensures var o := FlattenOrganism(db, org, flats, working, files, sv, cmds, locus, randomId).value;
      o.commands <= cmds &&
      forall c :: c != "align" && c != "concatenate" ==> (c in o.commands <==> c in cmds)
  {
    var o := FlattenOrganism(db, org, flats, working, files, sv, cmds, locus, randomId).value;
    if |flats| > 0 {
      var det := Detected(db, flats, working, files).value;
      var db1 := ApplyDeletions(db, working, det.deleted);
      var w1 := Remaining(working, det.deleted);
      var g := Regenerate(db1, flats[0], det, files, sv, cmds, w1).value;
      assert o == Finish(g, flats[0].id, w1, det);
      FinishStores(g, flats[0].id, w1, det);
      RegenerateGated(db1, flats[0], det, files, sv, cmds, w1);
    } else if |working| > 0 {
      NewFlatGated(db, org, working, files, sv, cmds, locus, randomId);
    }
    assert GatedFrom(o.commands, cmds);
  }

  /** `after` is `before` with at most `align` and `concatenate` taken out. */
  ghost predicate GatedFrom(after: set<String>, before: set<String>) {
    after <= before && forall c :: c != "align" && c != "concatenate" ==> (c in after <==> c in before)
  }

  lemma RegenerateGated(db: Db, flat: FlatRec, det: Detection, files: Files, sv: Services,
                        cmds: set<String>, w: seq<RawRec>)
    requires WellFormed(det) && Regenerate(db, flat, det, files, sv, cmds, w).Ok?
    ensures GatedFrom(Regenerate(db, flat, det, files, sv, cmds, w).value.commands, cmds)
  {
    if WantsRealign(det, |w|) && (Changed(det) || det.redo) {
      var al := sv.realign(Somes(det.existing) + Trims(w, det.redo, det.newIds, sv.trim)).value;
      assert Regenerate(db, flat, det, files, sv, cmds, w).value.commands == GateOnScore(cmds, al.score, sv.idBottom);
    }
  }

  lemma NewFlatGated(db: Db, org: int, working: seq<RawRec>, files: Files, sv: Services, cmds: set<String>,
                     locus: String, randomId: String)
    requires |working| > 0 && NewFlat(db, org, working, files, sv, cmds, locus, randomId).Ok?
    ensures GatedFrom(NewFlat(db, org, working, files, sv, cmds, locus, randomId).value.commands, cmds)
  {
    if |working| > 1 && sv.alignRaw(working).Some? {
      var al := sv.alignRaw(working).value;
      assert NewFlat(db, org, working, files, sv, cmds, locus, randomId).value.commands ==
             GateOnScore(cmds, al.score, sv.idBottom);
    }
  }

  /**
   * The organism's treatment fails on an unresolvable file gi only beside a
   * single flat record, on a failed realignment only for an existing flat
   * record, and on an unresolvable aligned record only for a new one.
   */
  lemma FlattenFailures(db: Db, org: int, flats: seq<FlatRec>, working: seq<RawRec>, files: Files,
                        sv: Services, cmds: set<String>, locus: String, randomId: String)
    ensures var r := FlattenOrganism(db, org, flats, working, files, sv, cmds, locus, randomId);
      (r.Err? && r.error.DetectFailed? <==> |flats| == 1 && DetectSpec(db, flats[0], working, files).Err?) &&
      (r.Err? && r.error.RealignFailed? ==> |flats| >= 1) &&
      (r.Err? && (r.error.UnknownAlignedGi? || r.error.NoStoredSequence?) ==>
         |flats| == 0 && |working| > 1 && sv.alignRaw(working).Some?)
  {
    if |flats| > 0 {
      var det := Detected(db, flats, working, files);
      if det.Ok? {
        var w1 := Remaining(working, det.value.deleted);
        var db1 := ApplyDeletions(db, working, det.value.deleted);
        assert RegenerateErrors: Regenerate(db1, flats[0], det.value, files, sv, cmds, w1).Err? ==>
                                 Regenerate(db1, flats[0], det.value, files, sv, cmds, w1).error == RealignFailed;
      }
    }
  }

  // ---------------------------------------------------------------------------
  // The flatten step on the store object
  // ---------------------------------------------------------------------------

  /** The two guarded `COMMANDS.remove` calls after a low identity score. */
  method GateCommands(cmds: set<String>, score: real, bottom: real) returns (r: set<String>)
    ensures r == GateOnScore(cmds, score, bottom)
  {
    r := cmds;
    if score < bottom {
      if "align" in r {
        r := r - {"align"};
      }
      if "concatenate" in r {
        r := r - {"concatenate"};
      }
    }
  }

  /** The ancestry, sequence and representation rewrite of a produced flat locus. */
  method ProduceOn(store: RecordStore, flatId: int, w: seq<RawRec>, newSeq: String)
    modifies store
    ensures store.State() == Produce(old(store.State()), flatId, w, newSeq) && store.saved == old(store.saved)
  {
    store.DeleteAncestryByRec(flatId);
    ghost var cleared := store.State();
    var parents := IdList(w);
    var i := 0;
    while i < |parents|
      invariant 0 <= i <= |parents|
      invariant store.State() == cleared.InsertAncestryAll(flatId, parents[..i])
      invariant store.saved == old(store.saved)
    {
      assert parents[..i + 1][..i] == parents[..i];
      store.InsertAncestry(flatId, parents[i]);
      i := i + 1;
    }
    assert parents[..i] == parents;
    store.DeleteSequence(flatId);
    store.AddSequence(flatId, newSeq);
  }

  /** The realignment branch on the store. */
  method RealignOn(store: RecordStore, flatId: int, det: Detection, files: Files, sv: Services,
                   cmds: set<String>, w: seq<RawRec>) returns (r: Result<Regen, FlattenError>)
    modifies store
    ensures r == Realign(old(store.State()), flatId, det, files, sv, cmds, w)
    ensures r.Ok? ==> store.State() == r.value.db
    ensures store.saved == old(store.saved)
  {
    var seqFile, alnFile := files.seqFile, files.alnFile;
    if det.seqExists {
      seqFile := None;
    }
    if det.alnExists {
      alnFile := None;
    }
    var newAln := det.existing;
    var commands := cmds;
    if det.newIds != {} || det.deleted != {} || det.redo {
      var toAlign := Somes(det.existing);
      var i := 0;
      while i < |w|
        invariant 0 <= i <= |w|
        invariant toAlign == Somes(det.existing) + Trims(w[..i], det.redo, det.newIds, sv.trim)
      {
        assert w[..i + 1][..i] == w[..i];
        if det.redo || w[i].id in det.newIds {
          toAlign := toAlign + [sv.trim(w[i])];
        }
        i := i + 1;
      }
      assert w[..i] == w;
      var aligned := sv.realign(toAlign);
      if aligned.None? {
        return Err(RealignFailed);
      }
      commands := GateCommands(cmds, aligned.value.score, sv.idBottom);
      newAln := aligned.value.aln;
    }
    store.SetAlignment(flatId, sv.alignmentRows(newAln));
    var newSeq := Upper(sv.consensus(newAln));
    r := Ok(Regen(store.State(), Files(seqFile, Some(newAln)), commands, true, newSeq));
  }

  /** The single-record branch on the store. */
  method SingleOn(store: RecordStore, flat: FlatRec, det: Detection, files: Files, sv: Services,
                  cmds: set<String>, rec: RawRec) returns (g: Regen)
    requires WellFormed(det)
    modifies store
    ensures g == Single(old(store.State()), flat, det, files, sv, cmds, rec)
    ensures store.State() == g.db && store.saved == old(store.saved)
  {
    store.DeleteAlignment(flat.id);
    var seqMatch := det.seqMatch;
    var newSeq: String := [];
    var newRec := None;
    if !seqMatch {
      var er := det.existing[0];
      newSeq := Upper(er.residues);
      newRec := Some(er);
    } else if det.deleted != {} || det.redo {
      var trimmed := sv.trim(rec);
      if trimmed.Some? {
        newSeq := trimmed.value.residues;
        newRec := trimmed;
        if Upper(newSeq) != Upper(flat.residues) || det.redo {
          seqMatch := false;
        }
      }
    }
    var outFiles := files;
    if !seqMatch {
      outFiles := Files(if det.seqExists then None else files.seqFile, if det.alnExists then None else files.alnFile);
      outFiles := outFiles.(seqFile := Some([newRec.value]));
    } else {
      newSeq := [];
    }
    g := Regen(store.State(), outFiles, cmds, !seqMatch, newSeq);
  }

  /** The treatment of an organism with a flat record, on the store. */
  method ExistingFlatOn(store: RecordStore, flats: seq<FlatRec>, working: seq<RawRec>, files: Files,
                        sv: Services, cmds: set<String>) returns (r: Result<Outcome, FlattenError>)
    requires |flats| >= 1 && DistinctIds(working)
    modifies store
    ensures r == ExistingFlat(old(store.State()), flats, working, files, sv, cmds)
    ensures r.Ok? ==> store.State() == r.value.db
    ensures store.saved == old(store.saved)
  {
    ghost var db0 := store.State();
    var flat := flats[0];
    var det := UNCHECKED;
    if |flats| == 1 {
      var detected := DetectChanges(store.State(), flat, working, files);
      if detected.Err? {
        return Err(DetectFailed(detected.error));
      }
      det := detected.value;
    }
    assert Detected(db0, flats, working, files) == Ok(det);
    var w1 := ApplyDeletionsOn(store, working, det.deleted);
    ghost var db1 := store.State();
    var g: Regen;
    if WantsRealign(det, |w1|) {
      var res := RealignOn(store, flat.id, det, files, sv, cmds, w1);
      if res.Err? {
        return Err(res.error);
      }
      g := res.value;
    } else if |w1| == 1 {
      g := SingleOn(store, flat, det, files, sv, cmds, w1[0]);
    } else {
      g := Regen(store.State(), files, cmds, false, []);
    }
    assert Regenerate(db1, flat, det, files, sv, cmds, w1) == Ok(g);
    if g.produced {
      ProduceOn(store, flat.id, w1, g.newSeq);
    }
    var outFiles := g.files;
    if |w1| == 0 {
      outFiles := RemoveFiles(g.files, det);
      store.DeleteRecord(flat.id);
    }
    r := Ok(Outcome(store.State(), outFiles, g.commands, w1, g.produced));
  }

  /** The loop over the aligned records of a new flat record. */
  method ResolveAlignedRows(store: RecordStore, aln: seq<Entry>) returns (r: Result<seq<AlnRow>, FlattenError>)
    ensures r == ResolveRows(store.State(), aln)
  {
    var rows: seq<AlnRow> := [];
    var i := 0;
    while i < |aln|
      invariant 0 <= i <= |aln|
      invariant ResolveRows(store.State(), aln[..i]) == Ok(rows)
    {
      assert aln[..i + 1][..i] == aln[..i];
      var ar := aln[i];
      var found := store.State().RecordForGi(ar.gi);
      if found.None? {
        ResolveRowsError(store.State(), aln, i + 1, UnknownAlignedGi(ar.gi));
        return Err(UnknownAlignedGi(ar.gi));
      }
      var recId := found.value;
      if recId !in store.sequences {
        ResolveRowsError(store.State(), aln, i + 1, NoStoredSequence(recId));
        return Err(NoStoredSequence(recId));
      }
      rows := rows + [AlnRow(recId, Upper(ar.residues))];
      i := i + 1;
    }
    assert aln[..i] == aln;
    r := Ok(rows);
  }

  lemma {:induction false} ResolveRowsError(db: Db, aln: seq<Entry>, k: nat, e: FlattenError)
    requires 0 < k <= |aln|
    requires ResolveRows(db, aln[..k]) == Err(e)
    ensures ResolveRows(db, aln) == Err(e)
    decreases |aln|
  {
    if k < |aln| {
      assert aln[..|aln| - 1][..k] == aln[..k];
      ResolveRowsError(db, aln[..|aln| - 1], k, e);
    } else {
      assert aln[..k] == aln;
    }
  }

  /** The creation of a flat record, on the store. */
  method NewFlatOn(store: RecordStore, org: int, working: seq<RawRec>, files: Files, sv: Services,
                   cmds: set<String>, locus: String, randomId: String) returns (r: Result<Outcome, FlattenError>)
    requires |working| > 0
    modifies store
    ensures r == NewFlat(old(store.State()), org, working, files, sv, cmds, locus, randomId)
    ensures r.Ok? ==> store.State() == r.value.db
    ensures store.saved == old(store.saved)
  {
    var newSeq: String := [];
    var rows: seq<AlnRow> := [];
    var outFiles := files;
    var commands := cmds;
    if |working| > 1 {
      var aligned := sv.alignRaw(working);
      if aligned.None? {
        return Ok(Outcome(store.State(), files, cmds, working, false));
      }
      commands := GateCommands(cmds, aligned.value.score, sv.idBottom);
      outFiles := files.(alnFile := Some(aligned.value.aln));
      var resolved := ResolveAlignedRows(store, aligned.value.aln);
      if resolved.Err? {
        return Err(resolved.error);
      }
      rows := resolved.value;
      newSeq := sv.consensus(aligned.value.aln);
    } else {
      var trimmed := sv.trim(working[0]);
      if trimmed.None? {
        return Ok(Outcome(store.State(), files, cmds, working, false));
      }
      newSeq := trimmed.value.residues;
      outFiles := files.(seqFile := Some([trimmed.value]));
    }
    var parents := IdList(working);
    var id := store.AddRecord(FlatRow(org, locus, randomId), newSeq, parents);
    if |rows| > 1 {
      store.SetAlignment(id, rows);
    }
    r := Ok(Outcome(store.State(), outFiles, commands, working, true));
  }

  /** One organism of the flatten step, then `DB.save()`; a crash saves nothing. */
  method FlattenOrganismOn(store: RecordStore, org: int, flats: seq<FlatRec>, working: seq<RawRec>,
                           files: Files, sv: Services, cmds: set<String>, locus: String, randomId: String)
    returns (r: Result<Outcome, FlattenError>)
    requires DistinctIds(working)
    modifies store
    ensures r == FlattenOrganism(old(store.State()), org, flats, working, files, sv, cmds, locus, randomId)
    ensures r.Ok? ==> store.State() == r.value.db && store.saved == store.State()
    ensures r.Err? ==> store.saved == old(store.saved)
  {
    if |flats| > 0 {
      r := ExistingFlatOn(store, flats, working, files, sv, cmds);
    } else if |working| > 0 {
      r := NewFlatOn(store, org, working, files, sv, cmds, locus, randomId);
    } else {
      r := Ok(Outcome(store.State(), files, cmds, working, false));
    }
    if r.Ok? {
      store.Save();
    }
  }
}
