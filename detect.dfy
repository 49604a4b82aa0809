/**
 * Change detection of the flatten step (workflows/phylo.py): for one organism
 * at one locus that already has a flat record, compare the ids of the active
 * raw records, the recorded ancestry of the flat record and the records named
 * in the on-disk sequence (`.fasta`) or alignment (`.phy`) file, and compare
 * sequence content without regard to case.
 */
module Detect {
  import opened Util
  import opened Text
  import opened Store

  /** An active raw record of the organism at the locus (an element of `org_records`). */
  datatype RawRec = RawRec(id: int, org: int, gi: int, version: String, internalRef: String, residues: String)

  /** A flat record: the single per-organism locus sequence. */
  datatype FlatRec = FlatRec(id: int, org: int, residues: String)

  /** A record of a sequence or alignment file, named by gi. */
  datatype Entry = Entry(gi: int, residues: String)

  /** The two per-organism artifacts; `None` when the file does not exist. */
  datatype Files = Files(seqFile: Option<seq<Entry>>, alnFile: Option<seq<Entry>>)

  /** The flags and id sets the detection leaves behind. */
  datatype Detection = Detection(seqExists: bool, alnExists: bool, redo: bool, existing: seq<Entry>,
                                 parents: set<int>, fileIds: set<int>,
                                 deleted: set<int>, newIds: set<int>, alnMatch: bool, seqMatch: bool)

  /** The flags as initialised, left untouched when an organism has more than one flat record. */
  const UNCHECKED: Detection := Detection(false, false, false, [], {}, {}, {}, {}, true, true)

  datatype DetectError = UnresolvedGi(gi: int)

  /** A sequence mismatch always refers to the first file record. */
  predicate WellFormed(det: Detection) {
    !det.seqMatch ==> det.existing != []
  }

  /** `rec_ids_in_db`, as a set. */
  function Ids(working: seq<RawRec>): set<int> {
    set r | r in working :: r.id
  }

  /** `existing_record_list`: the sequence file when it exists, else the alignment file. */
  function ExistingRecords(files: Files): seq<Entry> {
    if files.seqFile.Some? then files.seqFile.value
    else if files.alnFile.Some? then files.alnFile.value
    else []
  }

  /** The first file gi with no stored record, where `db_get_row_ids(...)[0]` fails. */
  function FirstUnresolved(existing: seq<Entry>, byGi: map<int, int>): Option<int>
    decreases |existing|
  {
    if existing == [] then None
    else match FirstUnresolved(existing[..|existing| - 1], byGi)
      case Some(g) => Some(g)
      case None => if existing[|existing| - 1].gi in byGi then None else Some(existing[|existing| - 1].gi)
  }

  predicate Resolved(existing: seq<Entry>, byGi: map<int, int>) {
    forall e :: e in existing ==> e.gi in byGi
  }

  /** `rec_ids_in_file`, as a set. */
  function FileIds(existing: seq<Entry>, byGi: map<int, int>): set<int>
    requires Resolved(existing, byGi)
  {
    set e | e in existing :: byGi[e.gi]
  }

  /** `rec_id_gi_dict`: record id to file gi, a later entry overwriting an earlier one. */
  function GiDict(existing: seq<Entry>, byGi: map<int, int>): map<int, int>
    requires Resolved(existing, byGi)
    decreases |existing|
  {
    if existing == [] then map[]
    else
      var e := existing[|existing| - 1];
      GiDict(existing[..|existing| - 1], byGi)[byGi[e.gi] := e.gi]
  }

  /** No file record carrying gi `g` differs, ignoring case, from `residues`. */
  function EntriesAgree(existing: seq<Entry>, g: int, residues: String): bool
    decreases |existing|
  {
    if existing == [] then true
    else
      var er := existing[|existing| - 1];
      EntriesAgree(existing[..|existing| - 1], g, residues) &&
      (er.gi != g || SameIgnoringCase(er.residues, residues))
  }

  /** `aln_match` after the loop over the stored alignment rows. */
  function AlnAgrees(rows: seq<AlnRow>, existing: seq<Entry>, giOf: map<int, int>): bool
    decreases |rows|
  {
    if rows == [] then true
    else
      var a := rows[|rows| - 1];
      AlnAgrees(rows[..|rows| - 1], existing, giOf) &&
      (a.recId !in giOf || EntriesAgree(existing, giOf[a.recId], a.residues))
  }

  /** The stored alignment of the flat record; empty when there is none. */
  function StoredAlignment(db: Db, flatId: int): seq<AlnRow> {
    if flatId in db.alignments then db.alignments[flatId] else []
  }

  /** The detection block of the flatten step for a single flat record. */
  function DetectSpec(db: Db, flat: FlatRec, working: seq<RawRec>, files: Files): Result<Detection, DetectError> {
    var seqExists := files.seqFile.Some?;
    var alnExists := files.alnFile.Some?;
    var existing := ExistingRecords(files);
    var index := db.GiIndex();
    match FirstUnresolved(existing, index)
    case Some(g) => Err(UnresolvedGi(g))
    case None =>
      FirstUnresolvedNone(existing, index);
      var parents := db.Parents(flat.id);
      var dbIds := Ids(working);
      var fileIds := FileIds(existing, index);
      var giOf := GiDict(existing, index);
      var artifact := seqExists || alnExists;
      var deleted := if artifact && fileIds != parents then (fileIds - parents) + (parents - fileIds) else {};
      var newIds := if dbIds == parents then {} else dbIds - parents;
      var dbAln := StoredAlignment(db, flat.id);
      var compare := artifact && existing != [];
      var alnMatch := if compare && dbAln != [] then AlnAgrees(dbAln, existing, giOf) else true;
      var seqMatch := if compare && dbAln == [] then SameIgnoringCase(existing[0].residues, flat.residues) else true;
      Ok(Detection(seqExists, alnExists, !seqExists && !alnExists, existing, parents, fileIds,
                   deleted, newIds, alnMatch, seqMatch))
  }

  lemma {:induction false} FirstUnresolvedNone(existing: seq<Entry>, byGi: map<int, int>)
    ensures FirstUnresolved(existing, byGi).None? <==> Resolved(existing, byGi)
    ensures FirstUnresolved(existing, byGi).Some? ==> FirstUnresolved(existing, byGi).value !in byGi
    decreases |existing|
  {
    if existing != [] {
      var init := existing[..|existing| - 1];
      FirstUnresolvedNone(init, byGi);
      assert existing == init + [existing[|existing| - 1]];
    }
  }

  /**
   * The detection crashes exactly when some record of the file it reads names
   * a gi no stored record carries, and then reports such a gi.
   */
  lemma DetectCrashIff(db: Db, flat: FlatRec, working: seq<RawRec>, files: Files)
    ensures DetectSpec(db, flat, working, files).Err? <==>
      exists e :: e in ExistingRecords(files) && db.IdsWithGi(e.gi) == {}
    ensures DetectSpec(db, flat, working, files).Err? ==>
      db.IdsWithGi(DetectSpec(db, flat, working, files).error.gi) == {}
  {
    FirstUnresolvedNone(ExistingRecords(files), db.GiIndex());
  }

  /**
   * `redo_aln` holds exactly when neither file exists; when both do, the
   * sequence file is the one read; the detection is well formed.
   */
  lemma RedoAndExisting(db: Db, flat: FlatRec, working: seq<RawRec>, files: Files)
    requires DetectSpec(db, flat, working, files).Ok?
    ensures var det := DetectSpec(db, flat, working, files).value;
      (det.redo <==> files.seqFile.None? && files.alnFile.None?) &&
      (files.seqFile.Some? ==> det.existing == files.seqFile.value) &&
      (files.seqFile.None? && files.alnFile.Some? ==> det.existing == files.alnFile.value) &&
      (det.redo ==> det.existing == [] && det.deleted == {} && det.alnMatch && det.seqMatch) &&
      WellFormed(det)
  {
  }

  /**
   * Deleted ids are the symmetric difference of file ids and ancestry, and
   * only when a file exists; new ids are the active ids missing from the
   * ancestry; equal sets flag nothing.
   */
  lemma {:induction false} DeletedAndNew(db: Db, flat: FlatRec, working: seq<RawRec>, files: Files)
    requires DetectSpec(db, flat, working, files).Ok?
    ensures var det := DetectSpec(db, flat, working, files).value;
      var parents := db.Parents(flat.id);
      det.parents == parents &&
      (det.deleted != {} <==> (det.seqExists || det.alnExists) && det.fileIds != parents) &&
      (det.seqExists || det.alnExists ==> det.deleted == (det.fileIds - parents) + (parents - det.fileIds)) &&
      (forall id :: id in det.deleted ==> (id in det.fileIds <==> id !in parents)) &&
      det.newIds == Ids(working) - parents &&
      (Ids(working) == parents ==> det.newIds == {}) &&
      (det.fileIds == parents ==> det.deleted == {})
  {
    var det := DetectSpec(db, flat, working, files).value;
    var parents := db.Parents(flat.id);
    if det.fileIds != parents {
      if exists id :: id in det.fileIds && id !in parents {
      } else {
        var id :| id in parents && id !in det.fileIds;
        assert id in (parents - det.fileIds);
      }
    }
  }

  /** Every file gi resolves to a record named in `rec_ids_in_file`, and back. */
  lemma FileIdsOfEntries(existing: seq<Entry>, byGi: map<int, int>)
    requires Resolved(existing, byGi)
    ensures forall id :: id in FileIds(existing, byGi) <==> exists e :: e in existing && byGi[e.gi] == id
  {
  }

  /**
   * `rec_id_gi_dict` has one key per file record id, and each key maps to a
   * gi of the file whose stored record is that key.
   */
  lemma {:induction false} GiDictInverts(existing: seq<Entry>, byGi: map<int, int>)
    requires Resolved(existing, byGi)
    ensures GiDict(existing, byGi).Keys == FileIds(existing, byGi)
    ensures forall id :: id in GiDict(existing, byGi) ==>
      (exists e :: e in existing && e.gi == GiDict(existing, byGi)[id]) && byGi[GiDict(existing, byGi)[id]] == id
    decreases |existing|
  {
    if existing != [] {
      var init := existing[..|existing| - 1];
      var e := existing[|existing| - 1];
      assert existing == init + [e];
      assert forall x :: x in init ==> x in existing;
      GiDictInverts(init, byGi);
      assert FileIds(existing, byGi) == FileIds(init, byGi) + {byGi[e.gi]};
    }
  }

  lemma {:induction false} EntriesAgreeIff(existing: seq<Entry>, g: int, residues: String)
    ensures EntriesAgree(existing, g, residues) <==>
      forall er :: er in existing && er.gi == g ==> SameIgnoringCase(er.residues, residues)
    decreases |existing|
  {
    if existing != [] {
      var init := existing[..|existing| - 1];
      EntriesAgreeIff(init, g, residues);
      assert existing == init + [existing[|existing| - 1]];
    }
  }

  /**
   * `aln_match` stays true exactly when every stored alignment row whose
   * record is named in the file agrees, ignoring case, with every file record
   * of that gi.
   */
  lemma {:induction false} AlnAgreesIff(rows: seq<AlnRow>, existing: seq<Entry>, giOf: map<int, int>)
    ensures AlnAgrees(rows, existing, giOf) <==>
      forall a, er :: a in rows && er in existing && a.recId in giOf && er.gi == giOf[a.recId] ==>
        SameIgnoringCase(er.residues, a.residues)
    decreases |rows|
  {
    if rows != [] {
      var init := rows[..|rows| - 1];
      var a := rows[|rows| - 1];
      AlnAgreesIff(init, existing, giOf);
      if a.recId in giOf {
        EntriesAgreeIff(existing, giOf[a.recId], a.residues);
      }
      assert rows == init + [a];
    }
  }

  /** The loop over `gis_in_file`: each gi's record id, or the crash at the first unknown gi. */
  method ResolveFileGis(existing: seq<Entry>, byGi: map<int, int>)
    returns (r: Result<(set<int>, map<int, int>), DetectError>)
    ensures FirstUnresolved(existing, byGi).Some? ==> r == Err(UnresolvedGi(FirstUnresolved(existing, byGi).value))
    ensures FirstUnresolved(existing, byGi).None? ==>
      Resolved(existing, byGi) && r == Ok((FileIds(existing, byGi), GiDict(existing, byGi)))
  {
    var recIdGiDict: map<int, int> := map[];
    var recIdsInFile: set<int> := {};
    var i := 0;
    while i < |existing|
      invariant 0 <= i <= |existing|
      invariant FirstUnresolved(existing[..i], byGi).None?
      invariant Resolved(existing[..i], byGi)
      invariant recIdsInFile == FileIds(existing[..i], byGi)
      invariant recIdGiDict == GiDict(existing[..i], byGi)
    {
      assert existing[..i + 1][..i] == existing[..i];
      var gi := existing[i].gi;
      if gi !in byGi {
        FirstUnresolvedPrefix(existing, byGi, i + 1);
        return Err(UnresolvedGi(gi));
      }
      var recIdInFile := byGi[gi];
      assert existing[..i + 1] == existing[..i] + [existing[i]];
      recIdsInFile := recIdsInFile + {recIdInFile};
      recIdGiDict := recIdGiDict[recIdInFile := gi];
      i := i + 1;
    }
    assert existing[..i] == existing;
    FirstUnresolvedNone(existing, byGi);
    r := Ok((recIdsInFile, recIdGiDict));
  }

  /** The inner loop over `existing_record_list` for one stored alignment row. */
  method RowAgrees(existing: seq<Entry>, gi: int, residues: String) returns (agrees: bool)
    ensures agrees == EntriesAgree(existing, gi, residues)
  {
    agrees := true;
    var j := 0;
    while j < |existing|
      invariant 0 <= j <= |existing|
      invariant agrees == EntriesAgree(existing[..j], gi, residues)
    {
      assert existing[..j + 1][..j] == existing[..j];
      var er := existing[j];
      if er.gi == gi && Upper(er.residues) != Upper(residues) {
        agrees := false;
      }
      j := j + 1;
    }
    assert existing[..j] == existing;
  }

  /** The loop `for a in db_aln` that clears `aln_match` on a case-insensitive difference. */
  method AlignmentMatches(dbAln: seq<AlnRow>, existing: seq<Entry>, giOf: map<int, int>) returns (alnMatch: bool)
    ensures alnMatch == AlnAgrees(dbAln, existing, giOf)
  {
    alnMatch := true;
    var k := 0;
    while k < |dbAln|
      invariant 0 <= k <= |dbAln|
      invariant alnMatch == AlnAgrees(dbAln[..k], existing, giOf)
    {
      assert dbAln[..k + 1][..k] == dbAln[..k];
      var a := dbAln[k];
      if a.recId in giOf {
        var rowAgrees := RowAgrees(existing, giOf[a.recId], a.residues);
        alnMatch := alnMatch && rowAgrees;
      }
      k := k + 1;
    }
    assert dbAln[..k] == dbAln;
  }

  /** The detection block as the source runs it: loops over the records and the files. */
  method DetectChanges(db: Db, flat: FlatRec, working: seq<RawRec>, files: Files)
    returns (r: Result<Detection, DetectError>)
    ensures r == DetectSpec(db, flat, working, files)
  {
    var parentRecIds := db.Parents(flat.id);

    var recIdsInDb: set<int> := {};
    var i := 0;
    while i < |working|
      invariant 0 <= i <= |working|
      invariant recIdsInDb == Ids(working[..i])
    {
      assert working[..i + 1] == working[..i] + [working[i]];
      recIdsInDb := recIdsInDb + {working[i].id};
      i := i + 1;
    }
    assert working[..i] == working;

    var seqFileExists := files.seqFile.Some?;
    var alnFileExists := files.alnFile.Some?;
    var redoAln := !seqFileExists && !alnFileExists;
    var existing: seq<Entry> := [];
    if seqFileExists {
      existing := files.seqFile.value;
    } else if alnFileExists {
      existing := files.alnFile.value;
    }

    var resolved := ResolveFileGis(existing, db.GiIndex());
    if resolved.Err? {
      return Err(resolved.error);
    }
    var (recIdsInFile, recIdGiDict) := resolved.value;

    var deletedRecIds: set<int> := {};
    if seqFileExists || alnFileExists {
      if recIdsInFile != parentRecIds {
        deletedRecIds := (recIdsInFile - parentRecIds) + (parentRecIds - recIdsInFile);
      }
    }
    var newRecIds: set<int> := {};
    if recIdsInDb != parentRecIds {
      newRecIds := recIdsInDb - parentRecIds;
    }

    var dbAln := StoredAlignment(db, flat.id);
    var alnMatch := true;
    var seqMatch := true;
    if (seqFileExists || alnFileExists) && existing != [] {
      if dbAln != [] {
        alnMatch := AlignmentMatches(dbAln, existing, recIdGiDict);
      } else if Upper(existing[0].residues) != Upper(flat.residues) {
        seqMatch := false;
      }
    }

    r := Ok(Detection(seqFileExists, alnFileExists, redoAln, existing, parentRecIds, recIdsInFile,
                      deletedRecIds, newRecIds, alnMatch, seqMatch));
  }

  /** A prefix ending in the first unresolved gi already reports it. */
  lemma FirstUnresolvedPrefix(existing: seq<Entry>, byGi: map<int, int>, n: nat)
    requires 0 < n <= |existing|
    requires FirstUnresolved(existing[..n - 1], byGi).None? && existing[n - 1].gi !in byGi
    ensures FirstUnresolved(existing, byGi) == Some(existing[n - 1].gi)
    decreases |existing|
  {
    assert existing[..n][..n - 1] == existing[..n - 1];
    if n < |existing| {
      assert existing[..|existing| - 1][..n - 1] == existing[..n - 1];
      FirstUnresolvedPrefix(existing[..|existing| - 1], byGi, n);
    }
  }
}
