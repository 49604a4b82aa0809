/**
 * One locus of the flatten step (workflows/phylo.py): the raw and the flat
 * records of the locus are grouped by organism, and every organism with raw
 * records is treated in turn. The store and the command set one organism
 * leaves behind are what the next one starts from; the store is saved after
 * every organism and once more after the loop.
 */
module Locus {
  import opened Util
  import opened Text
  import opened Store
  import opened Detect
  import opened Flatten
  import opened Grouping

  /** What the loop over the organisms carries from one organism to the next. */
  datatype LocusState = LocusState(db: Db, commands: set<String>)

  /** `record.annotations['kr_seq_db_org_id']` of a raw record. */
  function OrgOf(r: RawRec): int {
    r.org
  }

  /** `record_flat.annotations['kr_seq_db_org_id']` of a flat record. */
  function FlatOrgOf(f: FlatRec): int {
    f.org
  }

  /** The records a grouping holds for organism `o`; none for an organism it does not list. */
  function Members<T>(groups: map<int, seq<T>>, o: int): seq<T> {
    if o in groups then groups[o] else []
  }

  /**
   * The loop over the organisms, visited in `order`, as a left fold; the first
   * crash ends the loop.
   */
  function FlattenOrganisms(db: Db, order: seq<int>, raw: map<int, seq<RawRec>>, flat: map<int, seq<FlatRec>>,
                            files: int -> Files, randomIds: int -> String, sv: Services, cmds: set<String>,
                            locus: String): Result<LocusState, FlattenError>
    decreases |order|
  {
    if order == [] then Ok(LocusState(db, cmds))
    else
      match FlattenOrganisms(db, order[..|order| - 1], raw, flat, files, randomIds, sv, cmds, locus)
      case Err(e) => Err(e)
      case Ok(st) =>
        var o := order[|order| - 1];
        match FlattenOrganism(st.db, o, Members(flat, o), Members(raw, o), files(o), sv, st.commands,
                              locus, randomIds(o))
        case Err(e) => Err(e)
        case Ok(out) => Ok(LocusState(out.db, out.commands))
  }

  /** The flatten step for one locus, from its raw and its flat records. */
  function FlattenLocus(db: Db, records: seq<RawRec>, flats: seq<FlatRec>, order: seq<int>,
                        files: int -> Files, randomIds: int -> String, sv: Services, cmds: set<String>,
                        locus: String): Result<LocusState, FlattenError>
  {
    FlattenOrganisms(db, order, GroupOf(records, OrgOf), GroupOf(flats, FlatOrgOf), files, randomIds, sv, cmds, locus)
  }

  /** A crash at organism `k` is the crash of the whole loop. */
  lemma {:induction false} FlattenOrganismsErrorPropagates(db: Db, order: seq<int>, raw: map<int, seq<RawRec>>,
                                                          flat: map<int, seq<FlatRec>>, files: int -> Files,
                                                          randomIds: int -> String, sv: Services,
                                                          cmds: set<String>, locus: String, k: nat,
                                                          e: FlattenError)
    requires 0 < k <= |order|
    requires FlattenOrganisms(db, order[..k], raw, flat, files, randomIds, sv, cmds, locus) == Err(e)
    ensures FlattenOrganisms(db, order, raw, flat, files, randomIds, sv, cmds, locus) == Err(e)
    decreases |order|
  {
    if k < |order| {
      assert order[..|order| - 1][..k] == order[..k];
      FlattenOrganismsErrorPropagates(db, order[..|order| - 1], raw, flat, files, randomIds, sv, cmds, locus, k, e);
    } else {
      assert order[..k] == order;
    }
  }

  /**
   * Over a whole locus, `align` and `concatenate` are still the only commands
   * that can disappear, and no command is added.
   */
  lemma {:induction false} LocusCommandsOnlyGated(db: Db, order: seq<int>, raw: map<int, seq<RawRec>>,
                                                  flat: map<int, seq<FlatRec>>, files: int -> Files,
                                                  randomIds: int -> String, sv: Services, cmds: set<String>,
                                                  locus: String)
    requires FlattenOrganisms(db, order, raw, flat, files, randomIds, sv, cmds, locus).Ok?
    ensures var st := FlattenOrganisms(db, order, raw, flat, files, randomIds, sv, cmds, locus).value;
      st.commands <= cmds &&
      forall c :: c != "align" && c != "concatenate" ==> (c in st.commands <==> c in cmds)
    decreases |order|
  {
    if order != [] {
      var init := order[..|order| - 1];
      LocusCommandsOnlyGated(db, init, raw, flat, files, randomIds, sv, cmds, locus);
      var st := FlattenOrganisms(db, init, raw, flat, files, randomIds, sv, cmds, locus).value;
      var o := order[|order| - 1];
      CommandsOnlyGated(st.db, o, Members(flat, o), Members(raw, o), files(o), sv, st.commands, locus, randomIds(o));
    }
  }

  /** The records of one organism keep the distinct ids of all the records. */
  lemma {:induction false} WithKeyDistinct(records: seq<RawRec>, o: int)
    requires DistinctIds(records)
    ensures DistinctIds(WithKey(records, OrgOf, o))
    decreases |records|
  {
    if records != [] {
      var rest := records[1..];
      assert DistinctIds(rest) by {
        forall i, j | 0 <= i < j < |rest| ensures rest[i].id != rest[j].id {
          assert rest[i] == records[i + 1] && rest[j] == records[j + 1];
        }
      }
      WithKeyDistinct(rest, o);
      var tail := WithKey(rest, OrgOf, o);
      forall x | x in tail ensures x.id != records[0].id {
        var j :| 0 <= j < |rest| && rest[j] == x;
        assert records[j + 1] == x;
      }
    }
  }

  lemma GroupDistinct(records: seq<RawRec>, o: int)
    requires DistinctIds(records)
    ensures DistinctIds(Members(GroupOf(records, OrgOf), o))
  {
    GroupContents(records, OrgOf);
    WithKeyDistinct(records, o);
  }

  /**
   * The loop over the organisms of a locus on the store (`for i, org_id in
   * enumerate(org_locus_dict.keys())`), with `order` the order in which the
   * dictionary yields its keys, followed by the `DB.save()` after the loop.
   * After a crash the saved state is the one the last finished organism saved.
   */
  method FlattenLocusOn(store: RecordStore, records: seq<RawRec>, flats: seq<FlatRec>, order: seq<int>,
                        files: int -> Files, randomIds: int -> String, sv: Services, cmds: set<String>,
                        locus: String)
    returns (r: Result<LocusState, FlattenError>)
    requires DistinctIds(records)
    requires Distinct(order) && (set o | o in order) == (set x | x in records :: x.org)
    modifies store
    ensures r == FlattenLocus(old(store.State()), records, flats, order, files, randomIds, sv, cmds, locus)
    ensures r.Ok? ==> store.State() == r.value.db && store.saved == store.State()
    ensures r.Err? ==>
      exists k :: 0 <= k < |order| &&
        FlattenOrganisms(old(store.State()), order[..k], GroupOf(records, OrgOf), GroupOf(flats, FlatOrgOf),
                         files, randomIds, sv, cmds, locus).Ok? &&
        store.saved == (if k == 0 then old(store.saved)
                        else FlattenOrganisms(old(store.State()), order[..k], GroupOf(records, OrgOf),
                                              GroupOf(flats, FlatOrgOf), files, randomIds, sv, cmds, locus).value.db)
  {
    var raw := GroupByOrganism(records, OrgOf);
    var flat := GroupByOrganism(flats, FlatOrgOf);
    var st := LocusState(store.State(), cmds);
    var i := 0;
    while i < |order|
      invariant 0 <= i <= |order|
      invariant FlattenOrganisms(old(store.State()), order[..i], raw, flat, files, randomIds, sv, cmds, locus) == Ok(st)
      invariant store.State() == st.db
      invariant store.saved == if i == 0 then old(store.saved) else st.db
    {
      assert order[..i + 1][..i] == order[..i];
      var o := order[i];
      GroupDistinct(records, o);
      var out := FlattenOrganismOn(store, o, Members(flat, o), Members(raw, o), files(o), sv, st.commands,
                                   locus, randomIds(o));
      if out.Err? {
        FlattenOrganismsErrorPropagates(old(store.State()), order, raw, flat, files, randomIds, sv, cmds, locus,
                                        i + 1, out.error);
        return Err(out.error);
      }
      st := LocusState(out.value.db, out.value.commands);
      i := i + 1;
    }
    assert order[..i] == order;
    store.Save();
    r := Ok(st);
  }
}
