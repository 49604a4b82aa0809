/**
 * The inter-taxon steps of workflows/phylo.py that follow flattening: the label
 * each flat record is given before alignment, the outgroup detection on the
 * concatenated alignment, the locus presence/absence matrix and the two
 * partition files.
 */
module Supermatrix {
  import opened Util
  import opened Text
  import opened Lineage

  // ---------------------------------------------------------------------------
  // Taxon labels
  // ---------------------------------------------------------------------------

  /** The suffix that marks a label as an outgroup taxon. */
  const OUTGROUP_MARK: String := "||OUTGROUP"

  /** The exceptions building a label can raise. */
  datatype LabelError = LineageFailed(cause: LineageError) | MissingTaxId | MissingName(rank: String)

  /** `organism.replace(' ', '_')`. */
  function Binomial(organism: String): (r: String)
    ensures r == MapChar(organism, ' ', '_')
  {
    ReplaceChar(organism, ' ', '_');
    Replace(organism, " ", "_")
  }

  /** `common_name.replace(', ', '|').replace(' ', '_').replace('\'', '')`. */
  function CommonLabel(common: String): (r: String)
    ensures ' ' !in r && '\'' !in r
    ensures forall ch :: ch in r ==> ch in common || ch == '|' || ch == '_'
  {
    var bars := Replace(common, ", ", "|");
    var underscores := Replace(bars, " ", "_");
    ReplaceChar(bars, ' ', '_');
    assert forall ch :: ch in underscores ==> ch != ' ' && (ch in common || ch == '|' || ch == '_') by {
      forall ch | ch in underscores ensures ch != ' ' && (ch in common || ch == '|' || ch == '_') {
        var k :| 0 <= k < |underscores| && underscores[k] == ch;
        if bars[k] != ' ' {
          assert bars[k] in bars;
          ReplaceChars(common, ", ", "|", ch);
        }
      }
    }
    ReplaceDeletes(underscores, '\'');
    var r := Replace(underscores, "'", "");
    forall ch | ch in r ensures ch in underscores {
      ReplaceChars(underscores, "'", "", ch);
    }
    r
  }

  /** `[x['taxid'] for x in lineage_parsed]`, a `KeyError` if some entry has no `taxid`. */
  function LineageTaxIds(parsed: seq<map<String, String>>): (r: Result<seq<String>, LabelError>)
    ensures r.Ok? <==> forall i :: 0 <= i < |parsed| ==> "taxid" in parsed[i]
    ensures r.Ok? ==> |r.value| == |parsed| && forall i :: 0 <= i < |parsed| ==> r.value[i] == parsed[i]["taxid"]
  {
    if forall i :: 0 <= i < |parsed| ==> "taxid" in parsed[i]
    then Ok(seq(|parsed|, i requires 0 <= i < |parsed| => parsed[i]["taxid"]))
    else Err(MissingTaxId)
  }

  /** Some tax id of the organism or its lineage, written out, is among the outgroup ids. */
  predicate HasOutgroupTaxon(taxIds: seq<String>, outIds: set<String>) {
    exists i :: 0 <= i < |taxIds| && taxIds[i] in outIds
  }

  /** The organism's own tax ids as `str` writes them. */
  function TaxIdStrings(ids: seq<nat>): (r: seq<String>)
    ensures |r| == |ids| && forall i :: 0 <= i < |ids| ==> r[i] == NatToString(ids[i])
  {
    seq(|ids|, i requires 0 <= i < |ids| => NatToString(ids[i]))
  }

  /**
   * The name of the first lineage entry whose rank is `rank`, or `rank` itself
   * when there is none; a `KeyError` if that entry has no `name`.
   */
  function RankName(parsed: seq<map<String, String>>, rank: String): Result<String, LabelError>
    decreases |parsed|
  {
    if parsed == [] then Ok(rank)
    else if "rank" in parsed[0] && parsed[0]["rank"] == rank then
      (if "name" in parsed[0] then Ok(parsed[0]["name"]) else Err(MissingName(rank)))
    else RankName(parsed[1..], rank)
  }

  /** One configured name term. */
  function NameTerm(term: String, binomial: String, common: String, parsed: seq<map<String, String>>)
    : Result<String, LabelError>
  {
    if term == "scientific" then Ok(binomial)
    else if term == "common" then Ok(common)
    else RankName(parsed, term)
  }

  /** The loop over the configured name terms, as a left fold. */
  function NameTerms(terms: seq<String>, binomial: String, common: String, parsed: seq<map<String, String>>)
    : Result<seq<String>, LabelError>
    decreases |terms|
  {
    if terms == [] then Ok([])
    else
      match NameTerms(terms[..|terms| - 1], binomial, common, parsed)
      case Err(e) => Err(e)
      case Ok(acc) =>
        match NameTerm(terms[|terms| - 1], binomial, common, parsed)
        case Err(e) => Err(e)
        case Ok(t) => Ok(acc + [t])
  }

  /** The terms joined by `||`, with the outgroup mark when it applies. */
  function Label(names: seq<String>, outgroup: bool): String {
    Join(names, "||") + (if outgroup then OUTGROUP_MARK else "")
  }

  /** The new id of a flat record before the inter-taxon alignment. */
  function TaxonLabel(organism: String, common: String, lineage: String, orgTaxIds: seq<nat>,
                      outIds: set<String>, terms: seq<String>): Result<String, LabelError>
  {
    match ParseAll(Split(lineage, ","))
    case Err(e) => Err(LineageFailed(e))
    case Ok(l) =>
      match LineageTaxIds(l.fullList)
      case Err(e) => Err(e)
      case Ok(lineageIds) =>
        var outgroup := HasOutgroupTaxon(TaxIdStrings(orgTaxIds) + lineageIds, outIds);
        match NameTerms(terms, Binomial(organism), CommonLabel(common), l.fullList)
        case Err(e) => Err(e)
        case Ok(names) => Ok(Label(names, outgroup))
  }

  /** `lineage_taxids = [x['taxid'] for x in lineage_parsed]`. */
  method CollectTaxIds(parsed: seq<map<String, String>>) returns (r: Result<seq<String>, LabelError>)
    ensures r == LineageTaxIds(parsed)
  {
    var ids: seq<String> := [];
    var i := 0;
    while i < |parsed|
      invariant 0 <= i <= |parsed|
      invariant |ids| == i && forall k :: 0 <= k < i ==> "taxid" in parsed[k] && ids[k] == parsed[k]["taxid"]
    {
      if "taxid" !in parsed[i] {
        return Err(MissingTaxId);
      }
      ids := ids + [parsed[i]["taxid"]];
      i := i + 1;
    }
    assert LineageTaxIds(parsed).value == ids;
    r := Ok(ids);
  }

  /** The loop that sets `outgroup = '||OUTGROUP'`. */
  method FindOutgroup(taxIds: seq<String>, outIds: set<String>) returns (outgroup: bool)
    ensures outgroup == HasOutgroupTaxon(taxIds, outIds)
  {
    outgroup := false;
    var i := 0;
    while i < |taxIds|
      invariant 0 <= i <= |taxIds|
      invariant outgroup == exists k :: 0 <= k < i && taxIds[k] in outIds
    {
      if taxIds[i] in outIds {
        outgroup := true;
      }
      i := i + 1;
    }
  }

  /** The inner loop over the lineage entries that stops at the first one of the rank. */
  method FindRankName(parsed: seq<map<String, String>>, rank: String) returns (r: Result<String, LabelError>)
    ensures r == RankName(parsed, rank)
  {
    var i := 0;
    while i < |parsed|
      invariant 0 <= i <= |parsed|
      invariant RankName(parsed, rank) == RankName(parsed[i..], rank)
    {
      var lp := parsed[i];
      if "rank" in lp && lp["rank"] == rank {
        if "name" !in lp {
          return Err(MissingName(rank));
        }
        return Ok(lp["name"]);
      }
      assert parsed[i..][1..] == parsed[i + 1..];
      i := i + 1;
    }
    r := Ok(rank);
  }

  /** The loop that fills `name_terms`. */
  method CollectNameTerms(terms: seq<String>, binomial: String, common: String, parsed: seq<map<String, String>>)
    returns (r: Result<seq<String>, LabelError>)
    ensures r == NameTerms(terms, binomial, common, parsed)
  {
    var names: seq<String> := [];
    var i := 0;
    while i < |terms|
      invariant 0 <= i <= |terms|
      invariant NameTerms(terms[..i], binomial, common, parsed) == Ok(names)
    {
      assert terms[..i + 1][..i] == terms[..i];
      var term := terms[i];
      var nameTerm := term;
      if term == "scientific" {
        nameTerm := binomial;
      } else if term == "common" {
        nameTerm := common;
      } else {
        var found := FindRankName(parsed, term);
        if found.Err? {
          NameTermsErrorPropagates(terms, binomial, common, parsed, i + 1, found.error);
          return Err(found.error);
        }
        nameTerm := found.value;
      }
      names := names + [nameTerm];
      i := i + 1;
    }
    assert terms[..i] == terms;
    r := Ok(names);
  }

  lemma {:induction false} NameTermsErrorPropagates(terms: seq<String>, binomial: String, common: String,
                                                    parsed: seq<map<String, String>>, k: nat, e: LabelError)
    requires 0 < k <= |terms|
    requires NameTerms(terms[..k], binomial, common, parsed) == Err(e)
    ensures NameTerms(terms, binomial, common, parsed) == Err(e)
    decreases |terms|
  {
    if k < |terms| {
      assert terms[..|terms| - 1][..k] == terms[..k];
      NameTermsErrorPropagates(terms[..|terms| - 1], binomial, common, parsed, k, e);
    } else {
      assert terms[..k] == terms;
    }
  }

  /** The relabelling of one flat record (lines 1483-1521). */
  method LabelFlatRecord(organism: String, common: String, lineage: String, orgTaxIds: seq<nat>,
                         outIds: set<String>, terms: seq<String>) returns (r: Result<String, LabelError>)
    ensures r == TaxonLabel(organism, common, lineage, orgTaxIds, outIds, terms)
  {
    var binomial := Binomial(organism);
    var commonLabel := CommonLabel(common);
    var parsedAll := ParseLineageStringList(Split(lineage, ","));
    if parsedAll.Err? {
      return Err(LineageFailed(parsedAll.error));
    }
    var parsed := parsedAll.value.fullList;
    var lineageIds := CollectTaxIds(parsed);
    if lineageIds.Err? {
      return Err(lineageIds.error);
    }
    var orgIds := TaxIdStrings(orgTaxIds);
    var outgroup := FindOutgroup(orgIds + lineageIds.value, outIds);
    var names := CollectNameTerms(terms, binomial, commonLabel, parsed);
    if names.Err? {
      return Err(names.error);
    }
    r := Ok(Join(names.value, "||") + (if outgroup then OUTGROUP_MARK else ""));
  }

  /** The annotations of a flat record that its label is built from. */
  datatype FlatAnnotations = FlatAnnotations(organism: String, common: String, lineage: String, orgTaxIds: seq<nat>)

  function RecordLabel(a: FlatAnnotations, outIds: set<String>, terms: seq<String>): Result<String, LabelError> {
    TaxonLabel(a.organism, a.common, a.lineage, a.orgTaxIds, outIds, terms)
  }

  /** The loop `for r in records_flat`: the first failing record ends it. */
  function TaxonLabels(recs: seq<FlatAnnotations>, outIds: set<String>, terms: seq<String>)
    : Result<seq<String>, LabelError>
  {
    MapResults(recs, a => RecordLabel(a, outIds, terms))
  }

  /** The relabelling of every flat record of a locus (lines 1483-1525). */
  method LabelFlatRecords(recs: seq<FlatAnnotations>, outIds: set<String>, terms: seq<String>)
    returns (r: Result<seq<String>, LabelError>)
    ensures r == TaxonLabels(recs, outIds, terms)
  {
    var labels: seq<String> := [];
    var i := 0;
    while i < |recs|
      invariant 0 <= i <= |recs|
      invariant TaxonLabels(recs[..i], outIds, terms) == Ok(labels)
    {
      assert recs[..i + 1][..i] == recs[..i];
      var a := recs[i];
      var lbl := LabelFlatRecord(a.organism, a.common, a.lineage, a.orgTaxIds, outIds, terms);
      if lbl.Err? {
        MapResultsErrorPropagates(recs, a => RecordLabel(a, outIds, terms), i + 1, lbl.error);
        return Err(lbl.error);
      }
      labels := labels + [lbl.value];
      i := i + 1;
    }
    assert recs[..i] == recs;
    r := Ok(labels);
  }

  /**
   * The relabelling succeeds exactly when every record's label can be built,
   * and then gives each record its own label, in order.
   */
  lemma OneLabelPerRecord(recs: seq<FlatAnnotations>, outIds: set<String>, terms: seq<String>)
    ensures TaxonLabels(recs, outIds, terms).Ok? <==>
      forall i :: 0 <= i < |recs| ==> RecordLabel(recs[i], outIds, terms).Ok?
    ensures TaxonLabels(recs, outIds, terms).Ok? ==>
      |TaxonLabels(recs, outIds, terms).value| == |recs| &&
      forall i :: 0 <= i < |recs| ==> TaxonLabels(recs, outIds, terms).value[i] == RecordLabel(recs[i], outIds, terms).value
  {
    MapResultsOk(recs, a => RecordLabel(a, outIds, terms));
  }

  /** Every configured term yields exactly one name, in order, as long as no lookup fails. */
  lemma {:induction false} NameTermsOnePerTerm(terms: seq<String>, binomial: String, common: String,
                                               parsed: seq<map<String, String>>)
    requires NameTerms(terms, binomial, common, parsed).Ok?
    ensures var names := NameTerms(terms, binomial, common, parsed).value;
      |names| == |terms| &&
      forall i :: 0 <= i < |terms| ==> NameTerm(terms[i], binomial, common, parsed) == Ok(names[i])
    decreases |terms|
  {
    if terms != [] {
      var init := terms[..|terms| - 1];
      NameTermsOnePerTerm(init, binomial, common, parsed);
      forall i | 0 <= i < |init| ensures init[i] == terms[i] { }
    }
  }

  /**
   * A rank lookup that succeeds yields the name of the first entry of that
   * rank, or the rank itself exactly when no entry has it.
   */
  lemma {:induction false} RankNameFirst(parsed: seq<map<String, String>>, rank: String)
    ensures var r := RankName(parsed, rank);
      (r == Ok(rank) && forall i :: 0 <= i < |parsed| ==> !("rank" in parsed[i] && parsed[i]["rank"] == rank)) ||
      (exists i :: 0 <= i < |parsed| && "rank" in parsed[i] && parsed[i]["rank"] == rank &&
         (forall k :: 0 <= k < i ==> !("rank" in parsed[k] && parsed[k]["rank"] == rank)) &&
         r == (if "name" in parsed[i] then Ok(parsed[i]["name"]) else Err(MissingName(rank))))
    decreases |parsed|
  {
    if parsed != [] && !("rank" in parsed[0] && parsed[0]["rank"] == rank) {
      RankNameFirst(parsed[1..], rank);
      var r := RankName(parsed, rank);
      if exists i :: 0 <= i < |parsed[1..]| && "rank" in parsed[1..][i] && parsed[1..][i]["rank"] == rank &&
           (forall k :: 0 <= k < i ==> !("rank" in parsed[1..][k] && parsed[1..][k]["rank"] == rank)) &&
           r == (if "name" in parsed[1..][i] then Ok(parsed[1..][i]["name"]) else Err(MissingName(rank))) {
        var i :| 0 <= i < |parsed[1..]| && "rank" in parsed[1..][i] && parsed[1..][i]["rank"] == rank &&
                 (forall k :: 0 <= k < i ==> !("rank" in parsed[1..][k] && parsed[1..][k]["rank"] == rank)) &&
                 r == (if "name" in parsed[1..][i] then Ok(parsed[1..][i]["name"]) else Err(MissingName(rank)));
        assert parsed[i + 1] == parsed[1..][i];
        forall k | 0 <= k < i + 1 ensures !("rank" in parsed[k] && parsed[k]["rank"] == rank) {
          if k > 0 {
            assert parsed[k] == parsed[1..][k - 1];
          }
        }
      } else {
        forall i | 0 <= i < |parsed| ensures !("rank" in parsed[i] && parsed[i]["rank"] == rank) {
          if i > 0 {
            assert parsed[i] == parsed[1..][i - 1];
          }
        }
      }
    }
  }

  // ---------------------------------------------------------------------------
  // Outgroup detection
  // ---------------------------------------------------------------------------

  /** `a.id.split('||')[-1] == 'OUTGROUP'`. */
  predicate IsOutgroupLabel(id: String) {
    var pieces := Split(id, "||");
    pieces[|pieces| - 1] == "OUTGROUP"
  }

  /**
   * When the joined terms neither end in `|` nor end with `OUTGROUP`, the
   * detection on the concatenated alignment finds exactly the taxa that were
   * marked when their labels were built.
   */
  lemma OutgroupDetectedIff(names: seq<String>, outgroup: bool)
    requires var j := Join(names, "||"); (j == [] || j[|j| - 1] != '|') && !EndsWith(j, "OUTGROUP")
    ensures IsOutgroupLabel(Label(names, outgroup)) <==> outgroup
  {
    var j := Join(names, "||");
    if outgroup {
      assert Label(names, outgroup) == j + "||" + "OUTGROUP" by {
        assert OUTGROUP_MARK == "||" + "OUTGROUP";
      }
      assert '|' !in "OUTGROUP";
      SplitLastAfterBars(j, "OUTGROUP");
    } else {
      assert Label(names, outgroup) == j;
      SplitLastIsSuffix(j, "||");
    }
  }

  /**
   * A last term ending in `|` hides the mark: the split on `||` takes the
   * term's `|` together with the first `|` of the mark. With `a` = "s" and
   * `x` = "x" the label is "s||x|||OUTGROUP", whose last piece is "|OUTGROUP".
   */
  lemma OutgroupMarkHidden(a: String, x: String)
    requires '|' !in a && '|' !in x
    ensures Label([a, x + "|"], true) == a + "||" + (x + "||" + ("|" + "OUTGROUP"))
    ensures !IsOutgroupLabel(Label([a, x + "|"], true))
  {
    var tail: String := "|" + "OUTGROUP";
    assert Label([a, x + "|"], true) == a + "||" + (x + "||" + tail) by {
      assert [a, x + "|"][1..] == [x + "|"];
      assert Join([a, x + "|"], "||") == a + "||" + (x + "|");
      assert OUTGROUP_MARK == "|" + tail;
    }
    assert Split(a + "||" + (x + "||" + tail), "||") == [a, x, tail] by {
      SplitAfterPlain(a, x + "||" + tail);
      SplitAfterPlain(x, tail);
      assert '|' !in "OUTGROUP";
      SplitBarThenPlain("OUTGROUP");
    }
  }

  /** The loop that collects `outgroup_taxa`. */
  method OutgroupTaxa(ids: seq<String>) returns (out: seq<String>)
    ensures out == Filter(ids, IsOutgroupLabel)
  {
    out := [];
    var i := 0;
    while i < |ids|
      invariant 0 <= i <= |ids|
      invariant out == Filter(ids[..i], IsOutgroupLabel)
    {
      assert ids[..i + 1] == ids[..i] + [ids[i]];
      FilterSnoc(ids[..i], ids[i], IsOutgroupLabel);
      if IsOutgroupLabel(ids[i]) {
        out := out + [ids[i]];
      }
      i := i + 1;
    }
    assert ids[..i] == ids;
  }

  // ---------------------------------------------------------------------------
  // Presence/absence matrix
  // ---------------------------------------------------------------------------

  /** `name_list.index(name)`: the first position of `x`. */
  function IndexOf(names: seq<String>, x: String): (r: nat)
    requires x in names
    ensures r < |names| && names[r] == x && forall k :: 0 <= k < r ==> names[k] != x
  {
    if names[0] == x then 0 else 1 + IndexOf(names[1..], x)
  }

  /** Every id some alignment of `alns` holds: the keys the first loop gives `matrix`. */
  function AllTaxa(alns: seq<seq<String>>): set<String>
    decreases |alns|
  {
    if alns == [] then {}
    else
      var last := alns[|alns| - 1];
      AllTaxa(alns[..|alns| - 1]) + set t | t in last
  }

  /** A taxon gets a row exactly when some locus alignment holds it. */
  lemma {:induction false} AllTaxaIff(alns: seq<seq<String>>, t: String)
    ensures t in AllTaxa(alns) <==> exists a :: 0 <= a < |alns| && t in alns[a]
    decreases |alns|
  {
    if alns != [] {
      var init := alns[..|alns| - 1];
      AllTaxaIff(init, t);
      if exists a :: 0 <= a < |init| && t in init[a] {
        var a :| 0 <= a < |init| && t in init[a];
        assert alns[a] == init[a];
      }
      if exists a :: 0 <= a < |alns| && t in alns[a] {
        var a :| 0 <= a < |alns| && t in alns[a];
        if a < |init| {
          assert init[a] == alns[a];
        }
      }
    }
  }

  /** Cell `j` of taxon `t` has been set by one of the first `n` alignments. */
  predicate MarkedBefore(names: seq<String>, alns: seq<seq<String>>, n: nat, t: String, j: int)
    requires |alns| == |names| && n <= |alns|
  {
    exists a :: 0 <= a < n && t in alns[a] && IndexOf(names, names[a]) == j
  }

  /** The row of `t` once the first `n` alignments have been marked. */
  function RowAfter(names: seq<String>, alns: seq<seq<String>>, n: nat, t: String): (r: seq<String>)
    requires |alns| == |names| && n <= |alns|
    ensures |r| == |names|
  {
    seq(|names|, j requires 0 <= j < |names| => if MarkedBefore(names, alns, n, t, j) then "1" else "0")
  }

  /** The matrix the two loops build: one row per taxon, one cell per locus. */
  function Presence(names: seq<String>, alns: seq<seq<String>>): map<String, seq<String>>
    requires |alns| == |names|
  {
    map t | t in AllTaxa(alns) :: RowAfter(names, alns, |alns|, t)
  }

  /** `if not s.id in matrix: matrix[s.id] = copy.copy(presence_list)` over one alignment. */
  method AddRows(m: map<String, seq<String>>, ids: seq<String>, row: seq<String>)
    returns (r: map<String, seq<String>>)
    ensures r.Keys == m.Keys + set t | t in ids
    ensures forall k :: k in r ==> r[k] == if k in m then m[k] else row
  {
    r := m;
    var i := 0;
    while i < |ids|
      invariant 0 <= i <= |ids|
      invariant r.Keys == m.Keys + set t | t in ids[..i]
      invariant forall k :: k in r ==> r[k] == if k in m then m[k] else row
    {
      assert ids[..i + 1] == ids[..i] + [ids[i]];
      if ids[i] !in r {
        r := r[ids[i] := row];
      }
      i := i + 1;
    }
    assert ids[..i] == ids;
  }

  /** `matrix[s.id][idx] = '1'` over one alignment. */
  method MarkColumn(m: map<String, seq<String>>, ids: seq<String>, idx: nat)
    returns (r: map<String, seq<String>>)
    requires forall i :: 0 <= i < |ids| ==> ids[i] in m && idx < |m[ids[i]]|
    ensures r.Keys == m.Keys
    ensures forall k :: k in m ==> r[k] == if k in ids then m[k][idx := "1"] else m[k]
  {
    r := m;
    var i := 0;
    while i < |ids|
      invariant 0 <= i <= |ids|
      invariant r.Keys == m.Keys
      invariant forall k :: k in m ==> r[k] == if k in ids[..i] then m[k][idx := "1"] else m[k]
    {
      assert ids[..i + 1] == ids[..i] + [ids[i]];
      r := r[ids[i] := r[ids[i]][idx := "1"]];
      i := i + 1;
    }
    assert ids[..i] == ids;
  }

  lemma {:induction false} MarkedStep(names: seq<String>, alns: seq<seq<String>>, n: nat, t: String, j: int)
    requires |alns| == |names| && n < |alns|
    ensures MarkedBefore(names, alns, n + 1, t, j) <==>
      MarkedBefore(names, alns, n, t, j) || (t in alns[n] && IndexOf(names, names[n]) == j)
  {
    if MarkedBefore(names, alns, n + 1, t, j) {
      var a :| 0 <= a < n + 1 && t in alns[a] && IndexOf(names, names[a]) == j;
      if a < n {
        assert MarkedBefore(names, alns, n, t, j);
      }
    }
  }

  /** Marking the cells of alignment `n` turns the rows after `n` alignments into the rows after `n + 1`. */
  lemma RowStep(names: seq<String>, alns: seq<seq<String>>, n: nat, t: String)
    requires |alns| == |names| && n < |alns|
    ensures RowAfter(names, alns, n + 1, t) ==
      if t in alns[n] then RowAfter(names, alns, n, t)[IndexOf(names, names[n]) := "1"] else RowAfter(names, alns, n, t)
  {
    var row := RowAfter(names, alns, n, t);
    var next := if t in alns[n] then row[IndexOf(names, names[n]) := "1"] else row;
    forall j | 0 <= j < |names| ensures RowAfter(names, alns, n + 1, t)[j] == next[j] {
      MarkedStep(names, alns, n, t, j);
    }
  }

  /** The presence/absence matrix of the concatenation step (lines 1569-1582). */
  method PresenceMatrix(names: seq<String>, alns: seq<seq<String>>) returns (matrix: map<String, seq<String>>)
    requires |alns| == |names|
    ensures matrix == Presence(names, alns)
  {
    var presence: seq<String> := [];
    var p := 0;
    while p < |alns|
      invariant 0 <= p <= |alns| && |presence| == p
      invariant forall j :: 0 <= j < p ==> presence[j] == "0"
    {
      presence := presence + ["0"];
      p := p + 1;
    }
    matrix := map[];
    var a := 0;
    while a < |alns|
      invariant 0 <= a <= |alns|
      invariant matrix.Keys == AllTaxa(alns[..a])
      invariant forall t :: t in matrix ==> matrix[t] == presence
    {
      assert alns[..a + 1][..a] == alns[..a];
      matrix := AddRows(matrix, alns[a], presence);
      a := a + 1;
    }
    assert alns[..a] == alns;
    a := 0;
    while a < |alns|
      invariant 0 <= a <= |alns|
      invariant matrix.Keys == AllTaxa(alns)
      invariant forall t :: t in matrix ==> matrix[t] == RowAfter(names, alns, a, t)
    {
      forall t | t in alns[a] ensures t in matrix {
        AllTaxaIff(alns, t);
      }
      var idx := IndexOf(names, names[a]);
      ghost var before := matrix;
      matrix := MarkColumn(matrix, alns[a], idx);
      forall t | t in matrix ensures matrix[t] == RowAfter(names, alns, a + 1, t) {
        RowStep(names, alns, a, t);
      }
      a := a + 1;
    }
  }

  /** With distinct locus names, the index of a locus's name is its own position. */
  lemma IndexOfDistinct(names: seq<String>, a: nat)
    requires Distinct(names) && a < |names|
    ensures IndexOf(names, names[a]) == a
  {
  }

  /**
   * With the distinct locus names of a configuration, a cell is `'1'` exactly
   * when the taxon occurs in that locus's alignment, and every row has one
   * cell per locus.
   */
  lemma PresenceCellIff(names: seq<String>, alns: seq<seq<String>>, t: String, j: nat)
    requires |alns| == |names| && Distinct(names) && t in Presence(names, alns) && j < |names|
    ensures |Presence(names, alns)[t]| == |names|
    ensures Presence(names, alns)[t][j] == "1" <==> t in alns[j]
    ensures Presence(names, alns)[t][j] == "0" <==> t !in alns[j]
  {
    if MarkedBefore(names, alns, |alns|, t, j) {
      var a :| 0 <= a < |alns| && t in alns[a] && IndexOf(names, names[a]) == j;
      IndexOfDistinct(names, a);
    }
    if t in alns[j] {
      IndexOfDistinct(names, j);
    }
  }

  /** `row.count(x)`. */
  function CountOf(row: seq<String>, x: String): (r: nat)
    ensures r <= |row|
    decreases |row|
  {
    if row == [] then 0 else CountOf(row[..|row| - 1], x) + (if row[|row| - 1] == x then 1 else 0)
  }

  /** The count is the number of positions holding `x`. */
  lemma {:induction false} CountOfPositions(row: seq<String>, x: String)
    ensures CountOf(row, x) == |set j | 0 <= j < |row| && row[j] == x|
    decreases |row|
  {
    if row != [] {
      var n := |row| - 1;
      var init := row[..n];
      CountOfPositions(init, x);
      var before := set j | 0 <= j < n && init[j] == x;
      var after := set j | 0 <= j < |row| && row[j] == x;
      if row[n] == x {
        assert after == before + {n};
      } else {
        assert after == before;
      }
    }
  }

  /** The count column of a taxon is the number of loci whose alignment holds it. */
  lemma PresenceCount(names: seq<String>, alns: seq<seq<String>>, t: String)
    requires |alns| == |names| && Distinct(names) && t in Presence(names, alns)
    ensures CountOf(Presence(names, alns)[t], "1") == |set j | 0 <= j < |names| && t in alns[j]|
  {
    var row := Presence(names, alns)[t];
    CountOfPositions(row, "1");
    forall j | 0 <= j < |names| ensures row[j] == "1" <==> t in alns[j] {
      PresenceCellIff(names, alns, t, j);
    }
    assert (set j | 0 <= j < |row| && row[j] == "1") == set j | 0 <= j < |names| && t in alns[j];
  }

  /** The header line of `locus-presence.csv`. */
  function PresenceHeader(names: seq<String>): String {
    "taxon,count," + Join(names, ",") + "\n"
  }

  /** One line of `locus-presence.csv`. */
  function PresenceLine(t: String, row: seq<String>): String {
    t + "," + NatToString(CountOf(row, "1")) + "," + Join(row, ",") + "\n"
  }

  /** The lines of the rows, in the order the keys are visited, as a left fold. */
  function PresenceLines(matrix: map<String, seq<String>>, order: seq<String>): String
    requires forall i :: 0 <= i < |order| ==> order[i] in matrix
    decreases |order|
  {
    if order == [] then []
    else PresenceLines(matrix, order[..|order| - 1]) + PresenceLine(order[|order| - 1], matrix[order[|order| - 1]])
  }

  /**
   * The key order `for k in matrix.keys()` visits: every taxon of the matrix
   * comes exactly once, so the file has one line per taxon.
   */
  lemma OneLinePerTaxon(matrix: map<String, seq<String>>, order: seq<String>)
    requires Distinct(order) && (set k | k in order) == matrix.Keys
    ensures |order| == |matrix|
    ensures forall t :: t in matrix <==> exists i :: 0 <= i < |order| && order[i] == t
    ensures forall i, j :: 0 <= i < |order| && 0 <= j < |order| && order[i] == order[j] ==> i == j
  {
    DistinctCard(order);
    forall t | t in matrix ensures exists i :: 0 <= i < |order| && order[i] == t {
      assert t in (set k | k in order);
    }
  }

  /** `locus-presence.csv`, with `order` the order in which the dictionary yields its keys. */
  method WritePresence(names: seq<String>, matrix: map<String, seq<String>>, order: seq<String>)
    returns (content: String)
    requires Distinct(order) && (set k | k in order) == matrix.Keys
    ensures content == PresenceHeader(names) + PresenceLines(matrix, order)
  {
    content := "taxon" + "," + "count" + "," + Join(names, ",") + "\n";
    ghost var header := content;
    var i := 0;
    while i < |order|
      invariant 0 <= i <= |order|
      invariant content == header + PresenceLines(matrix, order[..i])
    {
      assert order[..i + 1][..i] == order[..i];
      var key := order[i];
      var line := key + "," + NatToString(CountOf(matrix[key], "1")) + "," + Join(matrix[key], ",") + "\n";
      assert line == PresenceLine(key, matrix[key]);
      content := content + line;
      i := i + 1;
    }
    assert order[..i] == order;
  }

  /** Two leading fields joined before the rest. */
  lemma JoinTwoThen(a: String, b: String, rest: seq<String>, sep: String)
    requires |rest| >= 1
    ensures Join([a, b] + rest, sep) == a + sep + b + sep + Join(rest, sep)
  {
    assert ([a, b] + rest)[1..] == [b] + rest;
    JoinCons(a, [b] + rest, sep);
    JoinCons(b, rest, sep);
  }

  lemma LineFieldsAvoidComma(t: String, count: String, row: seq<String>)
    requires ',' !in t && ',' !in count
    requires forall j :: 0 <= j < |row| ==> row[j] == "0" || row[j] == "1"
    ensures forall i :: 0 <= i < |[t, count] + row| ==> ","[0] !in ([t, count] + row)[i]
  {
    var fields := [t, count] + row;
    assert ',' !in "0" && ',' !in "1";
    forall i | 0 <= i < |fields| ensures ","[0] !in fields[i] {
      if i == 0 {
        assert fields[0] == t;
      } else if i == 1 {
        assert fields[1] == count;
      } else {
        assert fields[i] == row[i - 2];
      }
    }
  }

  /**
   * A taxon line read back as comma-separated fields gives the taxon, its
   * count and one cell per locus, provided the taxon id holds no comma.
   */
  lemma PresenceLineFields(t: String, row: seq<String>)
    requires ',' !in t && |row| >= 1
    requires forall j :: 0 <= j < |row| ==> row[j] == "0" || row[j] == "1"
    ensures var count := NatToString(CountOf(row, "1"));
      PresenceLine(t, row) == Join([t, count] + row, ",") + "\n" &&
      Split(Join([t, count] + row, ","), ",") == [t, count] + row &&
      DecimalValue(count) == CountOf(row, "1")
  {
    var count := NatToString(CountOf(row, "1"));
    assert Split(Join([t, count] + row, ","), ",") == [t, count] + row by {
      DigitsAvoid(CountOf(row, "1"), ',');
      LineFieldsAvoidComma(t, count, row);
      SplitJoinAvoiding([t, count] + row, ",");
    }
    assert PresenceLine(t, row) == Join([t, count] + row, ",") + "\n" by {
      JoinTwoThen(t, count, row, ",");
    }
    DecimalRoundTrip(CountOf(row, "1"));
  }

  // ---------------------------------------------------------------------------
  // Partition files
  // ---------------------------------------------------------------------------

  /** The start and end column of one locus in the concatenated alignment. */
  datatype Partition = Partition(start: nat, end: nat)

  /** `'DNA, ' + name + ' = ' + str(start) + '-' + str(end) + '\n'`. */
  function RaxmlLine(name: String, p: Partition): String {
    "DNA, " + name + " = " + NatToString(p.start) + "-" + NatToString(p.end) + "\n"
  }

  /** `name + ',' + str(start) + ',' + str(end) + '\n'`. */
  function PartitionLine(name: String, p: Partition): String {
    name + "," + NatToString(p.start) + "," + NatToString(p.end) + "\n"
  }

  datatype PartitionFiles = PartitionFiles(raxml: String, csv: String)

  /** `name_list[i]` past the end of the locus names. */
  datatype PartitionError = NoLocusName(index: nat)

  function RaxmlLines(names: seq<String>, parts: seq<Partition>): String
    requires |parts| <= |names|
    decreases |parts|
  {
    if parts == [] then []
    else RaxmlLines(names, parts[..|parts| - 1]) + RaxmlLine(names[|parts| - 1], parts[|parts| - 1])
  }

  function PartitionLines(names: seq<String>, parts: seq<Partition>): String
    requires |parts| <= |names|
    decreases |parts|
  {
    if parts == [] then []
    else PartitionLines(names, parts[..|parts| - 1]) + PartitionLine(names[|parts| - 1], parts[|parts| - 1])
  }

  /** The two partition files; more partitions than locus names raise an `IndexError`. */
  function Partitions(names: seq<String>, parts: seq<Partition>): Result<PartitionFiles, PartitionError> {
    if |parts| > |names| then Err(NoLocusName(|names|))
    else Ok(PartitionFiles(RaxmlLines(names, parts), "locus,start,end\n" + PartitionLines(names, parts)))
  }

  /** The loop writing both partition files (lines 1630-1635). */
  method WritePartitions(names: seq<String>, parts: seq<Partition>) returns (r: Result<PartitionFiles, PartitionError>)
    ensures r == Partitions(names, parts)
  {
    var raxml: String := [];
    var csv: String := "locus,start,end\n";
    var i := 0;
    while i < |parts|
      invariant 0 <= i <= |parts|
      invariant i <= |names|
      invariant raxml == RaxmlLines(names, parts[..i])
      invariant csv == "locus,start,end\n" + PartitionLines(names, parts[..i])
    {
      if i >= |names| {
        return Err(NoLocusName(i));
      }
      assert parts[..i + 1][..i] == parts[..i];
      var part := parts[i];
      raxml := raxml + ("DNA, " + names[i] + " = " + NatToString(part.start) + "-" + NatToString(part.end) + "\n");
      csv := csv + (names[i] + "," + NatToString(part.start) + "," + NatToString(part.end) + "\n");
      i := i + 1;
    }
    assert parts[..i] == parts;
    r := Ok(PartitionFiles(raxml, csv));
  }

  lemma DigitsAvoid(n: nat, c: char)
    requires c < '0' || c > '9'
    ensures c !in NatToString(n)
  {
    var s := NatToString(n);
    assert forall k :: 0 <= k < |s| ==> s[k] != c;
  }

  /** A CSV partition line reads back into the locus name and the two boundaries. */
  lemma PartitionLineRoundTrip(name: String, p: Partition)
    requires ',' !in name
    ensures var fields := [name, NatToString(p.start), NatToString(p.end)];
      PartitionLine(name, p) == Join(fields, ",") + "\n" &&
      Split(Join(fields, ","), ",") == fields &&
      DecimalValue(fields[1]) == p.start && DecimalValue(fields[2]) == p.end
  {
    var s, e := NatToString(p.start), NatToString(p.end);
    var fields := [name, s, e];
    DigitsAvoid(p.start, ',');
    DigitsAvoid(p.end, ',');
    SplitJoinAvoiding(fields, ",");
    JoinTwoThen(name, s, [e], ",");
    DecimalRoundTrip(p.start);
    DecimalRoundTrip(p.end);
  }

  /**
   * A RAxML partition line splits on `=` into the declaration of the name and
   * the range, and the range splits on `-` into the two boundaries, provided
   * the locus name holds no `=`.
   */
  lemma RaxmlLineRoundTrip(name: String, p: Partition)
    requires '=' !in name
    ensures var s, e := NatToString(p.start), NatToString(p.end);
      Split(RaxmlLine(name, p), "=") == ["DNA, " + name + " ", " " + s + "-" + e + "\n"] &&
      Split(s + "-" + e, "-") == [s, e] &&
      DecimalValue(s) == p.start && DecimalValue(e) == p.end
  {
    var s, e := NatToString(p.start), NatToString(p.end);
    var head := "DNA, " + name + " ";
    var range := " " + s + "-" + e + "\n";
    DigitsAvoid(p.start, '=');
    DigitsAvoid(p.end, '=');
    DigitsAvoid(p.start, '-');
    DigitsAvoid(p.end, '-');
    assert '=' !in head;
    assert '=' !in range;
    assert RaxmlLine(name, p) == head + "=" + range;
    SplitJoinAvoiding([head, range], "=");
    assert Join([head, range], "=") == head + "=" + range by {
      JoinCons(head, [range], "=");
    }
    SplitJoinAvoiding([s, e], "-");
    assert Join([s, e], "-") == s + "-" + e by {
      JoinCons(s, [e], "-");
    }
    DecimalRoundTrip(p.start);
    DecimalRoundTrip(p.end);
  }
}
