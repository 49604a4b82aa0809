/**
 * Lineage strings of krpy/krncbi.py. `get_lineages` turns each taxon of an NCBI
 * `LineageEx` list into an item `name=N;rank=R;taxid=T;`, and
 * `parse_lineage_string_list` reads a list of such strings back into one
 * dictionary per string plus the list of every `name` value met on the way.
 */
module Lineage {
  import opened Util
  import opened Text

  /** One entry of an NCBI `LineageEx` list. */
  datatype Taxon = Taxon(scientificName: String, rank: String, taxId: String)

  /** The item `get_lineages` builds for one taxon. */
  function LineageItem(t: Taxon): String {
    "name=" + t.scientificName + ";" + "rank=" + t.rank + ";" + "taxid=" + t.taxId + ";"
  }

  /** The loop of `get_lineages` that formats one record's lineage. */
  method FormatLineage(lineage: seq<Taxon>) returns (items: seq<String>)
    ensures |items| == |lineage|
    ensures forall i :: 0 <= i < |lineage| ==> items[i] == LineageItem(lineage[i])
  {
    items := [];
    var i := 0;
    while i < |lineage|
      invariant 0 <= i <= |lineage|
      invariant |items| == i
      invariant forall k :: 0 <= k < i ==> items[k] == LineageItem(lineage[k])
    {
      items := items + [LineageItem(lineage[i])];
      i := i + 1;
    }
  }

  /** The exception the parser can raise: a non-empty key with no `=` after it. */
  datatype LineageError = ValueIndexOutOfRange(segment: String)

  /** What one `;`-separated segment contributes to a dictionary. */
  datatype Segment = Skip | Pair(key: String, value: String) | NoValue

  /**
   * A segment split on `=`: an empty first piece is skipped, otherwise the
   * first piece is the key and the second the value (`ls_split_2[1]`).
   */
  function ParseSegment(seg: String): Segment {
    var parts := Split(seg, "=");
    if parts[0] == "" then Skip
    else if |parts| < 2 then NoValue
    else Pair(parts[0], parts[1])
  }

  /** The dictionary of one string and the `name` values it contributed. */
  datatype Parsed = Parsed(dict: map<String, String>, names: seq<String>)

  /** The inner loop over the segments of one string, as a left fold. */
  function ParseSegments(segs: seq<String>): Result<Parsed, LineageError>
    decreases |segs|
  {
    if segs == [] then Ok(Parsed(map[], []))
    else
      match ParseSegments(segs[..|segs| - 1])
      case Err(e) => Err(e)
      case Ok(acc) =>
        var seg := segs[|segs| - 1];
        match ParseSegment(seg)
        case Skip => Ok(acc)
        case NoValue => Err(ValueIndexOutOfRange(seg))
        case Pair(k, v) => Ok(Parsed(acc.dict[k := v], acc.names + if k == "name" then [v] else []))
  }

  function ParseItem(ls: String): Result<Parsed, LineageError> {
    ParseSegments(Split(ls, ";"))
  }

  /** The pair `[full_list, name_list]` the parser returns. */
  datatype Lineages = Lineages(fullList: seq<map<String, String>>, nameList: seq<String>)

  /** The outer loop over the strings, as a left fold. */
  function ParseAll(lss: seq<String>): Result<Lineages, LineageError>
    decreases |lss|
  {
    if lss == [] then Ok(Lineages([], []))
    else
      match ParseAll(lss[..|lss| - 1])
      case Err(e) => Err(e)
      case Ok(acc) =>
        match ParseItem(lss[|lss| - 1])
        case Err(e) => Err(e)
        case Ok(p) => Ok(Lineages(acc.fullList + [p.dict], acc.nameList + p.names))
  }

  /** `parse_lineage_string_list`. */
  method ParseLineageStringList(lss: seq<String>) returns (r: Result<Lineages, LineageError>)
    ensures r == ParseAll(lss)
    ensures r.Ok? ==> |r.value.fullList| == |lss|
  {
    var full: seq<map<String, String>> := [];
    var names: seq<String> := [];
    var i := 0;
    while i < |lss|
      invariant 0 <= i <= |lss|
      invariant ParseAll(lss[..i]) == Ok(Lineages(full, names))
      invariant |full| == i
    {
      var item := ParseOneString(lss[i]);
      if item.Err? {
        ParseAllErrorPropagates(lss, i + 1, item.error);
        return Err(item.error);
      }
      assert lss[..i + 1][..i] == lss[..i];
      full := full + [item.value.dict];
      names := names + item.value.names;
      i := i + 1;
    }
    assert lss[..i] == lss;
    r := Ok(Lineages(full, names));
  }

  /** The inner loop of `parse_lineage_string_list` over the `;`-separated segments of one string. */
  method ParseOneString(ls: String) returns (r: Result<Parsed, LineageError>)
    ensures r == ParseItem(ls)
  {
    var segs := Split(ls, ";");
    var local: map<String, String> := map[];
    var names: seq<String> := [];
    var j := 0;
    while j < |segs|
      invariant 0 <= j <= |segs|
      invariant ParseSegments(segs[..j]) == Ok(Parsed(local, names))
    {
      assert segs[..j + 1][..j] == segs[..j];
      var parts := Split(segs[j], "=");
      if parts[0] == "" {
        assert ParseSegment(segs[j]) == Skip;
        assert ParseSegments(segs[..j + 1]) == Ok(Parsed(local, names));
        j := j + 1;
        continue;
      }
      if |parts| < 2 {
        assert ParseSegment(segs[j]) == NoValue;
        ItemErrorPropagates(segs, j + 1);
        return Err(ValueIndexOutOfRange(segs[j]));
      }
      var key := parts[0];
      var value := parts[1];
      assert ParseSegment(segs[j]) == Pair(key, value);
      assert ParseSegments(segs[..j + 1]) ==
             Ok(Parsed(local[key := value], names + if key == "name" then [value] else []));
      assert names + [] == names;
      if key == "name" {
        names := names + [value];
      }
      local := local[key := value];
      j := j + 1;
    }
    assert segs[..j] == segs;
    r := Ok(Parsed(local, names));
  }

  lemma {:induction false} ItemErrorPropagates(segs: seq<String>, k: nat)
    requires 0 < k <= |segs|
    requires ParseSegments(segs[..k - 1]).Ok?
    requires ParseSegment(segs[k - 1]) == NoValue
    ensures ParseSegments(segs) == Err(ValueIndexOutOfRange(segs[k - 1]))
    decreases |segs|
  {
    if k == |segs| {
      assert segs[..k - 1] == segs[..|segs| - 1];
    } else {
      assert segs[..|segs| - 1][..k - 1] == segs[..k - 1];
      ItemErrorPropagates(segs[..|segs| - 1], k);
    }
  }

  lemma {:induction false} ParseAllErrorPropagates(lss: seq<String>, k: nat, e: LineageError)
    requires 0 < k <= |lss|
    requires ParseAll(lss[..k - 1]).Ok?
    requires ParseItem(lss[k - 1]) == Err(e)
    ensures ParseAll(lss) == Err(e)
    decreases |lss|
  {
    if k == |lss| {
      assert lss[..k - 1] == lss[..|lss| - 1];
    } else {
      assert lss[..|lss| - 1][..k - 1] == lss[..k - 1];
      ParseAllErrorPropagates(lss[..|lss| - 1], k, e);
    }
  }

  /** A successful parse yields one dictionary per input string, in input order. */
  lemma {:induction false} OneDictionaryPerString(lss: seq<String>)
    requires ParseAll(lss).Ok?
    ensures |ParseAll(lss).value.fullList| == |lss|
    ensures forall i :: 0 <= i < |lss| ==>
      ParseItem(lss[i]).Ok? && ParseAll(lss).value.fullList[i] == ParseItem(lss[i]).value.dict
    decreases |lss|
  {
    if lss != [] {
      var init := lss[..|lss| - 1];
      OneDictionaryPerString(init);
      var acc := ParseAll(init).value;
      var p := ParseItem(lss[|lss| - 1]).value;
      assert ParseAll(lss).value.fullList == acc.fullList + [p.dict];
      forall i | 0 <= i < |lss|
        ensures ParseItem(lss[i]).Ok? && ParseAll(lss).value.fullList[i] == ParseItem(lss[i]).value.dict
      {
        if i < |init| {
          assert lss[i] == init[i];
        }
      }
    }
  }

  /** The `name` values of one string's segments, in segment order. */
  function NameValues(segs: seq<String>): seq<String>
    decreases |segs|
  {
    if segs == [] then []
    else
      NameValues(segs[..|segs| - 1]) +
      match ParseSegment(segs[|segs| - 1])
      case Pair(k, v) => if k == "name" then [v] else []
      case _ => []
  }

  /** The names of every string, concatenated in input order. */
  function AllNameValues(lss: seq<String>): seq<String>
    decreases |lss|
  {
    if lss == [] then [] else AllNameValues(lss[..|lss| - 1]) + NameValues(Split(lss[|lss| - 1], ";"))
  }

  lemma {:induction false} ItemNames(segs: seq<String>)
    requires ParseSegments(segs).Ok?
    ensures ParseSegments(segs).value.names == NameValues(segs)
    decreases |segs|
  {
    if segs != [] {
      ItemNames(segs[..|segs| - 1]);
    }
  }

  /**
   * `name_list` holds the value of every `name` key, one entry per occurrence,
   * in the order the strings and their segments come.
   */
  lemma {:induction false} NameListInOrder(lss: seq<String>)
    requires ParseAll(lss).Ok?
    ensures ParseAll(lss).value.nameList == AllNameValues(lss)
    decreases |lss|
  {
    if lss != [] {
      NameListInOrder(lss[..|lss| - 1]);
      ItemNames(Split(lss[|lss| - 1], ";"));
    }
  }

  /** Empty segments are skipped, so a trailing `;` changes nothing. */
  lemma TrailingSeparatorIgnored(ls: String)
    ensures ParseItem(ls + ";") == ParseItem(ls)
  {
    SplitTrailingChar(ls, ';');
    var segs := Split(ls, ";");
    assert Split(ls + ";", ";") == segs + [""];
    assert (segs + [""])[..|segs|] == segs;
    assert Split("", "=") == [""] by { NoCharNoOccurrence("", '='); SplitNoOccurrence("", "="); }
  }

  /**
   * A segment is an error exactly when it is non-empty and has no `=`, and it
   * is skipped exactly when it is empty or starts with `=`.
   */
  lemma SegmentCases(seg: String)
    ensures ParseSegment(seg) == NoValue <==> seg != "" && '=' !in seg
    ensures ParseSegment(seg) == Skip <==> seg == "" || seg[0] == '='
  {
    if '=' in seg {
      assert Find(seg, "=").Some? by {
        var k :| 0 <= k < |seg| && seg[k] == '=';
        assert seg[k..k + 1] == "=";
        assert OccursAt(seg, "=", k);
      }
      var i := Find(seg, "=").value;
      assert Split(seg, "=")[0] == seg[..i];
      assert seg[i..i + 1] == "=";
      if i > 0 {
        assert seg[0..1] == [seg[0]];
        assert !OccursAt(seg, "=", 0);
      }
    } else {
      NoCharNoOccurrence(seg, '=');
      SplitNoOccurrence(seg, "=");
    }
  }

  /** One string fails to parse exactly when one of its segments is an error. */
  lemma {:induction false} ItemErrorIff(segs: seq<String>)
    ensures ParseSegments(segs).Err? <==> exists j :: 0 <= j < |segs| && ParseSegment(segs[j]) == NoValue
    decreases |segs|
  {
    if segs != [] {
      var init := segs[..|segs| - 1];
      ItemErrorIff(init);
      if exists j :: 0 <= j < |init| && ParseSegment(init[j]) == NoValue {
        var j :| 0 <= j < |init| && ParseSegment(init[j]) == NoValue;
        assert segs[j] == init[j];
      }
      if exists j :: 0 <= j < |segs| && ParseSegment(segs[j]) == NoValue {
        var j :| 0 <= j < |segs| && ParseSegment(segs[j]) == NoValue;
        if j < |init| { assert init[j] == segs[j]; }
      }
    }
  }

  /** Some segment of `segs` sets `key`. */
  predicate SetsKey(segs: seq<String>, key: String) {
    exists j :: 0 <= j < |segs| && ParseSegment(segs[j]).Pair? && ParseSegment(segs[j]).key == key
  }

  /** Segment `j` sets `key`, and no later segment does. */
  predicate LastSetAt(segs: seq<String>, key: String, j: int) {
    0 <= j < |segs| && ParseSegment(segs[j]).Pair? && ParseSegment(segs[j]).key == key &&
    forall j' :: j < j' < |segs| ==> !(ParseSegment(segs[j']).Pair? && ParseSegment(segs[j']).key == key)
  }

  /** Within one string a key is in the dictionary exactly when some segment sets it. */
  lemma {:induction false} KeyPresentIff(segs: seq<String>, key: String)
    requires ParseSegments(segs).Ok?
    ensures key in ParseSegments(segs).value.dict <==> SetsKey(segs, key)
    decreases |segs|
  {
    if segs != [] {
      var init := segs[..|segs| - 1];
      KeyPresentIff(init, key);
      if SetsKey(init, key) {
        var j :| 0 <= j < |init| && ParseSegment(init[j]).Pair? && ParseSegment(init[j]).key == key;
        assert segs[j] == init[j];
      }
      if SetsKey(segs, key) {
        var j :| 0 <= j < |segs| && ParseSegment(segs[j]).Pair? && ParseSegment(segs[j]).key == key;
        if j < |init| { assert init[j] == segs[j]; }
      }
    }
  }

  /** Within one string a repeated key keeps the value of its last segment. */
  lemma {:induction false} LastValueWins(segs: seq<String>, key: String, j: int)
    requires ParseSegments(segs).Ok?
    requires LastSetAt(segs, key, j)
    ensures key in ParseSegments(segs).value.dict
    ensures ParseSegments(segs).value.dict[key] == ParseSegment(segs[j]).value
    decreases |segs|
  {
    var init := segs[..|segs| - 1];
    var last := ParseSegment(segs[|segs| - 1]);
    if j < |segs| - 1 {
      assert !(last.Pair? && last.key == key);
      assert init[j] == segs[j];
      forall j' | j < j' < |init|
        ensures !(ParseSegment(init[j']).Pair? && ParseSegment(init[j']).key == key)
      {
        assert init[j'] == segs[j'];
      }
      assert LastSetAt(init, key, j);
      LastValueWins(init, key, j);
    }
  }

  lemma SplitOnEquals(k: String, v: String)
    requires '=' !in k && '=' !in v
    ensures Split(k + "=" + v, "=") == [k, v]
  {
    SplitAtChar(k, '=', v);
    NoCharNoOccurrence(v, '=');
    SplitNoOccurrence(v, "=");
  }

  predicate Plain(s: String) {
    ';' !in s && '=' !in s
  }

  /** The dictionary the parser builds for a taxon's item. */
  function TaxonDict(t: Taxon): map<String, String> {
    map["name" := t.scientificName, "rank" := t.rank, "taxid" := t.taxId]
  }

  lemma SplitItem(t: Taxon)
    requires Plain(t.scientificName) && Plain(t.rank) && Plain(t.taxId)
    ensures Split(LineageItem(t), ";") ==
      ["name=" + t.scientificName, "rank=" + t.rank, "taxid=" + t.taxId, ""]
  {
    var a, b, c := "name=" + t.scientificName, "rank=" + t.rank, "taxid=" + t.taxId;
    var tail3 := c + [';'] + [];
    var tail2 := b + [';'] + tail3;
    assert LineageItem(t) == a + [';'] + tail2;
    assert Split(tail3, ";") == [c, ""] by {
      assert ';' !in c;
      SplitAtChar(c, ';', []);
      NoCharNoOccurrence([], ';');
      SplitNoOccurrence([], [';']);
    }
    assert Split(tail2, ";") == [b, c, ""] by {
      assert ';' !in b;
      SplitAtChar(b, ';', tail3);
    }
    assert ';' !in a;
    SplitAtChar(a, ';', tail2);
  }

  lemma SegmentOfField(k: String, v: String)
    requires |k| > 0 && '=' !in k && Plain(v)
    ensures ParseSegment(k + "=" + v) == Pair(k, v)
  {
    SplitOnEquals(k, v);
  }

  /**
   * Round trip: the item `get_lineages` writes for a taxon whose fields hold no
   * `;` or `=` parses back into exactly the three fields, with its name listed.
   */
  lemma ItemRoundTrip(t: Taxon)
    requires Plain(t.scientificName) && Plain(t.rank) && Plain(t.taxId)
    ensures ParseItem(LineageItem(t)) == Ok(Parsed(TaxonDict(t), [t.scientificName]))
  {
    var a, b, c := "name=" + t.scientificName, "rank=" + t.rank, "taxid=" + t.taxId;
    SplitItem(t);
    var segs := [a, b, c, ""];
    assert a == "name" + "=" + t.scientificName;
    assert b == "rank" + "=" + t.rank;
    assert c == "taxid" + "=" + t.taxId;
    SegmentOfField("name", t.scientificName);
    SegmentOfField("rank", t.rank);
    SegmentOfField("taxid", t.taxId);
    assert ParseSegment("") == Skip by {
      NoCharNoOccurrence("", '=');
      SplitNoOccurrence("", "=");
    }
    assert [a][..0] == [];
    assert ParseSegments([]) == Ok(Parsed(map[], []));
    assert ParseSegment(a) == Pair("name", t.scientificName);
    assert [a][|[a]| - 1] == a;
    assert [] + [t.scientificName] == [t.scientificName];
    var p1 := Parsed(map[]["name" := t.scientificName], [t.scientificName]);
    assert ParseSegments([a]) == Ok(p1);
    assert [a, b][..1] == [a];
    assert ParseSegment(b) == Pair("rank", t.rank);
    assert ParseSegment(c) == Pair("taxid", t.taxId);
    assert "rank" != "name" && "taxid" != "name";
    assert p1.names + [] == p1.names;
    assert [a, b][|[a, b]| - 1] == b;
    var p2 := Parsed(p1.dict["rank" := t.rank], p1.names);
    assert ParseSegments([a, b]) == Ok(p2);
    assert [a, b, c][..2] == [a, b];
    assert [a, b, c][|[a, b, c]| - 1] == c;
    var p3 := Parsed(p2.dict["taxid" := t.taxId], p1.names);
    assert ParseSegments([a, b, c]) == Ok(p3);
    assert segs[..3] == [a, b, c];
    assert ParseSegments(segs) == Ok(p3);
    assert p3.dict == TaxonDict(t);
  }

  lemma ParseAllSnoc(lss: seq<String>, p: Parsed)
    requires lss != [] && ParseAll(lss[..|lss| - 1]).Ok? && ParseItem(lss[|lss| - 1]) == Ok(p)
    ensures ParseAll(lss) == Ok(Lineages(ParseAll(lss[..|lss| - 1]).value.fullList + [p.dict],
                                         ParseAll(lss[..|lss| - 1]).value.nameList + p.names))
  {
  }

  /**
   * Round trip over a whole lineage: formatting each taxon and parsing the
   * list gives one three-field dictionary per taxon and the taxa's names.
   */
  lemma {:induction false} LineageRoundTrip(lineage: seq<Taxon>, items: seq<String>)
    requires |items| == |lineage|
    requires forall i :: 0 <= i < |lineage| ==> items[i] == LineageItem(lineage[i])
    requires forall t :: t in lineage ==> Plain(t.scientificName) && Plain(t.rank) && Plain(t.taxId)
    ensures ParseAll(items).Ok?
    ensures |ParseAll(items).value.fullList| == |lineage|
    ensures |ParseAll(items).value.nameList| == |lineage|
    ensures forall i :: 0 <= i < |lineage| ==>
      (ParseAll(items).value.fullList[i] == TaxonDict(lineage[i]) &&
       ParseAll(items).value.nameList[i] == lineage[i].scientificName)
    decreases |lineage|
  {
    if lineage != [] {
      var n := |lineage| - 1;
      var lin, its := lineage[..n], items[..n];
      assert ParseAll(its).Ok? && |ParseAll(its).value.fullList| == n && |ParseAll(its).value.nameList| == n &&
             forall i :: 0 <= i < n ==>
               (ParseAll(its).value.fullList[i] == TaxonDict(lin[i]) &&
                ParseAll(its).value.nameList[i] == lin[i].scientificName) by {
        forall i | 0 <= i < n ensures its[i] == LineageItem(lin[i]) {
          assert its[i] == items[i] && lin[i] == lineage[i];
        }
        forall t | t in lin ensures Plain(t.scientificName) && Plain(t.rank) && Plain(t.taxId) {
          assert t in lineage;
        }
        LineageRoundTrip(lin, its);
      }
      LineageRoundTripStep(lineage, items);
    }
  }

  /** The last taxon of `LineageRoundTrip`, given the round trip of the others. */
  lemma LineageRoundTripStep(lineage: seq<Taxon>, items: seq<String>)
    requires |items| == |lineage| > 0
    requires forall i :: 0 <= i < |lineage| ==> items[i] == LineageItem(lineage[i])
    requires forall t :: t in lineage ==> Plain(t.scientificName) && Plain(t.rank) && Plain(t.taxId)
    requires var n := |lineage| - 1;
      ParseAll(items[..n]).Ok? && |ParseAll(items[..n]).value.fullList| == n &&
      |ParseAll(items[..n]).value.nameList| == n &&
      forall i :: 0 <= i < n ==>
        (ParseAll(items[..n]).value.fullList[i] == TaxonDict(lineage[i]) &&
         ParseAll(items[..n]).value.nameList[i] == lineage[i].scientificName)
    ensures ParseAll(items).Ok?
    ensures |ParseAll(items).value.fullList| == |lineage|
    ensures |ParseAll(items).value.nameList| == |lineage|
    ensures forall i :: 0 <= i < |lineage| ==>
      (ParseAll(items).value.fullList[i] == TaxonDict(lineage[i]) &&
       ParseAll(items).value.nameList[i] == lineage[i].scientificName)
  {
    var n := |lineage| - 1;
    var t := lineage[n];
    var p := Parsed(TaxonDict(t), [t.scientificName]);
    assert ParseItem(items[n]) == Ok(p) by {
      assert t in lineage;
      ItemRoundTrip(t);
    }
    ParseAllSnoc(items, p);
  }
}
