/**
 * `names_for_ncbi_taxid` of krncbi.py: the names an NCBI taxonomy id carries in
 * the NCBI names table, restricted to scientific names, authorities and
 * synonyms, each parsed by `krbionames.parse_organism_name` (a parameter here)
 * and ordered so that names with authority information come first.
 */
module TaxNames {
  import opened Util
  import opened Text

  /** One row of the NCBI names table. */
  datatype NameRow = NameRow(taxId: String, nameTxt: String, nameClass: String)

  /** A parsed organism name; only its `authority` entry is read here. */
  datatype ParsedName = ParsedName(fields: map<String, String>, authority: Option<String>)

  /** Python 2 string ordering: lexicographic on code points. */
  predicate LexLe(a: String, b: String)
    decreases |a|
  {
    a == [] || (b != [] && (a[0] < b[0] || (a[0] == b[0] && LexLe(a[1..], b[1..]))))
  }

  /** Python 2 ordering of sort keys: `None` sorts below every string. */
  predicate KeyLe(a: Option<String>, b: Option<String>) {
    a.None? || (b.Some? && LexLe(a.value, b.value))
  }

  lemma {:induction false} LexReflexive(a: String)
    ensures LexLe(a, a)
    decreases |a|
  {
    if a != [] { LexReflexive(a[1..]); }
  }

  lemma {:induction false} LexTotal(a: String, b: String)
    ensures LexLe(a, b) || LexLe(b, a)
    decreases |a|
  {
    if a != [] && b != [] && a[0] == b[0] { LexTotal(a[1..], b[1..]); }
  }

  lemma {:induction false} LexTransitive(a: String, b: String, c: String)
    requires LexLe(a, b) && LexLe(b, c)
    ensures LexLe(a, c)
    decreases |a|
  {
    if a != [] && a[0] == b[0] && b[0] == c[0] { LexTransitive(a[1..], b[1..], c[1..]); }
  }

  lemma KeyLeProperties()
    ensures forall a :: KeyLe(a, a)
    ensures forall a, b :: KeyLe(a, b) || KeyLe(b, a)
    ensures forall a, b, c :: KeyLe(a, b) && KeyLe(b, c) ==> KeyLe(a, c)
  {
    forall a: Option<String> ensures KeyLe(a, a) { if a.Some? { LexReflexive(a.value); } }
    forall a: Option<String>, b: Option<String> ensures KeyLe(a, b) || KeyLe(b, a) {
      if a.Some? && b.Some? { LexTotal(a.value, b.value); }
    }
    forall a: Option<String>, b: Option<String>, c: Option<String> | KeyLe(a, b) && KeyLe(b, c)
      ensures KeyLe(a, c)
    {
      if a.Some? { LexTransitive(a.value, b.value, c.value); }
    }
  }

  /**
   * Inserting `x`, which came before every element of `s`, into `s` sorted by
   * descending authority: `x` goes in front of the first element whose key is
   * not greater than its own, so it stays ahead of its equals.
   */
  function Insert(x: ParsedName, s: seq<ParsedName>): seq<ParsedName> {
    if s == [] || KeyLe(s[0].authority, x.authority) then [x] + s
    else [s[0]] + Insert(x, s[1..])
  }

  /** `list.sort(key=lambda x: x['authority'], reverse=True)`, a stable sort. */
  function SortByAuthority(s: seq<ParsedName>): seq<ParsedName> {
    if s == [] then [] else Insert(s[0], SortByAuthority(s[1..]))
  }

  /** Non-increasing by authority. */
  predicate SortedDescending(s: seq<ParsedName>) {
    forall i, j :: 0 <= i < j < |s| ==> KeyLe(s[j].authority, s[i].authority)
  }

  /** The elements whose authority is `k`, in order. */
  function WithKey(s: seq<ParsedName>, k: Option<String>): seq<ParsedName> {
    if s == [] then [] else (if s[0].authority == k then [s[0]] else []) + WithKey(s[1..], k)
  }

  lemma {:induction false} WithKeyAppend(a: seq<ParsedName>, b: seq<ParsedName>, k: Option<String>)
    ensures WithKey(a + b, k) == WithKey(a, k) + WithKey(b, k)
  {
    if a == [] {
      assert a + b == b;
    } else {
      assert (a + b)[0] == a[0] && (a + b)[1..] == a[1..] + b;
      WithKeyAppend(a[1..], b, k);
    }
  }

  lemma {:induction false} InsertPermutes(x: ParsedName, s: seq<ParsedName>)
    ensures multiset(Insert(x, s)) == multiset([x] + s)
  {
    if s != [] && !KeyLe(s[0].authority, x.authority) {
      InsertPermutes(x, s[1..]);
      assert s == [s[0]] + s[1..];
    }
  }

  lemma {:induction false} InsertSorted(x: ParsedName, s: seq<ParsedName>)
    requires SortedDescending(s)
    ensures SortedDescending(Insert(x, s))
  {
    KeyLeProperties();
    if s != [] && !KeyLe(s[0].authority, x.authority) {
      InsertSorted(x, s[1..]);
      InsertPermutes(x, s[1..]);
      var t := Insert(x, s[1..]);
      forall j | 0 <= j < |t| ensures KeyLe(t[j].authority, s[0].authority) {
        assert t[j] in multiset([x] + s[1..]);
        assert t[j] == x || t[j] in s[1..];
      }
    }
  }

  lemma {:induction false} InsertStable(x: ParsedName, s: seq<ParsedName>, k: Option<String>)
    ensures WithKey(Insert(x, s), k) == WithKey([x] + s, k)
  {
    KeyLeProperties();
    if s != [] && !KeyLe(s[0].authority, x.authority) {
      InsertStable(x, s[1..], k);
      WithKeyAppend([s[0]], Insert(x, s[1..]), k);
      WithKeyAppend([x], s[1..], k);
      WithKeyAppend([x], s, k);
      WithKeyAppend([s[0]], s[1..], k);
      assert s == [s[0]] + s[1..];
    }
  }

  /** The sort returns a permutation of its input. */
  lemma {:induction false} SortPermutes(s: seq<ParsedName>)
    ensures multiset(SortByAuthority(s)) == multiset(s)
  {
    if s != [] {
      SortPermutes(s[1..]);
      InsertPermutes(s[0], SortByAuthority(s[1..]));
      assert s == [s[0]] + s[1..];
    }
  }

  /** The sort orders by non-increasing authority. */
  lemma {:induction false} SortSorts(s: seq<ParsedName>)
    ensures SortedDescending(SortByAuthority(s))
  {
    if s != [] {
      SortSorts(s[1..]);
      InsertSorted(s[0], SortByAuthority(s[1..]));
    }
  }

  /** The sort is stable: the elements sharing one authority keep their order. */
  lemma {:induction false} SortStable(s: seq<ParsedName>, k: Option<String>)
    ensures WithKey(SortByAuthority(s), k) == WithKey(s, k)
  {
    if s != [] {
      SortStable(s[1..], k);
      InsertStable(s[0], SortByAuthority(s[1..]), k);
      WithKeyAppend([s[0]], SortByAuthority(s[1..]), k);
      WithKeyAppend([s[0]], s[1..], k);
      assert s == [s[0]] + s[1..];
    }
  }

  /** The first loop: the rows of the table whose `tax_id` is `taxId`, in table order. */
  function RowsFor(table: seq<NameRow>, taxId: String): seq<NameRow>
    decreases |table|
  {
    if table == [] then []
    else
      var last := table[|table| - 1];
      RowsFor(table[..|table| - 1], taxId) + (if last.taxId == taxId then [last] else [])
  }

  /** The parsed names of the rows of name class `cls`, in order. */
  function ParsedOfClass(rows: seq<NameRow>, cls: String, parse: String -> ParsedName): seq<ParsedName>
    decreases |rows|
  {
    if rows == [] then []
    else
      var last := rows[|rows| - 1];
      ParsedOfClass(rows[..|rows| - 1], cls, parse) + (if last.nameClass == cls then [parse(last.nameTxt)] else [])
  }

  /** `auth_names + syn_names + sci_names`. */
  function PriorityList(rows: seq<NameRow>, parse: String -> ParsedName): seq<ParsedName> {
    ParsedOfClass(rows, "authority", parse) + ParsedOfClass(rows, "synonym", parse) +
    ParsedOfClass(rows, "scientific name", parse)
  }

  /** What `names_for_ncbi_taxid` returns. */
  function NamesFor(taxId: String, table: seq<NameRow>, parse: String -> ParsedName): seq<ParsedName> {
    SortByAuthority(PriorityList(RowsFor(table, taxId), parse))
  }

  /** `names_for_ncbi_taxid(tax_id, ncbi_names_table)`. */
  method NamesForTaxid(taxId: String, table: seq<NameRow>, parse: String -> ParsedName)
    returns (r: seq<ParsedName>)
    ensures r == NamesFor(taxId, table, parse)
    ensures SortedDescending(r)
  {
    var names: seq<NameRow> := [];
    var i := 0;
    while i < |table|
      invariant 0 <= i <= |table|
      invariant names == RowsFor(table[..i], taxId)
    {
      assert table[..i + 1][..i] == table[..i];
      if table[i].taxId == taxId {
        names := names + [table[i]];
      }
      i := i + 1;
    }
    assert table[..i] == table;

    var authNames: seq<ParsedName> := [];
    var synNames: seq<ParsedName> := [];
    var sciNames: seq<ParsedName> := [];
    i := 0;
    while i < |names|
      invariant 0 <= i <= |names|
      invariant authNames == ParsedOfClass(names[..i], "authority", parse)
      invariant synNames == ParsedOfClass(names[..i], "synonym", parse)
      invariant sciNames == ParsedOfClass(names[..i], "scientific name", parse)
    {
      assert names[..i + 1][..i] == names[..i];
      var row := names[i];
      var parsed := parse(row.nameTxt);
      if row.nameClass == "scientific name" {
        sciNames := sciNames + [parsed];
      }
      if row.nameClass == "authority" {
        authNames := authNames + [parsed];
      }
      if row.nameClass == "synonym" {
        synNames := synNames + [parsed];
      }
      i := i + 1;
    }
    assert names[..i] == names;

    var priorityList := authNames + synNames + sciNames;
    r := SortByAuthority(priorityList);
    SortSorts(priorityList);
  }

  /** A row kept by the classification. */
  predicate Kept(row: NameRow) {
    row.nameClass == "scientific name" || row.nameClass == "authority" || row.nameClass == "synonym"
  }

  /** The number of rows for `taxId` whose class is kept. */
  function CountKept(table: seq<NameRow>, taxId: String): nat
    decreases |table|
  {
    if table == [] then 0
    else
      var last := table[|table| - 1];
      CountKept(table[..|table| - 1], taxId) + (if last.taxId == taxId && Kept(last) then 1 else 0)
  }

  lemma {:induction false} PriorityListSize(table: seq<NameRow>, taxId: String, parse: String -> ParsedName)
    ensures |PriorityList(RowsFor(table, taxId), parse)| == CountKept(table, taxId)
    decreases |table|
  {
    if table != [] {
      var init := table[..|table| - 1];
      PriorityListSize(init, taxId, parse);
      var rows := RowsFor(table, taxId);
      var last := table[|table| - 1];
      if last.taxId == taxId {
        assert rows[..|rows| - 1] == RowsFor(init, taxId);
        assert rows[|rows| - 1] == last;
      } else {
        assert rows == RowsFor(init, taxId);
      }
    }
  }

  /**
   * One output entry per kept row of the argument's taxonomy id, so no such
   * row gives an empty list.
   */
  lemma NamesCount(taxId: String, table: seq<NameRow>, parse: String -> ParsedName)
    ensures |NamesFor(taxId, table, parse)| == CountKept(table, taxId)
    ensures CountKept(table, taxId) == 0 ==> NamesFor(taxId, table, parse) == []
  {
    var p := PriorityList(RowsFor(table, taxId), parse);
    SortPermutes(p);
    assert |multiset(SortByAuthority(p))| == |multiset(p)|;
    PriorityListSize(table, taxId, parse);
  }

  lemma {:induction false} RowsForOrigin(table: seq<NameRow>, taxId: String)
    ensures forall row :: row in RowsFor(table, taxId) ==> row in table && row.taxId == taxId
    decreases |table|
  {
    if table != [] {
      RowsForOrigin(table[..|table| - 1], taxId);
      assert forall row :: row in table[..|table| - 1] ==> row in table;
    }
  }

  lemma {:induction false} ParsedOfClassOrigin(rows: seq<NameRow>, cls: String, parse: String -> ParsedName)
    ensures forall x :: x in ParsedOfClass(rows, cls, parse) ==>
      exists row :: row in rows && row.nameClass == cls && x == parse(row.nameTxt)
    decreases |rows|
  {
    if rows != [] {
      var init := rows[..|rows| - 1];
      ParsedOfClassOrigin(init, cls, parse);
      forall x | x in ParsedOfClass(rows, cls, parse)
        ensures exists row :: row in rows && row.nameClass == cls && x == parse(row.nameTxt)
      {
        if x in ParsedOfClass(init, cls, parse) {
          var row :| row in init && row.nameClass == cls && x == parse(row.nameTxt);
          assert row in rows;
        } else {
          assert rows[|rows| - 1] in rows;
        }
      }
    }
  }

  /**
   * Every returned name is the parse of a table row whose `tax_id` is the
   * argument and whose class is scientific name, authority or synonym.
   */
  lemma NamesOrigin(taxId: String, table: seq<NameRow>, parse: String -> ParsedName)
    ensures forall x :: x in NamesFor(taxId, table, parse) ==>
      exists row :: row in table && row.taxId == taxId && Kept(row) && x == parse(row.nameTxt)
  {
    var rows := RowsFor(table, taxId);
    var p := PriorityList(rows, parse);
    SortPermutes(p);
    RowsForOrigin(table, taxId);
    ParsedOfClassOrigin(rows, "authority", parse);
    ParsedOfClassOrigin(rows, "synonym", parse);
    ParsedOfClassOrigin(rows, "scientific name", parse);
    forall x | x in NamesFor(taxId, table, parse)
      ensures exists row :: row in table && row.taxId == taxId && Kept(row) && x == parse(row.nameTxt)
    {
      assert x in multiset(p);
      assert x in p;
    }
  }

  /**
   * Among names with equal authority, authority-class entries come first,
   * then synonyms, then scientific names, each class in table order.
   */
  lemma EqualAuthoritiesInClassOrder(taxId: String, table: seq<NameRow>, parse: String -> ParsedName, k: Option<String>)
    ensures WithKey(NamesFor(taxId, table, parse), k) ==
      WithKey(ParsedOfClass(RowsFor(table, taxId), "authority", parse), k) +
      WithKey(ParsedOfClass(RowsFor(table, taxId), "synonym", parse), k) +
      WithKey(ParsedOfClass(RowsFor(table, taxId), "scientific name", parse), k)
  {
    var rows := RowsFor(table, taxId);
    var a, s, c := ParsedOfClass(rows, "authority", parse), ParsedOfClass(rows, "synonym", parse),
                   ParsedOfClass(rows, "scientific name", parse);
    SortStable(a + s + c, k);
    WithKeyAppend(a + s, c, k);
    WithKeyAppend(a, s, k);
  }
}
