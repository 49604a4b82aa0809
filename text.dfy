/**
 * The string primitives of Python 2 that the modelled code relies on:
 * `str.split(sep)`, `sep.join(parts)`, `str.replace(old, new)`, `str.strip()`,
 * `str.upper()` and `str(n)` for a non-negative integer.
 */
module Text {
  import opened Util

  type String = seq<char>

  /** `sep` starts at position `i` of `s`. */
  predicate OccursAt(s: String, sep: String, i: int) {
    0 <= i && i + |sep| <= |s| && s[i..i + |sep|] == sep
  }

  lemma OccursShift(s: String, sep: String, i: nat)
    requires |s| > 0
    ensures OccursAt(s, sep, i + 1) <==> OccursAt(s[1..], sep, i)
  {
    if i + 1 + |sep| <= |s| {
      assert s[i + 1..i + 1 + |sep|] == s[1..][i..i + |sep|];
    }
  }

  /** The first position at which `sep` occurs in `s`, as `str.find` returns it. */
  function Find(s: String, sep: String): (r: Option<nat>)
    requires |sep| > 0
    ensures r.Some? ==> OccursAt(s, sep, r.value)
    ensures r.Some? ==> forall i :: 0 <= i < r.value ==> !OccursAt(s, sep, i)
    ensures r.None? ==> forall i :: !OccursAt(s, sep, i)
    decreases |s|
  {
    if |s| < |sep| then None
    else if s[..|sep|] == sep then Some(0)
    else
      var rest := Find(s[1..], sep);
      assert forall i: nat :: OccursAt(s, sep, i + 1) <==> OccursAt(s[1..], sep, i) by {
        forall i: nat ensures OccursAt(s, sep, i + 1) <==> OccursAt(s[1..], sep, i) {
          OccursShift(s, sep, i);
        }
      }
      assert forall i :: OccursAt(s, sep, i) ==> i == 0 || OccursAt(s[1..], sep, i - 1);
      match rest
      case None => None
      case Some(i) => Some(i + 1)
  }

  /** Python's `s.split(sep)`: the pieces between non-overlapping occurrences, left to right. */
  function Split(s: String, sep: String): (r: seq<String>)
    requires |sep| > 0
    ensures |r| >= 1
    decreases |s|
  {
    match Find(s, sep)
    case None => [s]
    case Some(i) => [s[..i]] + Split(s[i + |sep|..], sep)
  }

  /** Python's `sep.join(parts)`. */
  function Join(parts: seq<String>, sep: String): String
  {
    if |parts| == 0 then []
    else if |parts| == 1 then parts[0]
    else parts[0] + sep + Join(parts[1..], sep)
  }

  /** Python's `s.replace(target, replacement)`, which equals `replacement.join(s.split(target))`. */
  function Replace(s: String, target: String, replacement: String): String
    requires |target| > 0
  {
    Join(Split(s, target), replacement)
  }

  /** Splitting and joining with the same separator gives back the string. */
  lemma {:induction false} JoinSplit(s: String, sep: String)
    requires |sep| > 0
    ensures Join(Split(s, sep), sep) == s
    decreases |s|
  {
    match Find(s, sep)
    case None =>
    case Some(i) =>
      var rest := s[i + |sep|..];
      assert Join(Split(rest, sep), sep) == rest by { JoinSplit(rest, sep); }
      assert Join(Split(s, sep), sep) == s[..i] + sep + rest by {
        SplitAt(s, sep, i);
        JoinCons(s[..i], Split(rest, sep), sep);
      }
      assert s == s[..i] + s[i..i + |sep|] + rest;
  }

  lemma JoinCons(x: String, parts: seq<String>, sep: String)
    requires |parts| >= 1
    ensures Join([x] + parts, sep) == x + sep + Join(parts, sep)
  {
    assert ([x] + parts)[1..] == parts;
  }

  lemma FindAt(s: String, sep: String, i: nat)
    requires |sep| > 0
    requires OccursAt(s, sep, i)
    requires forall k :: 0 <= k < i ==> !OccursAt(s, sep, k)
    ensures Find(s, sep) == Some(i)
  {
    match Find(s, sep)
    case None =>
    case Some(j) =>
      if j < i {} else if j > i {}
  }

  /** A string in which `sep` never occurs splits into itself. */
  lemma SplitNoOccurrence(s: String, sep: String)
    requires |sep| > 0
    requires forall k :: !OccursAt(s, sep, k)
    ensures Split(s, sep) == [s]
  {
    assert Find(s, sep).None?;
  }

  /** Occurrences inside a prefix do not see what follows it. */
  lemma OccursInPrefix(a: String, t: String, sep: String, k: int)
    requires 0 <= k && k + |sep| <= |a|
    ensures OccursAt(a + t, sep, k) == OccursAt(a, sep, k)
  {
    assert (a + t)[k..k + |sep|] == a[k..k + |sep|];
  }

  /** The first `c` in `a + [c] + b` is the first in `a`, or else the one after `a`. */
  lemma FindAroundChar(a: String, c: char, b: String)
    ensures Find(a, [c]).Some? ==> Find(a + [c] + b, [c]) == Find(a, [c])
    ensures Find(a, [c]).None? ==> Find(a + [c] + b, [c]) == Some(|a|)
  {
    var s := a + [c] + b;
    forall k | 0 <= k && k + 1 <= |a| ensures OccursAt(s, [c], k) == OccursAt(a, [c], k) {
      assert s == a + ([c] + b);
      OccursInPrefix(a, [c] + b, [c], k);
    }
    assert OccursAt(s, [c], |a|) by { assert s[|a|..|a| + 1] == [c]; }
    match Find(a, [c])
    case None =>
      FindAt(s, [c], |a|);
    case Some(i) =>
      FindAt(s, [c], i);
  }

  lemma SplitAt(s: String, sep: String, i: nat)
    requires |sep| > 0 && Find(s, sep) == Some(i)
    ensures Split(s, sep) == [s[..i]] + Split(s[i + |sep|..], sep)
  {
  }

  /** Splitting `a + [c] + b` on `c` splits `a` and `b` separately. */
  lemma {:induction false} SplitAroundChar(a: String, c: char, b: String)
    ensures Split(a + [c] + b, [c]) == Split(a, [c]) + Split(b, [c])
    decreases |a|, 1
  {
    if Find(a, [c]).None? {
      SplitAroundCharNone(a, c, b);
    } else {
      SplitAroundCharSome(a, c, b, Find(a, [c]).value);
    }
  }

  lemma SplitAroundCharNone(a: String, c: char, b: String)
    requires Find(a, [c]).None?
    ensures Split(a + [c] + b, [c]) == Split(a, [c]) + Split(b, [c])
  {
    var s := a + [c] + b;
    assert Find(s, [c]) == Some(|a|) by { FindAroundChar(a, c, b); }
    SplitAt(s, [c], |a|);
    assert s[..|a|] == a;
    assert s[|a| + 1..] == b;
  }

  lemma {:induction false} SplitAroundCharSome(a: String, c: char, b: String, i: nat)
    requires Find(a, [c]) == Some(i)
    ensures Split(a + [c] + b, [c]) == Split(a, [c]) + Split(b, [c])
    decreases |a|, 0
  {
    var s := a + [c] + b;
    var rs := s[i + 1..];
    var ra := a[i + 1..];
    assert Find(s, [c]) == Some(i) by { FindAroundChar(a, c, b); }
    assert s[..i] == a[..i];
    assert Split(rs, [c]) == Split(ra, [c]) + Split(b, [c]) by {
      assert rs == ra + [c] + b;
      SplitAroundChar(ra, c, b);
    }
    SplitSameHead(s, a, [c], i, Split(b, [c]));
  }

  /** Two strings whose first separators sit at the same place, after the same text, split alike up to their tails. */
  lemma SplitSameHead(s: String, a: String, sep: String, i: nat, tail: seq<String>)
    requires |sep| > 0 && Find(s, sep) == Some(i) && Find(a, sep) == Some(i)
    requires s[..i] == a[..i]
    requires Split(s[i + |sep|..], sep) == Split(a[i + |sep|..], sep) + tail
    ensures Split(s, sep) == Split(a, sep) + tail
  {
    var head := a[..i];
    var rest := Split(a[i + |sep|..], sep);
    var ss := Split(s, sep);
    var sa := Split(a, sep);
    assert ss == [head] + (rest + tail) by { SplitAt(s, sep, i); }
    assert sa == [head] + rest by { SplitAt(a, sep, i); }
    ConsAssoc(head, rest, tail);
  }

  lemma ConsAssoc<T>(x: T, r: seq<T>, t: seq<T>)
    ensures [x] + (r + t) == ([x] + r) + t
  {
  }

  lemma NoCharNoOccurrence(s: String, c: char)
    requires c !in s
    ensures forall k :: !OccursAt(s, [c], k)
  {
    forall k ensures !OccursAt(s, [c], k) {
      if 0 <= k && k + 1 <= |s| {
        assert s[k..k + 1] == [s[k]];
        assert OccursAt(s, [c], k) <==> s[k] == c;
      }
    }
  }

  /** Splitting on one character: the text before the first `c` is the first piece. */
  lemma SplitAtChar(a: String, c: char, b: String)
    requires c !in a
    ensures Split(a + [c] + b, [c]) == [a] + Split(b, [c])
  {
    NoCharNoOccurrence(a, c);
    SplitNoOccurrence(a, [c]);
    SplitAroundChar(a, c, b);
  }

  /** A trailing separator adds exactly one empty piece. */
  lemma SplitTrailingChar(a: String, c: char)
    ensures Split(a + [c], [c]) == Split(a, [c]) + [[]]
  {
    assert a + [c] == a + [c] + [];
    SplitAroundChar(a, c, []);
    NoCharNoOccurrence([], c);
    SplitNoOccurrence([], [c]);
  }

  /** No piece of a split on one character contains that character. */
  lemma {:induction false} SplitPiecesAvoidChar(s: String, c: char)
    ensures forall p :: p in Split(s, [c]) ==> c !in p
    decreases |s|
  {
    match Find(s, [c])
    case None =>
      forall k | 0 <= k < |s| ensures s[k] != c {
        assert s[k..k + 1] == [s[k]];
        assert OccursAt(s, [c], k) <==> s[k] == c;
      }
    case Some(i) =>
      forall k | 0 <= k < i ensures s[k] != c {
        assert s[k..k + 1] == [s[k]];
        assert OccursAt(s, [c], k) <==> s[k] == c;
      }
      assert c !in s[..i];
      SplitPiecesAvoidChar(s[i + 1..], c);
  }

  /** Joining adds one separator before a further last part. */
  lemma {:induction false} JoinSnoc(parts: seq<String>, x: String, sep: String)
    requires |parts| >= 1
    ensures Join(parts + [x], sep) == Join(parts, sep) + sep + x
    decreases |parts|
  {
    if |parts| == 1 {
      assert (parts + [x])[1..] == [x];
    } else {
      assert (parts + [x])[1..] == parts[1..] + [x];
      JoinSnoc(parts[1..], x, sep);
    }
  }

  /** A separator whose first character no part contains is found exactly between the parts. */
  lemma {:induction false} SplitJoinAvoiding(parts: seq<String>, sep: String)
    requires |parts| >= 1 && |sep| > 0
    requires forall i :: 0 <= i < |parts| ==> sep[0] !in parts[i]
    ensures Split(Join(parts, sep), sep) == parts
    decreases |parts|
  {
    var p := parts[0];
    assert forall k :: 0 <= k < |p| ==> !OccursAt(p + sep + Join(parts[1..], sep), sep, k) by {
      forall k | 0 <= k < |p| ensures !OccursAt(p + sep + Join(parts[1..], sep), sep, k) {
        assert p[k] in p;
      }
    }
    if |parts| == 1 {
      assert forall k :: !OccursAt(p, sep, k) by {
        forall k ensures !OccursAt(p, sep, k) {
          if 0 <= k < |p| {
            assert p[k] in p;
          }
        }
      }
      SplitNoOccurrence(p, sep);
    } else {
      var rest := Join(parts[1..], sep);
      var s := p + sep + rest;
      assert OccursAt(s, sep, |p|) by {
        assert s[|p|..|p| + |sep|] == sep;
      }
      FindAt(s, sep, |p|);
      assert s[..|p|] == p && s[|p| + |sep|..] == rest;
      SplitJoinAvoiding(parts[1..], sep);
      assert parts == [p] + parts[1..];
    }
  }

  /** `s` ends with `suffix`. */
  predicate EndsWith(s: String, suffix: String) {
    |suffix| <= |s| && s[|s| - |suffix|..] == suffix
  }

  /** The last piece of a split is a suffix of the string split. */
  lemma {:induction false} SplitLastIsSuffix(s: String, sep: String)
    requires |sep| > 0
    ensures var pieces := Split(s, sep); EndsWith(s, pieces[|pieces| - 1])
    decreases |s|
  {
    var f := Find(s, sep);
    if f.Some? {
      var k := f.value + |sep|;
      var pr := Split(s[k..], sep);
      var ps := Split(s, sep);
      assert ps[|ps| - 1] == pr[|pr| - 1] by {
        SplitAt(s, sep, f.value);
        assert ps == [s[..f.value]] + pr;
      }
      assert EndsWith(s[k..], pr[|pr| - 1]) by {
        SplitLastIsSuffix(s[k..], sep);
      }
      SuffixOfSuffix(s, k, pr[|pr| - 1]);
    } else {
      assert Split(s, sep) == [s];
      assert s[|s| - |s|..] == s;
    }
  }

  lemma SuffixOfSuffix(s: String, k: nat, t: String)
    requires k <= |s| && EndsWith(s[k..], t)
    ensures EndsWith(s, t)
  {
    assert s[|s| - |t|..] == s[k..][|s| - k - |t|..];
  }

  /**
   * A `||` after a text that does not end in `|` separates the last piece of
   * the split from the rest, when that piece holds no `|`.
   */
  lemma {:induction false} SplitLastAfterBars(a: String, b: String)
    requires a == [] || a[|a| - 1] != '|'
    requires '|' !in b
    ensures var pieces := Split(a + "||" + b, "||"); pieces[|pieces| - 1] == b
    decreases |a|
  {
    var s := a + "||" + b;
    FirstBarsAfter(a, b);
    var i := Find(s, "||").value;
    SplitAt(s, "||", i);
    if i < |a| {
      assert s[i + 2..] == a[i + 2..] + "||" + b;
      SplitLastAfterBars(a[i + 2..], b);
    } else {
      assert s[i + 2..] == b;
      SplitNoBars(b);
    }
  }

  /** In `a + "||" + b`, the first `||` is the one after `a` or lies wholly inside `a`. */
  lemma FirstBarsAfter(a: String, b: String)
    requires a == [] || a[|a| - 1] != '|'
    ensures var f := Find(a + "||" + b, "||"); f.Some? && (f.value == |a| || f.value + 2 <= |a|)
  {
    var s := a + "||" + b;
    assert OccursAt(s, "||", |a|) by { assert s[|a|..|a| + 2] == "||"; }
    var i := Find(s, "||").value;
    assert s[i] == s[i..i + 2][0];
    if i < |a| {
      assert s[i] == a[i];
    }
  }

  /** A text holding no `|` splits on `||` into itself. */
  lemma SplitNoBars(t: String)
    requires '|' !in t
    ensures Split(t, "||") == [t]
  {
    forall k ensures !OccursAt(t, "||", k) {
      if 0 <= k && k + 2 <= |t| {
        assert t[k] == t[k..k + 2][0];
      }
    }
    SplitNoOccurrence(t, "||");
  }

  /** A text holding no `|`, followed by `||`, is the first piece of the split. */
  lemma SplitAfterPlain(a: String, rest: String)
    requires '|' !in a
    ensures Split(a + "||" + rest, "||") == [a] + Split(rest, "||")
  {
    var s := a + "||" + rest;
    assert s[|a|..|a| + 2] == "||";
    forall k | 0 <= k < |a| ensures !OccursAt(s, "||", k) {
      assert s[k] == s[k..k + 2][0] == a[k];
    }
    FindAt(s, "||", |a|);
    SplitAt(s, "||", |a|);
    assert s[..|a|] == a && s[|a| + 2..] == rest;
  }

  /** A text holding no `||`, even one starting with `|`, splits into itself. */
  lemma SplitBarThenPlain(t: String)
    requires '|' !in t
    ensures Split("|" + t, "||") == ["|" + t]
  {
    var s := "|" + t;
    forall k ensures !OccursAt(s, "||", k) {
      if 0 <= k && k + 2 <= |s| {
        assert s[k + 1] == s[k..k + 2][1] && s[k + 1] == t[k];
      }
    }
    SplitNoOccurrence(s, "||");
  }

  /** `s` with every `c` changed into `d`. */
  function MapChar(s: String, c: char, d: char): (r: String)
    ensures |r| == |s| && forall i :: 0 <= i < |s| ==> r[i] == if s[i] == c then d else s[i]
  {
    seq(|s|, i requires 0 <= i < |s| => if s[i] == c then d else s[i])
  }

  lemma OccursAtChar(s: String, c: char, k: nat)
    requires k < |s|
    ensures OccursAt(s, [c], k) <==> s[k] == c
  {
    assert s[k..k + 1] == [s[k]];
  }

  /** Replacing one character by one character changes exactly the positions holding it. */
  lemma {:induction false} ReplaceChar(s: String, c: char, d: char)
    ensures Replace(s, [c], [d]) == MapChar(s, c, d)
    decreases |s|, 1
  {
    match Find(s, [c])
    case None =>
      forall k | 0 <= k < |s| ensures s[k] != c {
        OccursAtChar(s, c, k);
      }
      assert Split(s, [c]) == [s];
    case Some(i) =>
      ReplaceCharAt(s, c, d, i);
  }

  lemma {:induction false} ReplaceCharAt(s: String, c: char, d: char, i: nat)
    requires Find(s, [c]) == Some(i)
    ensures Replace(s, [c], [d]) == MapChar(s, c, d)
    decreases |s|, 0
  {
    var rest := s[i + 1..];
    ReplaceChar(rest, c, d);
    ReplaceAtFirst(s, c, d, i);
    MapCharAtFirst(s, c, d, i);
  }

  lemma ReplaceAtFirst(s: String, c: char, d: char, i: nat)
    requires Find(s, [c]) == Some(i)
    ensures Replace(s, [c], [d]) == s[..i] + [d] + Replace(s[i + 1..], [c], [d])
  {
    SplitAt(s, [c], i);
    JoinCons(s[..i], Split(s[i + 1..], [c]), [d]);
  }

  lemma MapCharAtFirst(s: String, c: char, d: char, i: nat)
    requires Find(s, [c]) == Some(i)
    ensures MapChar(s, c, d) == s[..i] + [d] + MapChar(s[i + 1..], c, d)
  {
    forall k | 0 <= k < i ensures s[k] != c {
      OccursAtChar(s, c, k);
    }
    OccursAtChar(s, c, i);
  }

  /** A character of a joined string comes from the separator or from one of the parts. */
  lemma {:induction false} JoinChars(parts: seq<String>, sep: String, ch: char)
    requires ch in Join(parts, sep)
    ensures ch in sep || exists i :: 0 <= i < |parts| && ch in parts[i]
    decreases |parts|
  {
    if |parts| > 1 {
      var rest := Join(parts[1..], sep);
      assert Join(parts, sep) == parts[0] + sep + rest;
      if ch !in parts[0] && ch !in sep {
        JoinChars(parts[1..], sep, ch);
        var i :| 0 <= i < |parts[1..]| && ch in parts[1..][i];
        assert parts[i + 1] == parts[1..][i];
      }
    }
  }

  /** Every character of a piece of a split is a character of the string split. */
  lemma {:induction false} SplitPiecesWithin(s: String, sep: String, p: String, ch: char)
    requires |sep| > 0 && p in Split(s, sep) && ch in p
    ensures ch in s
    decreases |s|
  {
    match Find(s, sep)
    case None =>
    case Some(i) =>
      if p == s[..i] {
        assert ch in s[..i];
      } else {
        SplitPiecesWithin(s[i + |sep|..], sep, p, ch);
        assert ch in s[i + |sep|..];
      }
  }

  /** A replacement introduces no character that neither the string nor the replacement held. */
  lemma ReplaceChars(s: String, target: String, replacement: String, ch: char)
    requires |target| > 0 && ch in Replace(s, target, replacement)
    ensures ch in s || ch in replacement
  {
    JoinChars(Split(s, target), replacement, ch);
    if ch !in replacement {
      var i :| 0 <= i < |Split(s, target)| && ch in Split(s, target)[i];
      SplitPiecesWithin(s, target, Split(s, target)[i], ch);
    }
  }

  /** Replacing a character by nothing removes it everywhere. */
  lemma ReplaceDeletes(s: String, c: char)
    ensures c !in Replace(s, [c], [])
  {
    var pieces := Split(s, [c]);
    SplitPiecesAvoidChar(s, c);
    forall i | 0 <= i < |pieces| ensures c !in pieces[i] {
      assert pieces[i] in pieces;
    }
    if c in Replace(s, [c], []) {
      JoinChars(pieces, [], c);
      assert false;
    }
  }

  /** The characters that Python's `unicode.strip()` removes (`unicode.isspace`). */
  predicate IsSpace(ch: char) {
    var n := ch as int;
    (0x09 <= n <= 0x0D) || (0x1C <= n <= 0x20) || n == 0x85 || n == 0xA0 || n == 0x1680 ||
    n == 0x180E || (0x2000 <= n <= 0x200A) || n == 0x2028 || n == 0x2029 || n == 0x202F ||
    n == 0x205F || n == 0x3000
  }

  function StripLeft(s: String): (r: String)
    ensures |r| <= |s| && r == s[|s| - |r|..]
    ensures forall k :: 0 <= k < |s| - |r| ==> IsSpace(s[k])
    ensures r != [] ==> !IsSpace(r[0])
  {
    if s != [] && IsSpace(s[0]) then StripLeft(s[1..]) else s
  }

  function StripRight(s: String): (r: String)
    ensures |r| <= |s| && r == s[..|r|]
    ensures forall k :: |r| <= k < |s| ==> IsSpace(s[k])
    ensures r != [] ==> !IsSpace(r[|r| - 1])
  {
    if s != [] && IsSpace(s[|s| - 1]) then StripRight(s[..|s| - 1]) else s
  }

  /** Python's `s.strip()`: leading and trailing whitespace removed, nothing else. */
  function Strip(s: String): (r: String)
    ensures |r| <= |s|
    ensures r != [] ==> !IsSpace(r[0]) && !IsSpace(r[|r| - 1])
    ensures (forall k :: 0 <= k < |s| ==> !IsSpace(s[k])) ==> r == s
  {
    StripRight(StripLeft(s))
  }

  /** ASCII upper-casing of one character. */
  function UpperChar(ch: char): char {
    if 'a' <= ch <= 'z' then (ch as int - 32) as char else ch
  }

  /** `s.upper()` on the ASCII letters. */
  function Upper(s: String): (r: String)
    ensures |r| == |s|
    ensures forall i :: 0 <= i < |s| ==> r[i] == UpperChar(s[i])
  {
    seq(|s|, i requires 0 <= i < |s| => UpperChar(s[i]))
  }

  /** Equality ignoring case, the comparison `a.upper() == b.upper()`. */
  predicate SameIgnoringCase(a: String, b: String) {
    Upper(a) == Upper(b)
  }

  function Digit(d: nat): (c: char)
    requires d < 10
    ensures '0' <= c <= '9'
  {
    ('0' as int + d) as char
  }

  /** `str(n)` for a natural number: its decimal digits, no leading zeros. */
  function NatToString(n: nat): (r: String)
    ensures |r| >= 1
    ensures forall i :: 0 <= i < |r| ==> '0' <= r[i] <= '9'
  {
    if n < 10 then [Digit(n)] else NatToString(n / 10) + [Digit(n % 10)]
  }

  predicate IsDigits(s: String) {
    forall i :: 0 <= i < |s| ==> '0' <= s[i] <= '9'
  }

  /** The number a string of decimal digits denotes, as `int(s)` reads it. */
  function DecimalValue(s: String): nat
    requires IsDigits(s)
  {
    if s == [] then 0 else DecimalValue(s[..|s| - 1]) * 10 + (s[|s| - 1] as int - '0' as int)
  }

  /** Reading back a number written with `str` gives the number. */
  lemma {:induction false} DecimalRoundTrip(n: nat)
    ensures DecimalValue(NatToString(n)) == n
  {
    var s := NatToString(n);
    if n < 10 {
      assert s[..|s| - 1] == [];
    } else {
      var t := NatToString(n / 10);
      assert s[..|s| - 1] == t;
      DecimalRoundTrip(n / 10);
      assert DecimalValue(s) == DecimalValue(t) * 10 + n % 10;
    }
  }
}
