/**
 * `Utils::create_query_string`: request parameters serialised for request
 * signing. Keys are sorted, each array value is sorted and emitted as one
 * `key=value` per element, booleans are written `true`/`false`, the pairs are
 * joined with `&` and the whole string is then URL-encoded once.
 *
 * A PHP string is taken to be the UTF-8 encoding of a Dafny string; strings are
 * ordered by code point, which is the byte order of their UTF-8 encodings.
 */
module QueryString {
  import opened Wrappers
  import opened Php
  import opened Strings

  /** A parameter value that is not an array: text or a boolean. */
  datatype Scalar = Text(s: string) | Flag(b: bool)

  /** A parameter: one scalar or a list of them. */
  datatype Param = One(value: Scalar) | Many(values: seq<Scalar>)

  /** `$params`: keys with their values, keys distinct. */
  type Params = seq<(string, Param)>

  predicate DistinctKeys(ps: Params)
  {
    forall i, j | 0 <= i < j < |ps| :: ps[i].0 != ps[j].0
  }

  // ---------------------------------------------------------------------------
  // Ordering: ksort and asort
  // ---------------------------------------------------------------------------

  /** Strict lexicographic order; a proper prefix comes first. */
  predicate LexLess(a: seq<int>, b: seq<int>)
    decreases |a|
  {
    |b| > 0 && (|a| == 0 || a[0] < b[0] || (a[0] == b[0] && LexLess(a[1..], b[1..])))
  }

  lemma {:induction false} LexLessAsymmetric(a: seq<int>, b: seq<int>)
    requires LexLess(a, b)
    ensures !LexLess(b, a)
    decreases |a|
  {
    if |a| > 0 && a[0] == b[0] {
      LexLessAsymmetric(a[1..], b[1..]);
    }
  }

  /** "Not below" is transitive. */
  lemma {:induction false} NotLessTransitive(a: seq<int>, b: seq<int>, c: seq<int>)
    requires !LexLess(b, a) && !LexLess(c, b)
    ensures !LexLess(c, a)
    decreases |a|
  {
    if |a| > 0 && |b| > 0 && |c| > 0 && a[0] == b[0] && b[0] == c[0] {
      NotLessTransitive(a[1..], b[1..], c[1..]);
    }
  }

  lemma {:induction false} LexLessTotal(a: seq<int>, b: seq<int>)
    requires a != b
    ensures LexLess(a, b) || LexLess(b, a)
    decreases |a|
  {
    if |a| > 0 && |b| > 0 && a[0] == b[0] {
      assert a == [a[0]] + a[1..] && b == [b[0]] + b[1..];
      LexLessTotal(a[1..], b[1..]);
    }
  }

  /** The code points of a string: what ksort and asort compare. */
  function CodePoints(s: string): (r: seq<int>)
    ensures |r| == |s|
    ensures forall i | 0 <= i < |s| :: r[i] == s[i] as int
  {
    seq(|s|, i requires 0 <= i < |s| => s[i] as int)
  }

  /** The ksort key of an entry: its key's code points. */
  function EntryKey(e: (string, Param)): seq<int>
  {
    CodePoints(e.0)
  }

  /**
   * The asort key of a scalar: false, then true, then text in code point order.
   * A boolean and a text compare in PHP by the text's truthiness, which is no
   * order at all; the model puts booleans first.
   */
  function ScalarKey(v: Scalar): seq<int>
  {
    match v
    case Flag(b) => [if b then 1 else 0]
    case Text(s) => [2] + CodePoints(s)
  }

  /** Sorted by a key: no element's key is below an earlier one's. */
  predicate SortedBy<T>(xs: seq<T>, key: T -> seq<int>)
  {
    forall i, j | 0 <= i < j < |xs| :: !LexLess(key(xs[j]), key(xs[i]))
  }

  function InsertBy<T>(x: T, xs: seq<T>, key: T -> seq<int>): (r: seq<T>)
    ensures multiset(r) == multiset(xs) + multiset{x}
    ensures |r| == |xs| + 1
  {
    if |xs| == 0 then [x]
    else if LexLess(key(xs[0]), key(x)) then
      var rest := InsertBy(x, xs[1..], key);
      assert xs == [xs[0]] + xs[1..];
      [xs[0]] + rest
    else [x] + xs
  }

  /** Sorting by a key, by insertion. */
  function SortBy<T>(xs: seq<T>, key: T -> seq<int>): (r: seq<T>)
    ensures multiset(r) == multiset(xs)
    ensures |r| == |xs|
  {
    if |xs| == 0 then []
    else
      assert xs == [xs[0]] + xs[1..];
      InsertBy(xs[0], SortBy(xs[1..], key), key)
  }

  lemma {:induction false} InsertBySorted<T>(x: T, xs: seq<T>, key: T -> seq<int>)
    requires SortedBy(xs, key)
    ensures SortedBy(InsertBy(x, xs, key), key)
    decreases |xs|
  {
    var r := InsertBy(x, xs, key);
    if |xs| == 0 {
    } else if LexLess(key(xs[0]), key(x)) {
      var rest := InsertBy(x, xs[1..], key);
      InsertBySorted(x, xs[1..], key);
      assert multiset(rest) == multiset(xs[1..]) + multiset{x};
      forall j | 0 < j < |r| ensures !LexLess(key(r[j]), key(r[0])) {
        assert r[j] == rest[j - 1];
        assert r[j] in multiset(rest);
        if r[j] == x {
          LexLessAsymmetric(key(xs[0]), key(x));
        } else {
          assert r[j] in multiset(xs[1..]);
          var k :| 0 <= k < |xs[1..]| && xs[1..][k] == r[j];
          assert xs[k + 1] == r[j];
        }
      }
      assert forall i, j | 0 < i < j < |r| :: r[i] == rest[i - 1] && r[j] == rest[j - 1];
    } else {
      forall j | 0 < j < |r| ensures !LexLess(key(r[j]), key(r[0])) {
        assert r[j] == xs[j - 1];
        if j > 1 {
          NotLessTransitive(key(x), key(xs[0]), key(xs[j - 1]));
        }
      }
      assert forall i, j | 0 < i < j < |r| :: r[i] == xs[i - 1] && r[j] == xs[j - 1];
    }
  }

  lemma {:induction false} SortBySorted<T>(xs: seq<T>, key: T -> seq<int>)
    ensures SortedBy(SortBy(xs, key), key)
    decreases |xs|
  {
    if |xs| > 0 {
      SortBySorted(xs[1..], key);
      InsertBySorted(xs[0], SortBy(xs[1..], key), key);
    }
  }

  /** `ksort($params)`. */
  function KSort(ps: Params): (r: Params)
    ensures multiset(r) == multiset(ps)
  {
    SortBy(ps, EntryKey)
  }

  /** `asort($value)`, keys dropped: only the order of the values matters to the caller. */
  function ASort(vs: seq<Scalar>): (r: seq<Scalar>)
    ensures multiset(r) == multiset(vs)
  {
    SortBy(vs, ScalarKey)
  }

  // ---------------------------------------------------------------------------
  // Rendering and encoding
  // ---------------------------------------------------------------------------

  /** `"$v"`, or `json_encode($v)` for a boolean. */
  function Render(v: Scalar): string
  {
    match v
    case Flag(b) => JsonBool(b)
    case Text(s) => s
  }

  /** The `key=value` lines for a key and its (sorted) scalars. */
  function Lines(key: string, vs: seq<Scalar>): (r: seq<string>)
    ensures |r| == |vs|
    decreases |vs|
  {
    if |vs| == 0 then [] else Lines(key, vs[..|vs| - 1]) + [key + "=" + Render(vs[|vs| - 1])]
  }

  /** The lines of one entry: a single line, or one per sorted array element. */
  function EntryLines(e: (string, Param)): seq<string>
  {
    match e.1
    case One(v) => [e.0 + "=" + Render(v)]
    case Many(vs) => Lines(e.0, ASort(vs))
  }

  /** `$final_params` after the given (sorted) entries. */
  function FinalParams(entries: Params): seq<string>
    decreases |entries|
  {
    if |entries| == 0 then [] else FinalParams(entries[..|entries| - 1]) + EntryLines(entries[|entries| - 1])
  }

  /** The bytes urlencode leaves as they are: ASCII letters, digits, `-`, `_`, `.`. */
  predicate Unreserved(b: int)
  {
    (97 <= b <= 122) || (65 <= b <= 90) || (48 <= b <= 57) || b == 45 || b == 95 || b == 46
  }

  /** An upper-case hexadecimal digit. */
  function HexDigit(d: nat): char
    requires d < 16
  {
    if d < 10 then ('0' as int + d) as char else ('A' as int + d - 10) as char
  }

  predicate IsHex(c: char)
  {
    ('0' <= c <= '9') || ('A' <= c <= 'F') || ('a' <= c <= 'f')
  }

  function HexValue(c: char): (d: nat)
    requires IsHex(c)
    ensures d < 16
  {
    if '0' <= c <= '9' then c as int - '0' as int
    else if 'A' <= c <= 'F' then c as int - 'A' as int + 10
    else c as int - 'a' as int + 10
  }

  /** urlencode of one byte. */
  function EncodeByte(b: Byte): (r: string)
    ensures 1 <= |r| <= 3
  {
    if Unreserved(b) then [b as char]
    else if b == 32 then "+"
    else ['%', HexDigit(b / 16), HexDigit(b % 16)]
  }

  /** `urlencode` of a byte string. */
  function UrlEncode(bs: seq<Byte>): string
  {
    if |bs| == 0 then "" else EncodeByte(bs[0]) + UrlEncode(bs[1..])
  }

  /** `urldecode` made strict: the inverse of `urlencode`, None for text it cannot have written. */
  function UrlDecode(s: string): Option<seq<Byte>>
    decreases |s|
  {
    if |s| == 0 then Some([])
    else if s[0] == '%' then
      if |s| >= 3 && IsHex(s[1]) && IsHex(s[2]) then
        match UrlDecode(s[3..])
        case None => None
        case Some(rest) => Some([HexValue(s[1]) * 16 + HexValue(s[2])] + rest)
      else None
    else if s[0] == '+' then
      match UrlDecode(s[1..])
      case None => None
      case Some(rest) => Some([32] + rest)
    else if Unreserved(s[0] as int) then
      match UrlDecode(s[1..])
      case None => None
      case Some(rest) => Some([s[0] as int] + rest)
    else None
  }

  /** `create_query_string`. */
  function CreateQuery(ps: Params): string
  {
    if |ps| == 0 then "" else UrlEncode(Utf8(Join(FinalParams(KSort(ps)), '&')))
  }

  /** One more entry adds its lines after those of the entries before it. */
  lemma FinalParamsStep(entries: Params, i: nat)
    requires i < |entries|
    ensures FinalParams(entries[..i + 1]) == FinalParams(entries[..i]) + EntryLines(entries[i])
  {
    assert entries[..i + 1][..i] == entries[..i];
  }

  /** One more value adds its line after those of the values before it. */
  lemma LinesStep(key: string, vs: seq<Scalar>, j: nat)
    requires j < |vs|
    ensures Lines(key, vs[..j + 1]) == Lines(key, vs[..j]) + [key + "=" + Render(vs[j])]
  {
    assert vs[..j + 1][..j] == vs[..j];
  }

  /** `create_query_string`: ksort, then the nested loops filling `$final_params`, then implode and urlencode. */
  method CreateQueryString(params: Params) returns (queryString: string)
    ensures queryString == CreateQuery(params)
  {
    queryString := "";
    if |params| > 0 {
      var sorted := KSort(params);
      var finalParams: seq<string> := [];
      for i := 0 to |sorted|
        invariant finalParams == FinalParams(sorted[..i])
      {
        FinalParamsStep(sorted, i);
        var key := sorted[i].0;
        match sorted[i].1 {
          case Many(vs) =>
            finalParams := AppendLines(finalParams, key, ASort(vs));
          case One(v) =>
            finalParams := finalParams + [key + "=" + Render(v)];
        }
      }
      assert sorted[..|sorted|] == sorted;
      queryString := UrlEncode(Utf8(Join(finalParams, '&')));
    }
  }

  /** The inner loop of `create_query_string`: one `key=value` line per sorted array element. */
  method AppendLines(finalParams: seq<string>, key: string, values: seq<Scalar>) returns (r: seq<string>)
    ensures r == finalParams + Lines(key, values)
  {
    r := finalParams;
    for j := 0 to |values|
      invariant r == finalParams + Lines(key, values[..j])
    {
      LinesStep(key, values, j);
      r := r + [key + "=" + Render(values[j])];
    }
    assert values[..|values|] == values;
  }

  // ---------------------------------------------------------------------------
  // What the serialiser promises
  // ---------------------------------------------------------------------------

  /** Distinct keys under a key function. */
  predicate KeysDistinct<T>(xs: seq<T>, key: T -> seq<int>)
  {
    forall i, j | 0 <= i < j < |xs| :: key(xs[i]) != key(xs[j])
  }

  lemma {:induction false} InsertByDistinct<T>(x: T, xs: seq<T>, key: T -> seq<int>)
    requires KeysDistinct(xs, key)
    requires forall i | 0 <= i < |xs| :: key(xs[i]) != key(x)
    ensures KeysDistinct(InsertBy(x, xs, key), key)
    decreases |xs|
  {
    if |xs| > 0 && LexLess(key(xs[0]), key(x)) {
      var rest := InsertBy(x, xs[1..], key);
      InsertByDistinct(x, xs[1..], key);
      var r := [xs[0]] + rest;
      forall j | 0 < j < |r| ensures key(r[0]) != key(r[j]) {
        assert r[j] == rest[j - 1];
        assert r[j] in multiset(rest);
        if r[j] != x {
          assert r[j] in multiset(xs[1..]);
          var k :| 0 <= k < |xs[1..]| && xs[1..][k] == r[j];
          assert xs[k + 1] == r[j];
        }
      }
      assert forall i, j | 0 < i < j < |r| :: r[i] == rest[i - 1] && r[j] == rest[j - 1];
    } else if |xs| > 0 {
      var r := [x] + xs;
      assert forall i, j | 0 < i < j < |r| :: r[i] == xs[i - 1] && r[j] == xs[j - 1];
    }
  }

  lemma {:induction false} SortByDistinct<T>(xs: seq<T>, key: T -> seq<int>)
    requires KeysDistinct(xs, key)
    ensures KeysDistinct(SortBy(xs, key), key)
    decreases |xs|
  {
    if |xs| > 0 {
      var tail := xs[1..];
      assert KeysDistinct(tail, key) by {
        assert forall i, j | 0 <= i < j < |tail| :: tail[i] == xs[i + 1] && tail[j] == xs[j + 1];
      }
      SortByDistinct(tail, key);
      var sorted := SortBy(tail, key);
      forall i | 0 <= i < |sorted| ensures key(sorted[i]) != key(xs[0]) {
        assert sorted[i] in multiset(tail);
        var k :| 0 <= k < |tail| && tail[k] == sorted[i];
        assert xs[k + 1] == sorted[i];
      }
      InsertByDistinct(xs[0], sorted, key);
    }
  }

  lemma CodePointsInjective(a: string, b: string)
    requires CodePoints(a) == CodePoints(b)
    ensures a == b
  {
    assert forall i | 0 <= i < |a| :: a[i] as int == CodePoints(a)[i] == CodePoints(b)[i] == b[i] as int;
  }

  /**
   * `ksort` leaves the entries of the parameters in strictly ascending key
   * order: the same entries, each key once, every key below the next.
   */
  lemma KSortAscending(ps: Params)
    requires DistinctKeys(ps)
    ensures multiset(KSort(ps)) == multiset(ps) && |KSort(ps)| == |ps|
    ensures DistinctKeys(KSort(ps))
    ensures forall i, j | 0 <= i < j < |KSort(ps)| :: LexLess(CodePoints(KSort(ps)[i].0), CodePoints(KSort(ps)[j].0))
  {
    var r := KSort(ps);
    assert KeysDistinct(ps, EntryKey) by {
      forall i, j | 0 <= i < j < |ps| ensures EntryKey(ps[i]) != EntryKey(ps[j]) {
        if EntryKey(ps[i]) == EntryKey(ps[j]) {
          CodePointsInjective(ps[i].0, ps[j].0);
        }
      }
    }
    SortByDistinct(ps, EntryKey);
    SortBySorted(ps, EntryKey);
    forall i, j | 0 <= i < j < |r| ensures LexLess(CodePoints(r[i].0), CodePoints(r[j].0)) && r[i].0 != r[j].0 {
      assert EntryKey(r[i]) != EntryKey(r[j]);
      LexLessTotal(EntryKey(r[i]), EntryKey(r[j]));
    }
  }

  /** `asort` keeps the values and orders them: false, true, then texts in code point order. */
  lemma ASortOrdered(vs: seq<Scalar>)
    ensures multiset(ASort(vs)) == multiset(vs) && |ASort(vs)| == |vs|
    ensures forall i, j | 0 <= i < j < |ASort(vs)| :: !LexLess(ScalarKey(ASort(vs)[j]), ScalarKey(ASort(vs)[i]))
    ensures forall i, j | 0 <= i < j < |ASort(vs)| && ASort(vs)[i].Text? :: ASort(vs)[j].Text?
  {
    SortBySorted(vs, ScalarKey);
    var r := ASort(vs);
    forall i, j | 0 <= i < j < |r| && r[i].Text? ensures r[j].Text? {
      assert !LexLess(ScalarKey(r[j]), ScalarKey(r[i]));
    }
  }

  /** The lines of a key hold, in order, `key=` and each value rendered, booleans as `true`/`false`. */
  lemma {:induction false} LinesMeaning(key: string, vs: seq<Scalar>)
    ensures forall i | 0 <= i < |vs| :: Lines(key, vs)[i] == key + "=" + Render(vs[i])
    ensures forall i | 0 <= i < |vs| && vs[i].Flag? ::
      Lines(key, vs)[i] == key + "=" + (if vs[i].b then "true" else "false")
    decreases |vs|
  {
    if |vs| > 0 {
      var n := |vs| - 1;
      LinesMeaning(key, vs[..n]);
      assert forall i | 0 <= i < n :: vs[..n][i] == vs[i];
    }
  }

  /** One line per scalar entry and one per array element. */
  function LineCount(entries: Params): nat
  {
    if |entries| == 0 then 0
    else (match entries[0].1 case One(_) => 1 case Many(vs) => |vs|) + LineCount(entries[1..])
  }

  lemma {:induction false} LineCountSnoc(entries: Params)
    requires |entries| > 0
    ensures LineCount(entries) == LineCount(entries[..|entries| - 1]) + |EntryLines(entries[|entries| - 1])|
    decreases |entries|
  {
    var n := |entries| - 1;
    if n > 0 {
      LineCountSnoc(entries[1..]);
      assert entries[1..][..n - 1] == entries[..n][1..];
    }
    var e := entries[n];
    match e.1 {
      case Many(vs) => assert |ASort(vs)| == |vs|;
      case One(_) =>
    }
  }

  /** `$final_params` holds exactly one line per scalar and per array element. */
  lemma {:induction false} FinalParamsCount(entries: Params)
    ensures |FinalParams(entries)| == LineCount(entries)
    decreases |entries|
  {
    if |entries| > 0 {
      FinalParamsCount(entries[..|entries| - 1]);
      LineCountSnoc(entries);
    }
  }

  lemma HexRoundTrip(d: nat)
    requires d < 16
    ensures IsHex(HexDigit(d)) && HexValue(HexDigit(d)) == d
  {
  }

  /** Decoding one encoded byte and then the rest gives that byte before the rest. */
  lemma DecodeByte(b: Byte, rest: string)
    ensures UrlDecode(EncodeByte(b) + rest) ==
      match UrlDecode(rest) case None => None case Some(r) => Some([b] + r)
  {
    var s := EncodeByte(b) + rest;
    if Unreserved(b) {
      assert s[0] == b as char && s[1..] == rest;
    } else if b == 32 {
      assert s[0] == '+' && s[1..] == rest;
    } else {
      HexRoundTrip(b / 16);
      HexRoundTrip(b % 16);
      assert s[0] == '%' && s[1] == HexDigit(b / 16) && s[2] == HexDigit(b % 16) && s[3..] == rest;
    }
  }

  /** `urldecode` undoes `urlencode`: nothing is lost by encoding. */
  lemma {:induction false} UrlDecodeEncode(bs: seq<Byte>)
    ensures UrlDecode(UrlEncode(bs)) == Some(bs)
    decreases |bs|
  {
    if |bs| > 0 {
      UrlDecodeEncode(bs[1..]);
      DecodeByte(bs[0], UrlEncode(bs[1..]));
      assert [bs[0]] + bs[1..] == bs;
    }
  }

  /** The characters urlencode writes: unreserved ones, `+`, `%` and hex digits. */
  predicate UrlSafe(c: char)
  {
    Unreserved(c as int) || c == '+' || c == '%' || ('A' <= c <= 'F')
  }

  /** The encoded query is a single URL-safe token: no `&`, `=` or space survives encoding. */
  lemma {:induction false} UrlEncodeSafe(bs: seq<Byte>)
    ensures forall i | 0 <= i < |UrlEncode(bs)| :: UrlSafe(UrlEncode(bs)[i])
    decreases |bs|
  {
    if |bs| > 0 {
      UrlEncodeSafe(bs[1..]);
      var head := EncodeByte(bs[0]);
      var r := UrlEncode(bs);
      assert forall i | 0 <= i < |head| :: UrlSafe(head[i]);
      assert forall i | |head| <= i < |r| :: r[i] == UrlEncode(bs[1..])[i - |head|];
    }
  }

  /** No parameters give the empty string; otherwise decoding the result gives back the UTF-8 of the joined lines. */
  lemma CreateQueryDecodes(ps: Params)
    ensures |ps| == 0 ==> CreateQuery(ps) == ""
    ensures |ps| > 0 ==> UrlDecode(CreateQuery(ps)) == Some(Utf8(Join(FinalParams(KSort(ps)), '&')))
  {
    if |ps| > 0 {
      UrlDecodeEncode(Utf8(Join(FinalParams(KSort(ps)), '&')));
    }
  }
}
