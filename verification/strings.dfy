/**
 * The PHP string primitives the codec is built from: `explode` (Split),
 * `implode` (Join), `strlen` (the UTF-8 byte count), `str_contains`,
 * `str_starts_with`, removal of one
 * character everywhere (`str_replace` with an empty replacement) and the
 * `$arr[$i]` read of an index that may be missing.
 */
module Strings {

  /** `explode(d, s)` for a one-character separator: never empty, as in PHP. */
  function Split(s: string, d: char): (parts: seq<string>)
    ensures |parts| >= 1
    ensures forall i | 0 <= i < |parts| :: d !in parts[i]
    ensures Join(parts, d) == s
    decreases |s|
  {
    if |s| == 0 then [""]
    else
      var rest := Split(s[1..], d);
      if s[0] == d then
        [""] + rest
      else
        assert s == [s[0]] + s[1..];
        [[s[0]] + rest[0]] + rest[1..]
  }

  /** `implode(d, parts)`. */
  function Join(parts: seq<string>, d: char): string
  {
    if |parts| == 0 then ""
    else if |parts| == 1 then parts[0]
    else parts[0] + [d] + Join(parts[1..], d)
  }

  type Byte = b: int | 0 <= b < 256

  /** The UTF-8 encoding of one code point. */
  function Utf8Char(c: char): (r: seq<Byte>)
    ensures 1 <= |r| <= 4
    ensures c as int < 0x80 ==> r == [c as int]
  {
    var n := c as int;
    if n < 0x80 then [n]
    else if n < 0x800 then [0xC0 + n / 64, 0x80 + n % 64]
    else if n < 0x10000 then [0xE0 + n / 4096, 0x80 + n / 64 % 64, 0x80 + n % 64]
    else [0xF0 + n / 262144, 0x80 + n / 4096 % 64, 0x80 + n / 64 % 64, 0x80 + n % 64]
  }

  /** The UTF-8 encoding of a string: never shorter than the string. */
  function Utf8(s: string): (r: seq<Byte>)
    ensures |r| >= |s|
  {
    if |s| == 0 then [] else Utf8Char(s[0]) + Utf8(s[1..])
  }

  /** `strlen`: the number of bytes of the UTF-8 encoding. */
  function Strlen(s: string): nat
  {
    |Utf8(s)|
  }

  /** An ASCII string has one byte per character. */
  lemma {:induction false} StrlenAscii(s: string)
    requires forall i | 0 <= i < |s| :: s[i] as int < 0x80
    ensures Strlen(s) == |s|
    decreases |s|
  {
    if |s| > 0 {
      StrlenAscii(s[1..]);
    }
  }

  /** Beyond ASCII `strlen` counts bytes, not characters: "\U{e9}\U{e9}" is two characters and four bytes. */
  lemma StrlenCountsBytes()
    ensures |"\U{e9}\U{e9}"| == 2 && Strlen("\U{e9}\U{e9}") == 4
  {
    assert Utf8Char('\U{e9}') == [0xC3, 0xA9];
    assert "\U{e9}\U{e9}"[1..] == "\U{e9}";
  }

  /** The element at index `i`, or "" when PHP would read an undefined index (null). */
  function At(parts: seq<string>, i: nat): string
  {
    if i < |parts| then parts[i] else ""
  }

  predicate StartsWith(s: string, prefix: string)
  {
    |prefix| <= |s| && s[..|prefix|] == prefix
  }

  /** `str_replace(c, "", s)`: every occurrence of `c` removed. */
  function RemoveAll(s: string, c: char): (r: string)
    ensures c !in r
    ensures c !in s ==> r == s
  {
    if |s| == 0 then ""
    else if s[0] == c then RemoveAll(s[1..], c)
    else [s[0]] + RemoveAll(s[1..], c)
  }

  /** Every part is free of `d`. */
  predicate NoneContains(parts: seq<string>, d: char)
  {
    forall i | 0 <= i < |parts| :: d !in parts[i]
  }

  lemma JoinTwo(a: string, b: string, d: char)
    ensures Join([a, b], d) == a + [d] + b
  {
    assert [a, b][1..] == [b];
  }

  lemma JoinCons(a: string, rest: seq<string>, d: char)
    requires |rest| >= 1
    ensures Join([a] + rest, d) == a + [d] + Join(rest, d)
  {
    assert ([a] + rest)[1..] == rest;
  }

  /** Joining is associative over a split of the list. */
  lemma {:induction false} JoinAppend(xs: seq<string>, ys: seq<string>, d: char)
    requires |xs| >= 1 && |ys| >= 1
    ensures Join(xs + ys, d) == Join(xs, d) + [d] + Join(ys, d)
    decreases |xs|
  {
    if |xs| == 1 {
      JoinCons(xs[0], ys, d);
      assert xs + ys == [xs[0]] + ys;
    } else {
      assert xs + ys == [xs[0]] + (xs[1..] + ys);
      JoinCons(xs[0], xs[1..] + ys, d);
      JoinAppend(xs[1..], ys, d);
      JoinCons(xs[0], xs[1..], d);
      assert xs == [xs[0]] + xs[1..];
    }
  }

  /** A string without the separator splits into itself. */
  lemma {:induction false} SplitWithout(a: string, d: char)
    requires d !in a
    ensures Split(a, d) == [a]
    decreases |a|
  {
    if |a| > 0 {
      SplitWithout(a[1..], d);
      assert [a[0]] + a[1..] == a;
    }
  }

  /** Splitting stops at the first separator. */
  lemma {:induction false} SplitAtFirst(a: string, b: string, d: char)
    requires d !in a
    ensures Split(a + [d] + b, d) == [a] + Split(b, d)
    decreases |a|
  {
    var s := a + [d] + b;
    if |a| == 0 {
      assert s[1..] == b;
    } else {
      assert s[1..] == a[1..] + [d] + b;
      SplitAtFirst(a[1..], b, d);
      assert [a[0]] + a[1..] == a;
    }
  }

  /** `explode` inverts `implode` when no part holds the separator. */
  lemma {:induction false} SplitJoin(parts: seq<string>, d: char)
    requires |parts| >= 1
    requires NoneContains(parts, d)
    ensures Split(Join(parts, d), d) == parts
    decreases |parts|
  {
    if |parts| == 1 {
      SplitWithout(parts[0], d);
    } else {
      SplitJoin(parts[1..], d);
      SplitAtFirst(parts[0], Join(parts[1..], d), d);
      assert parts == [parts[0]] + parts[1..];
    }
  }

  /** The first piece of a split is the text before the first separator. */
  lemma SplitHead(a: string, b: string, d: char)
    requires d !in a
    ensures Split(a, d)[0] == a
    ensures Split(a + [d] + b, d)[0] == a
  {
    SplitWithout(a, d);
    SplitAtFirst(a, b, d);
  }

  lemma {:induction false} RemoveAllConcat(a: string, b: string, c: char)
    ensures RemoveAll(a + b, c) == RemoveAll(a, c) + RemoveAll(b, c)
    decreases |a|
  {
    if |a| > 0 {
      assert (a + b)[1..] == a[1..] + b;
      RemoveAllConcat(a[1..], b, c);
    } else {
      assert a + b == b;
    }
  }

  lemma StartsWithConcat(a: string, b: string, prefix: string)
    requires StartsWith(a, prefix)
    ensures StartsWith(a + b, prefix)
  {
    assert (a + b)[..|prefix|] == a[..|prefix|];
  }

  /** A prefix of a prefix is a prefix. */
  lemma {:induction false} StartsWithTrans(s: string, t: string, prefix: string)
    requires StartsWith(s, t) && StartsWith(t, prefix)
    ensures StartsWith(s, prefix)
  {
    assert s[..|prefix|] == s[..|t|][..|prefix|];
  }

  /** Joining more parts only extends the joined string. */
  lemma {:induction false} JoinExtends(xs: seq<string>, ys: seq<string>, d: char)
    requires |xs| >= 1
    ensures StartsWith(Join(xs + ys, d), Join(xs, d))
  {
    if |ys| == 0 {
      assert xs + ys == xs;
    } else {
      JoinAppend(xs, ys, d);
      StartsWithConcat(Join(xs, d), [d] + Join(ys, d), Join(xs, d));
      assert Join(xs, d) + [d] + Join(ys, d) == Join(xs, d) + ([d] + Join(ys, d));
    }
  }

  /** The joined string begins with the first part. */
  lemma {:induction false} JoinPrefix(parts: seq<string>, d: char)
    requires |parts| >= 1
    ensures parts[0] <= Join(parts, d)
  {
    if |parts| > 1 {
      JoinCons(parts[0], parts[1..], d);
      assert parts == [parts[0]] + parts[1..];
    }
  }

  /** A character found in no part, other than the separator, is not in the joined string. */
  lemma {:induction false} JoinAvoids(parts: seq<string>, d: char, c: char)
    requires c != d
    requires NoneContains(parts, c)
    ensures c !in Join(parts, d)
    decreases |parts|
  {
    if |parts| > 1 {
      JoinAvoids(parts[1..], d, c);
    }
  }
}
