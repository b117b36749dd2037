/**
 * The structural part of `Url`: splitting a CDN URL's path into version,
 * cloud name, optional zone, pattern and file path (`get_url_parts`).
 *
 * The regular expressions of the source are written as predicates over the
 * list of `/`-separated segments (segment 0 is the text before the first `/`,
 * "" for an absolute path).
 */
module UrlPath {
  import opened Wrappers
  import opened Exceptions
  import opened Strings

  /** The components `parse_url` returns (RFC 3986, section 3); a missing component is "". */
  datatype UrlComponents = UrlComponents(scheme: string, host: string, path: string, query: string)

  /** `$urlDetails` as `get_url_parts` returns it. */
  datatype UrlDetails = UrlDetails(
    protocol: string,
    host: string,
    search: string,
    version: string,
    cloudName: string,
    zoneSlug: Option<string>,
    pattern: string,
    filePath: string)

  predicate IsSlugChar(c: char)
  {
    ('a' <= c <= 'z') || ('A' <= c <= 'Z') || ('0' <= c <= '9') || c == '_' || c == '-'
  }

  /** `[a-zA-Z0-9_-]*`. */
  predicate IsSlug(s: string)
  {
    forall i | 0 <= i < |s| :: IsSlugChar(s[i])
  }

  /** VERSION2_REGEX `^v[1-2]$`. */
  predicate IsVersion(s: string)
  {
    s == "v1" || s == "v2"
  }

  /** `[a-zA-Z0-9_-]{6}` matched as a whole segment. */
  predicate IsZoneSlug(s: string)
  {
    |s| == 6 && IsSlug(s)
  }

  /** Six slug characters start at position `i` of `s`. */
  predicate ZoneSlugAt(s: string, i: nat)
    requires i + 6 <= |s|
  {
    IsZoneSlug(s[i..i + 6])
  }

  /** ZONE_SLUG `([a-zA-Z0-9_-]{6})`, unanchored: six slug characters in a row somewhere. */
  predicate ContainsZoneSlug(s: string)
  {
    exists i: nat | i + 6 <= |s| :: ZoneSlugAt(s, i)
  }

  /**
   * URL_WITH_ZONE `^/([a-zA-Z0-9_-]*)/([a-zA-Z0-9_-]{6})/(.+)/(.*)$` against
   * the segments joined by `/`: a leading `/`, a slug segment, a six-character
   * slug segment, and after them `.+/.*`, that is at least two more segments
   * whose first is non-empty or at least three more.
   */
  predicate WithZoneShape(parts: seq<string>)
  {
    && |parts| >= 5
    && parts[0] == ""
    && IsSlug(parts[1])
    && IsZoneSlug(parts[2])
    && (parts[3] != "" || |parts| >= 6)
  }

  /**
   * URL_WITHOUT_ZONE `/([a-zA-Z0-9_-]*)/(.+)/(.*)`, unanchored: some segment
   * after a `/` is a slug and is followed by `.+/.*`.
   */
  predicate WithoutZoneShape(parts: seq<string>)
  {
    exists i | 1 <= i && i + 2 < |parts| :: IsSlug(parts[i]) && (parts[i + 1] != "" || i + 3 < |parts|)
  }

  /** The segments once a version segment has been taken out (if there is one). */
  function AfterVersion(parts: seq<string>): seq<string>
  {
    if IsVersion(At(parts, 1)) then [parts[0]] + parts[2..] else parts
  }

  /** The version `UrlParts` reports: segment 1 when it is one, else v1. */
  function VersionIn(parts: seq<string>): string
  {
    if IsVersion(At(parts, 1)) then parts[1] else "v1"
  }

  /** The query `UrlParts` reports: "" for an empty or "0" query. */
  function SearchOf(query: string): string
  {
    if query != "" && query != "0" then query else ""
  }

  /**
   * What `get_url_parts` computes, read off the segments by position: with a
   * zone, segments 1, 2, 3 of what follows the version are cloud name, zone and
   * pattern; without, segments 1 and 2 are cloud name and pattern; the rest is
   * the file path.
   */
  function UrlParts(c: UrlComponents): Outcome<UrlDetails>
  {
    var parts := Split(c.path, '/');
    var version := VersionIn(parts);
    var rest := AfterVersion(parts);
    var search := SearchOf(c.query);
    if Strlen(At(rest, 1)) < 3 then Failure(InvalidUrl(INVALID_URL_MESSAGE))
    else if WithZoneShape(rest) then
      Success(UrlDetails(c.scheme, c.host, search, version, rest[1], Some(rest[2]), rest[3], Join(rest[4..], '/')))
    else if WithoutZoneShape(rest) then
      Success(UrlDetails(c.scheme, c.host, search, version, rest[1], None, rest[2], Join(rest[3..], '/')))
    else Failure(InvalidUrl(INVALID_URL_MESSAGE))
  }

  /** The zoned case of `UrlParts`, read off the segments after the version. */
  lemma UrlPartsZoned(c: UrlComponents, version: string, rest: seq<string>)
    requires version == VersionIn(Split(c.path, '/')) && rest == AfterVersion(Split(c.path, '/'))
    requires |rest| >= 4 && Strlen(rest[1]) >= 3 && WithZoneShape(rest)
    ensures UrlParts(c) == Success(UrlDetails(c.scheme, c.host, SearchOf(c.query), version,
                                              rest[1], Some(rest[2]), rest[3], Join(rest[4..], '/')))
  {
  }

  /** The unzoned case of `UrlParts`, read off the segments after the version. */
  lemma UrlPartsUnzoned(c: UrlComponents, version: string, rest: seq<string>)
    requires version == VersionIn(Split(c.path, '/')) && rest == AfterVersion(Split(c.path, '/'))
    requires |rest| >= 3 && Strlen(rest[1]) >= 3 && !WithZoneShape(rest) && WithoutZoneShape(rest)
    ensures UrlParts(c) == Success(UrlDetails(c.scheme, c.host, SearchOf(c.query), version,
                                              rest[1], None, rest[2], Join(rest[3..], '/')))
  {
  }

  /** `unset($parts[1]); $parts = array_values($parts);`. */
  function DropSecond(parts: seq<string>): (r: seq<string>)
    requires |parts| >= 2
    ensures |r| == |parts| - 1
    ensures r[0] == parts[0] && r[1..] == parts[2..]
  {
    [parts[0]] + parts[2..]
  }

  /** Taking out the second segment of `rest[0]` followed by `rest[k..]` moves on to `rest[k + 1..]`. */
  lemma DropSecondShift(rest: seq<string>, k: nat)
    requires 1 <= k < |rest|
    ensures ([rest[0]] + rest[k..])[1] == rest[k]
    ensures ([rest[0]] + rest[k..])[1..] == rest[k..]
    ensures k + 1 < |rest| ==> DropSecond([rest[0]] + rest[k..]) == [rest[0]] + rest[k + 1..]
  {
    if k + 1 < |rest| {
      assert ([rest[0]] + rest[k..])[2..] == rest[k + 1..];
    }
  }

  /** `get_url_parts`, reshaping `$parts` step by step as the source does. */
  method GetUrlParts(c: UrlComponents) returns (r: Outcome<UrlDetails>)
    ensures r == UrlParts(c)
  {
    var search := if c.query != "" && c.query != "0" then c.query else "";
    var version := "v1";
    var parts := Split(c.path, '/');
    ghost var original := parts;
    if IsVersion(At(parts, 1)) {
      version := parts[1];
      parts := DropSecond(parts);
    }
    assert parts == AfterVersion(original);
    if Strlen(At(parts, 1)) < 3 {
      return Failure(InvalidUrl(INVALID_URL_MESSAGE));
    }
    ghost var rest := parts;
    assert parts == [rest[0]] + rest[1..];
    if WithZoneShape(parts) {
      DropSecondShift(rest, 1);
      var cloudName := parts[1];
      parts := DropSecond(parts);
      DropSecondShift(rest, 2);
      var zoneSlug := parts[1];
      parts := DropSecond(parts);
      DropSecondShift(rest, 3);
      var pattern := parts[1];
      parts := DropSecond(parts);
      DropSecondShift(rest, 4);
      r := Success(UrlDetails(c.scheme, c.host, search, version, cloudName, Some(zoneSlug), pattern, Join(parts[1..], '/')));
    } else if WithoutZoneShape(parts) {
      WithoutZoneLength(parts);
      DropSecondShift(rest, 1);
      var cloudName := parts[1];
      parts := DropSecond(parts);
      DropSecondShift(rest, 2);
      var pattern := parts[1];
      parts := DropSecond(parts);
      DropSecondShift(rest, 3);
      r := Success(UrlDetails(c.scheme, c.host, search, version, cloudName, None, pattern, Join(parts[1..], '/')));
    } else {
      r := Failure(InvalidUrl(INVALID_URL_MESSAGE));
    }
  }

  // ---------------------------------------------------------------------------
  // What the decomposition promises
  // ---------------------------------------------------------------------------

  /**
   * It succeeds exactly when the segment after the version is at least three
   * bytes long and one of the two shapes matches; it fails otherwise,
   * always with InvalidUrl.
   */
  lemma UrlPartsSucceedsIff(c: UrlComponents)
    ensures var rest := AfterVersion(Split(c.path, '/'));
      UrlParts(c).Success? <==> Strlen(At(rest, 1)) >= 3 && (WithZoneShape(rest) || WithoutZoneShape(rest))
    ensures UrlParts(c).Failure? ==> UrlParts(c).error == InvalidUrl(INVALID_URL_MESSAGE)
  {
    var rest := AfterVersion(Split(c.path, '/'));
    if WithoutZoneShape(rest) && !WithZoneShape(rest) {
      var i :| 1 <= i && i + 2 < |rest| && IsSlug(rest[i]) && (rest[i + 1] != "" || i + 3 < |rest|);
    }
  }

  /** Re-splitting the joined tail of a segment list gives the tail back. */
  lemma SplitTail(rest: seq<string>, skip: nat)
    requires skip < |rest|
    requires forall j | 0 <= j < |rest| :: '/' !in rest[j]
    ensures rest == rest[..skip] + Split(Join(rest[skip..], '/'), '/')
  {
    SplitJoin(rest[skip..], '/');
  }

  /** Taking out the version segment keeps every segment free of `/`. */
  lemma AfterVersionNoSlash(path: string)
    ensures var rest := AfterVersion(Split(path, '/'));
      forall j | 0 <= j < |rest| :: '/' !in rest[j]
  {
    var parts := Split(path, '/');
    var rest := AfterVersion(parts);
    if IsVersion(At(parts, 1)) {
      forall j | 0 <= j < |rest| ensures '/' !in rest[j] {
        if j > 0 { assert rest[j] == parts[j + 1]; }
      }
    }
  }

  /** The without-zone shape leaves at least one segment for the file path. */
  lemma WithoutZoneLength(rest: seq<string>)
    requires WithoutZoneShape(rest)
    ensures |rest| > 3
  {
    var i :| 1 <= i && i + 2 < |rest| && IsSlug(rest[i]) && (rest[i + 1] != "" || i + 3 < |rest|);
  }

  /** A segment list rebuilt from its leading segments and the joined tail that follows them. */
  lemma RebuildSegments(rest: seq<string>, d: UrlDetails, zoned: bool)
    requires forall j | 0 <= j < |rest| :: '/' !in rest[j]
    requires zoned ==> |rest| >= 5 && d.cloudName == rest[1] && d.zoneSlug == Some(rest[2])
                       && d.pattern == rest[3] && d.filePath == Join(rest[4..], '/')
    requires !zoned ==> |rest| > 3 && d.cloudName == rest[1] && d.zoneSlug == None
                        && d.pattern == rest[2] && d.filePath == Join(rest[3..], '/')
    ensures rest == [rest[0], d.cloudName]
                    + (if d.zoneSlug.Some? then [d.zoneSlug.value] else [])
                    + [d.pattern]
                    + Split(d.filePath, '/')
  {
    if zoned {
      SplitTail(rest, 4);
      assert rest[..4] == [rest[0], rest[1]] + [rest[2]] + [rest[3]];
    } else {
      SplitTail(rest, 3);
      assert rest[..3] == [rest[0], rest[1]] + [] + [rest[2]];
    }
  }

  /** The segments after the version, rebuilt from the decomposition. */
  lemma AfterVersionLossless(c: UrlComponents)
    requires UrlParts(c).Success?
    ensures var d := UrlParts(c).value;
      var rest := AfterVersion(Split(c.path, '/'));
      rest == [rest[0], d.cloudName]
              + (if d.zoneSlug.Some? then [d.zoneSlug.value] else [])
              + [d.pattern]
              + Split(d.filePath, '/')
  {
    var rest := AfterVersion(Split(c.path, '/'));
    AfterVersionNoSlash(c.path);
    var zoned := WithZoneShape(rest);
    if !zoned {
      WithoutZoneLength(rest);
    }
    RebuildSegments(rest, UrlParts(c).value, zoned);
  }

  /** Putting the version segment back in front of what follows it. */
  lemma RestoreVersion(parts: seq<string>, rest: seq<string>, versionSegs: seq<string>,
                       cloudName: string, zoneSegs: seq<string>, pattern: string, fileSegs: seq<string>)
    requires |parts| >= 1 && |rest| >= 1
    requires rest == [rest[0], cloudName] + zoneSegs + [pattern] + fileSegs
    requires |versionSegs| == 1 ==> |parts| >= 2 && versionSegs == [parts[1]] && rest == [parts[0]] + parts[2..]
    requires |versionSegs| != 1 ==> versionSegs == [] && rest == parts
    ensures parts == [parts[0]] + versionSegs + [cloudName] + zoneSegs + [pattern] + fileSegs
  {
    var tail := [cloudName] + zoneSegs + [pattern] + fileSegs;
    assert rest == [rest[0]] + tail;
    if |versionSegs| == 1 {
      assert rest[1..] == parts[2..] == tail;
      assert parts == [parts[0], parts[1]] + parts[2..];
      assert parts == [parts[0]] + versionSegs + tail;
    } else {
      assert parts == [parts[0]] + versionSegs + tail;
    }
  }

  /**
   * The pieces are the path's own segments: the path splits into the leading
   * segment, the version segment if one was consumed, the cloud name, the zone
   * if one was found, the pattern, and the segments of the file path.
   */
  lemma UrlPartsLossless(c: UrlComponents)
    requires UrlParts(c).Success?
    ensures var d := UrlParts(c).value;
      var parts := Split(c.path, '/');
      parts == [parts[0]]
               + (if IsVersion(At(parts, 1)) then [d.version] else [])
               + [d.cloudName]
               + (if d.zoneSlug.Some? then [d.zoneSlug.value] else [])
               + [d.pattern]
               + Split(d.filePath, '/')
  {
    var d := UrlParts(c).value;
    var parts := Split(c.path, '/');
    AfterVersionLossless(c);
    var versionSegs := if IsVersion(At(parts, 1)) then [d.version] else [];
    assert IsVersion(At(parts, 1)) ==> d.version == parts[1];
    RestoreVersion(parts, AfterVersion(parts), versionSegs, d.cloudName,
                   if d.zoneSlug.Some? then [d.zoneSlug.value] else [], d.pattern, Split(d.filePath, '/'));
  }

  /** What a successful decomposition guarantees about each field. */
  lemma UrlPartsFields(c: UrlComponents)
    requires UrlParts(c).Success?
    ensures var d := UrlParts(c).value;
      && IsVersion(d.version)
      && (IsVersion(At(Split(c.path, '/'), 1)) <==> d.version == At(Split(c.path, '/'), 1))
      && (!IsVersion(At(Split(c.path, '/'), 1)) ==> d.version == "v1")
      && Strlen(d.cloudName) >= 3
      && (d.zoneSlug.Some? ==> IsZoneSlug(d.zoneSlug.value) && IsSlug(d.cloudName))
      && (d.zoneSlug.Some? <==> WithZoneShape(AfterVersion(Split(c.path, '/'))))
  {
  }
}
