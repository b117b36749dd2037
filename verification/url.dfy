/**
 * The `Url` facade: a CDN URL read into its object form (`url_to_obj`) and an
 * object written back as a URL (`obj_to_url`).
 *
 * `parse_url` is not part of this model: a URL arrives already split into
 * scheme, host, path and query (section 3 of RFC 3986).
 */
module Url {
  import opened Wrappers
  import opened Exceptions
  import opened Strings
  import opened Php
  import opened UrlPattern
  import opened UrlPath
  import opened UrlQuery

  const BASE_URL: string := "https://cdn.pixelbin.io"

  /** What `get_parts_from_url` returns. */
  datatype Parts = Parts(
    baseUrl: string,
    version: string,
    cloudName: string,
    zone: Option<string>,
    pattern: string,
    filePath: string,
    options: Options)

  /** What `url_to_obj` returns: the parts and the parsed transformations. */
  datatype UrlObject = UrlObject(parts: Parts, transformations: seq<Operation>)

  /**
   * The object `obj_to_url` is given; None is a missing key. A null baseUrl,
   * version, cloudName, zone, filePath, operation name or parameter is
   * Some("") here, which the writer treats like an empty one; an integer,
   * float or boolean parameter is its PHP string form.
   */
  datatype UrlDescriptor = UrlDescriptor(
    baseUrl: Option<string>,
    version: Option<string>,
    cloudName: Option<string>,
    zone: Option<string>,
    filePath: Option<string>,
    options: Option<Options>,
    transformations: Option<seq<OperationDescriptor>>)

  // ---------------------------------------------------------------------------
  // Reading: url_to_obj
  // ---------------------------------------------------------------------------

  /** `get_parts_from_url`: the path decomposed, the query read, protocol and host joined into the base URL. */
  function PartsFromUrl(c: UrlComponents): Outcome<Parts>
  {
    var d :- UrlParts(c);
    var options :- QueryParams(d.search);
    Success(Parts(d.protocol + "://" + d.host, d.version, d.cloudName, d.zoneSlug, d.pattern, d.filePath, options))
  }

  /**
   * `url_to_obj` / `get_obj_from_url`: an empty (or "0") pattern has no
   * transformations; otherwise the pattern is parsed. Parsing a pattern never
   * raises, so the InvalidUrl wrapping of its errors has nothing to wrap.
   */
  function UrlToObj(c: UrlComponents): Outcome<UrlObject>
  {
    var p :- PartsFromUrl(c);
    Success(UrlObject(p, if FalsyString(p.pattern) then [] else ParsePattern(p.pattern)))
  }

  // ---------------------------------------------------------------------------
  // Writing: obj_to_url
  // ---------------------------------------------------------------------------

  /** The segments `!empty` keeps, in order. */
  function KeptSegments(values: seq<string>): seq<string>
    decreases |values|
  {
    if |values| == 0 then []
    else
      var last := values[|values| - 1];
      KeptSegments(values[..|values| - 1]) + (if FalsyString(last) then [] else [last])
  }

  /** The pattern written for a list of transformations; "original" when the list is empty. */
  function PatternOf(transformations: seq<OperationDescriptor>): Outcome<string>
  {
    var patternValue :- PatternFromTransformations(transformations);
    Success(patternValue.GetOr(ORIGINAL))
  }

  /** `version` kept only when it is v1 or v2. */
  function VersionOf(version: Option<string>): string
  {
    if version.Some? && IsVersion(version.value) then version.value else "v2"
  }

  /** `zone` kept only when it contains six slug characters. */
  function ZoneOf(zone: Option<string>): string
  {
    if zone.Some? && ContainsZoneSlug(zone.value) then zone.value else ""
  }

  /** The URL from its kept segments and query items. */
  function Assemble(segments: seq<string>, queryItems: seq<string>): string
  {
    var urlStr := Join(segments, '/');
    if |queryItems| > 0 then urlStr + "?" + Join(queryItems, '&') else urlStr
  }

  /**
   * The body of `get_url_from_obj`, given the query items the options yield:
   * the required keys checked in order, then the pattern, then the items (an
   * options failure comes after a pattern failure), then the URL assembled.
   */
  function WriteUrl(o: UrlDescriptor, queryItems: Outcome<seq<string>>): Outcome<string>
  {
    var baseUrl := o.baseUrl.GetOr(BASE_URL);
    if o.cloudName.None? then Failure(IllegalArgument("key cloudName should be defined"))
    else if o.filePath.None? then Failure(IllegalArgument("key filePath should be defined"))
    else if o.transformations.None? then
      Failure(TypeError("count(): Argument #1 ($value) must be of type Countable|array, null given"))
    else
      var pattern :- PatternOf(o.transformations.value);
      var segments := KeptSegments([baseUrl, VersionOf(o.version), o.cloudName.value, ZoneOf(o.zone), pattern, o.filePath.value]);
      var items :- queryItems;
      Success(Assemble(segments, items))
  }

  /**
   * `obj_to_url` / `get_url_from_obj` as written: the options are read by
   * position (`array_values`), the first value taken for dpr and the second
   * for f_auto, whatever their names.
   */
  function ObjToUrl(o: UrlDescriptor): Outcome<string>
  {
    WriteUrl(o, PositionalOptionItems(o.options.GetOr([])))
  }

  /** `obj_to_url` as intended: dpr and f_auto looked up by name. */
  function KeyedObjToUrl(o: UrlDescriptor): Outcome<string>
  {
    WriteUrl(o, KeyedOptionItems(o.options.GetOr([])))
  }

  /** A descriptor with every required key and a readable pattern is written as the assembled segments and items. */
  lemma WriteUrlWritten(o: UrlDescriptor, pattern: string, queryItems: seq<string>)
    requires o.cloudName.Some? && o.filePath.Some? && o.transformations.Some?
    requires PatternOf(o.transformations.value) == Success(pattern)
    ensures WriteUrl(o, Success(queryItems))
      == Success(Assemble(KeptSegments([o.baseUrl.GetOr(BASE_URL), VersionOf(o.version), o.cloudName.value,
                                        ZoneOf(o.zone), pattern, o.filePath.value]), queryItems))
  {
  }

  /** The `foreach` of `get_url_from_obj` that keeps the truthy segments, in order. */
  method KeepSegments(values: seq<string>) returns (kept: seq<string>)
    ensures kept == KeptSegments(values)
  {
    kept := [];
    for i := 0 to |values|
      invariant kept == KeptSegments(values[..i])
    {
      assert values[..i + 1][..i] == values[..i];
      if !FalsyString(values[i]) {
        kept := kept + [values[i]];
      }
    }
    assert values[..|values|] == values;
  }

  /** `get_url_from_obj`, gathering the URL segments with a loop as the source does. */
  method GetUrlFromObj(o: UrlDescriptor) returns (r: Outcome<string>)
    ensures r == ObjToUrl(o)
  {
    var baseUrl := if o.baseUrl.Some? then o.baseUrl.value else BASE_URL;
    if o.cloudName.None? {
      return Failure(IllegalArgument("key cloudName should be defined"));
    }
    if o.filePath.None? {
      return Failure(IllegalArgument("key filePath should be defined"));
    }
    if o.transformations.None? {
      return Failure(TypeError("count(): Argument #1 ($value) must be of type Countable|array, null given"));
    }
    var patternValue := PatternFromTransformations(o.transformations.value);
    if patternValue.Failure? {
      assert PatternOf(o.transformations.value) == Failure(patternValue.error);
      return Failure(patternValue.error);
    }
    var pattern := if patternValue.value.Some? then patternValue.value.value else ORIGINAL;
    assert PatternOf(o.transformations.value) == Success(pattern);
    var version := if o.version.Some? && IsVersion(o.version.value) then o.version.value else "v2";
    var zone := if o.zone.Some? && ContainsZoneSlug(o.zone.value) then o.zone.value else "";
    var urlKeySorted := [baseUrl, version, o.cloudName.value, zone, pattern, o.filePath.value];
    var urlArr := KeepSegments(urlKeySorted);
    var queryArr := PositionalOptionItems(if o.options.Some? then o.options.value else []);
    if queryArr.Failure? {
      assert o.options.GetOr([]) == (if o.options.Some? then o.options.value else []);
      return Failure(queryArr.error);
    }
    var urlStr := Join(urlArr, '/');
    if |queryArr.value| > 0 {
      urlStr := urlStr + "?" + Join(queryArr.value, '&');
    }
    assert urlStr == Assemble(urlArr, queryArr.value);
    WriteUrlWritten(o, pattern, queryArr.value);
    r := Success(urlStr);
  }

  // ---------------------------------------------------------------------------
  // What writing promises
  // ---------------------------------------------------------------------------

  /** Kept segments are the non-empty ones, in order: nothing falsy survives and nothing else is dropped. */
  lemma {:induction false} KeptSegmentsMeaning(values: seq<string>)
    ensures forall i | 0 <= i < |KeptSegments(values)| :: !FalsyString(KeptSegments(values)[i])
    ensures |KeptSegments(values)| <= |values|
    ensures KeptSegments(values) == values <==> forall i | 0 <= i < |values| :: !FalsyString(values[i])
    decreases |values|
  {
    if |values| > 0 {
      var n := |values| - 1;
      var prefix := values[..n];
      KeptSegmentsMeaning(prefix);
      assert forall i | 0 <= i < n :: prefix[i] == values[i];
      if forall i | 0 <= i < |values| :: !FalsyString(values[i]) {
        assert values == prefix + [values[n]];
      }
    }
  }

  /**
   * Writing fails for a missing cloud name, file path or transformation list
   * (checked in that order), then for an operation with an incomplete
   * parameter, then for options the positional reading rejects; it succeeds
   * otherwise.
   */
  lemma ObjToUrlFailures(o: UrlDescriptor)
    ensures o.cloudName.None? ==> ObjToUrl(o) == Failure(IllegalArgument("key cloudName should be defined"))
    ensures o.cloudName.Some? && o.filePath.None? ==> ObjToUrl(o) == Failure(IllegalArgument("key filePath should be defined"))
    ensures o.cloudName.Some? && o.filePath.Some? && o.transformations.None? ==> ObjToUrl(o).Failure? && ObjToUrl(o).error.TypeError?
    ensures o.cloudName.Some? && o.filePath.Some? && o.transformations.Some? ==>
      (ObjToUrl(o).Failure? <==>
        PatternFromTransformations(o.transformations.value).Failure? || PositionalOptionItems(o.options.GetOr([])).Failure?)
    ensures o.cloudName.Some? && o.filePath.Some? && o.transformations.Some? ==>
      && (PatternFromTransformations(o.transformations.value).Failure? ==>
            ObjToUrl(o).error == PatternFromTransformations(o.transformations.value).error)
      && (PatternFromTransformations(o.transformations.value).Success? && PositionalOptionItems(o.options.GetOr([])).Failure? ==>
            ObjToUrl(o).error == PositionalOptionItems(o.options.GetOr([])).error)
  {
  }

  /**
   * The version segment written is the given one when it is v1 or v2, and v2
   * otherwise; the zone segment is the given one when it holds a zone slug,
   * and empty (so dropped) otherwise. In the URL, the version segment follows
   * a truthy base directly, and a truthy cloud name follows the version.
   */
  lemma WrittenVersionAndZone(o: UrlDescriptor)
    ensures IsVersion(VersionOf(o.version))
    ensures o.version.Some? && IsVersion(o.version.value) ==> VersionOf(o.version) == o.version.value
    ensures !(o.version.Some? && IsVersion(o.version.value)) ==> VersionOf(o.version) == "v2"
    ensures ZoneOf(o.zone) == "" || ContainsZoneSlug(ZoneOf(o.zone))
    ensures o.zone.Some? && ContainsZoneSlug(o.zone.value) ==> ZoneOf(o.zone) == o.zone.value
    ensures !(o.zone.Some? && ContainsZoneSlug(o.zone.value)) ==> ZoneOf(o.zone) == ""
    ensures ObjToUrl(o).Success? && !FalsyString(o.baseUrl.GetOr(BASE_URL)) && !(o.version.Some? && IsVersion(o.version.value)) ==>
      StartsWith(ObjToUrl(o).value, o.baseUrl.GetOr(BASE_URL) + "/v2")
    ensures ObjToUrl(o).Success? && !FalsyString(o.baseUrl.GetOr(BASE_URL)) && !FalsyString(o.cloudName.value) ==>
      StartsWith(ObjToUrl(o).value, o.baseUrl.GetOr(BASE_URL) + "/" + VersionOf(o.version) + "/" + o.cloudName.value)
  {
    if ObjToUrl(o).Success? && !FalsyString(o.baseUrl.GetOr(BASE_URL)) {
      var pattern := PatternOf(o.transformations.value).value;
      var items := PositionalOptionItems(o.options.GetOr([])).value;
      WriteUrlWritten(o, pattern, items);
      var values := [o.baseUrl.GetOr(BASE_URL), VersionOf(o.version), o.cloudName.value, ZoneOf(o.zone), pattern, o.filePath.value];
      KeptFront(values, items);
    }
  }

  /**
   * Segments led by a truthy base and a version are written as `base/version`,
   * followed by `/` and the third segment when that one is truthy.
   */
  lemma {:induction false} KeptFront(values: seq<string>, items: seq<string>)
    requires |values| >= 3 && !FalsyString(values[0]) && IsVersion(values[1])
    ensures StartsWith(Assemble(KeptSegments(values), items), values[0] + "/" + values[1])
    ensures !FalsyString(values[2]) ==>
      StartsWith(Assemble(KeptSegments(values), items), values[0] + "/" + values[1] + "/" + values[2])
  {
    var v0, v1, v2 := values[0], values[1], values[2];
    var kept := KeptSegments(values);
    KeptLead(values);
    KeptLead(values[1..]);
    assert values[1..][1..] == values[2..];
    assert kept == [v0, v1] + KeptSegments(values[2..]);
    AssembleExtends(kept, items);
    JoinExtends([v0, v1], KeptSegments(values[2..]), '/');
    JoinTwo(v0, v1, '/');
    StartsWithTrans(Assemble(kept, items), Join(kept, '/'), v0 + "/" + v1);
    if !FalsyString(v2) {
      KeptLead(values[2..]);
      assert values[2..][1..] == values[3..];
      assert kept == [v0, v1, v2] + KeptSegments(values[3..]);
      JoinExtends([v0, v1, v2], KeptSegments(values[3..]), '/');
      JoinThree(v0, v1, v2, '/');
      StartsWithTrans(Assemble(kept, items), Join(kept, '/'), v0 + "/" + v1 + "/" + v2);
    }
  }

  /** A truthy first segment is kept in front of what the others keep. */
  lemma {:induction false} KeptLead(values: seq<string>)
    requires |values| >= 1 && !FalsyString(values[0])
    ensures KeptSegments(values) == [values[0]] + KeptSegments(values[1..])
  {
    KeptSegmentsAt(values, 0);
    assert values[..0] == [];
  }

  /** Three parts joined. */
  lemma {:induction false} JoinThree(a: string, b: string, c: string, d: char)
    ensures Join([a, b, c], d) == a + [d] + b + [d] + c
  {
    JoinCons(a, [b, c], d);
    assert [a, b, c] == [a] + [b, c];
    JoinTwo(b, c, d);
  }

  /** The query part only extends the joined segments. */
  lemma {:induction false} AssembleExtends(segments: seq<string>, items: seq<string>)
    ensures StartsWith(Assemble(segments, items), Join(segments, '/'))
  {
    var joined := Join(segments, '/');
    if |items| > 0 {
      StartsWithConcat(joined, "?" + Join(items, '&'), joined);
      assert Assemble(segments, items) == joined + ("?" + Join(items, '&'));
    } else {
      assert joined[..|joined|] == joined;
    }
  }

  /**
   * The URL written begins with the base URL and a `/`: the given one when it
   * is truthy, and `https://cdn.pixelbin.io` when none is given.
   */
  lemma WrittenBaseUrl(o: UrlDescriptor)
    ensures ObjToUrl(o).Success? && o.baseUrl.None? ==> StartsWith(ObjToUrl(o).value, BASE_URL + "/")
    ensures ObjToUrl(o).Success? && o.baseUrl.Some? && !FalsyString(o.baseUrl.value) ==>
      StartsWith(ObjToUrl(o).value, o.baseUrl.value + "/")
  {
    if ObjToUrl(o).Success? {
      var pattern := PatternOf(o.transformations.value).value;
      var items := PositionalOptionItems(o.options.GetOr([])).value;
      WriteUrlWritten(o, pattern, items);
      var base := o.baseUrl.GetOr(BASE_URL);
      if !FalsyString(base) {
        var values := [base, VersionOf(o.version), o.cloudName.value, ZoneOf(o.zone), pattern, o.filePath.value];
        KeptFront(values, items);
        var lead := base + "/";
        assert StartsWith(lead, lead) by { assert lead[..|lead|] == lead; }
        StartsWithConcat(lead, VersionOf(o.version), lead);
        StartsWithTrans(Assemble(KeptSegments(values), items), lead + VersionOf(o.version), lead);
      }
    }
  }

  // ---------------------------------------------------------------------------
  // The round trip: write a canonical object, read the URL back
  // ---------------------------------------------------------------------------

  /** The pattern text of well-formed operations. */
  function PatternText(ops: seq<Operation>): string
    requires AllWellFormed(ops)
  {
    if |ops| == 0 then ORIGINAL else Join(Tokens(ops), OPERATION_SEPARATOR)
  }

  /** The pattern text is what the writer produces, reads back as the operations, and is never a zone slug. */
  lemma PatternTextFacts(ops: seq<Operation>)
    requires AllWellFormed(ops)
    ensures PatternOf(DescribeAll(ops)) == Success(PatternText(ops))
    ensures !FalsyString(PatternText(ops)) && !IsZoneSlug(PatternText(ops))
    ensures ParsePattern(PatternText(ops)) == ops
  {
    var p := PatternText(ops);
    if |ops| == 0 {
      assert DescribeAll(ops) == [];
      assert |p| == 8;
    } else {
      PatternRoundTrip(ops);
      JoinPrefix(Tokens(ops), OPERATION_SEPARATOR);
      TokenAvoidsTilde(ops[0]);
      var t := Tokens(ops)[0];
      assert t <= p;
      var j :| 0 <= j < |t| && (t[j] == ':' || t[j] == '.');
      assert p[j] == t[j];
      assert !IsSlug(p) by { assert !IsSlugChar(p[j]); }
    }
  }

  /** The path segments between the base URL and the file path. */
  function MiddleSegments(version: string, cloudName: string, zone: Option<string>, pattern: string): seq<string>
  {
    [version, cloudName] + (if zone.Some? then [zone.value] else []) + [pattern]
  }

  /** Segments without `/` followed by a tail split back into themselves and the tail's own segments. */
  lemma {:induction false} SplitSegments(segs: seq<string>, tail: string)
    requires forall i | 0 <= i < |segs| :: '/' !in segs[i]
    ensures Split(Join(segs + [tail], '/'), '/') == segs + Split(tail, '/')
    decreases |segs|
  {
    if |segs| == 0 {
      assert segs + [tail] == [tail];
    } else {
      var rest := segs[1..] + [tail];
      calc {
        Split(Join(segs + [tail], '/'), '/');
        { assert segs + [tail] == [segs[0]] + rest; }
        Split(Join([segs[0]] + rest, '/'), '/');
        { JoinCons(segs[0], rest, '/'); }
        Split(segs[0] + ['/'] + Join(rest, '/'), '/');
        { SplitAtFirst(segs[0], Join(rest, '/'), '/'); }
        [segs[0]] + Split(Join(rest, '/'), '/');
        { SplitSegments(segs[1..], tail); }
        [segs[0]] + (segs[1..] + Split(tail, '/'));
        { assert segs == [segs[0]] + segs[1..]; }
        segs + Split(tail, '/');
      }
    }
  }

  /** The requirements on an object for the round trip. */
  predicate Canonical(scheme: string, host: string, version: string, cloudName: string, zone: Option<string>,
                      filePath: string, ops: seq<Operation>, tenths: Option<nat>)
  {
    && IsVersion(version)
    && IsSlug(cloudName) && |cloudName| >= 3
    && (zone.Some? ==> IsZoneSlug(zone.value))
    && !FalsyString(filePath)
    && AllWellFormed(ops) && '/' !in PatternText(ops)
    && (tenths.Some? ==> 1 <= tenths.value <= 50)
  }

  /** The descriptor the round trip writes. */
  function CanonicalDescriptor(scheme: string, host: string, version: string, cloudName: string, zone: Option<string>,
                               filePath: string, ops: seq<Operation>, tenths: Option<nat>, fAuto: bool): UrlDescriptor
  {
    UrlDescriptor(Some(scheme + "://" + host), Some(version), Some(cloudName), zone, Some(filePath),
                  Some(CanonicalOptions(tenths, fAuto)), Some(DescribeAll(ops)))
  }

  /** The URL path the round trip writes. */
  function CanonicalPath(version: string, cloudName: string, zone: Option<string>, pattern: string, filePath: string): string
  {
    "/" + Join(MiddleSegments(version, cloudName, zone, pattern) + [filePath], '/')
  }

  lemma ZoneSlugContained(z: string)
    requires IsZoneSlug(z)
    ensures ContainsZoneSlug(z)
  {
    assert z[0..6] == z;
    assert ZoneSlugAt(z, 0);
  }

  /** Kept segments of a concatenation are the kept segments of each part. */
  lemma {:induction false} KeptSegmentsConcat(xs: seq<string>, ys: seq<string>)
    ensures KeptSegments(xs + ys) == KeptSegments(xs) + KeptSegments(ys)
    decreases |ys|
  {
    if |ys| == 0 {
      assert xs + ys == xs;
    } else {
      var n := |ys| - 1;
      assert (xs + ys)[..|xs + ys| - 1] == xs + ys[..n];
      KeptSegmentsConcat(xs, ys[..n]);
    }
  }

  /**
   * Exactly the truthy values are kept, in their order: a truthy value stays
   * between the values kept before it and those kept after it, and a falsy one
   * is dropped without disturbing the others.
   */
  lemma {:induction false} KeptSegmentsAt(values: seq<string>, i: nat)
    requires i < |values|
    ensures !FalsyString(values[i]) ==>
      KeptSegments(values) == KeptSegments(values[..i]) + [values[i]] + KeptSegments(values[i + 1..])
    ensures FalsyString(values[i]) ==>
      KeptSegments(values) == KeptSegments(values[..i]) + KeptSegments(values[i + 1..])
  {
    var before, v, after := values[..i], values[i], values[i + 1..];
    calc {
      KeptSegments(values);
      { assert values == before + [v] + after; }
      KeptSegments(before + [v] + after);
      { KeptAround(before, v, after); }
      KeptSegments(before) + KeptSegments([v]) + KeptSegments(after);
    }
    KeptSegmentsSingle(v);
  }

  /** Kept segments of a list split around one value. */
  lemma KeptAround(before: seq<string>, v: string, after: seq<string>)
    ensures KeptSegments(before + [v] + after) == KeptSegments(before) + KeptSegments([v]) + KeptSegments(after)
  {
    KeptSegmentsConcat(before + [v], after);
    KeptSegmentsConcat(before, [v]);
  }

  /** One value is kept exactly when it is truthy. */
  lemma KeptSegmentsSingle(v: string)
    ensures KeptSegments([v]) == if FalsyString(v) then [] else [v]
  {
    assert [v][..0] == [];
  }

  /** The segments of a canonical object: every one kept but an empty zone. */
  lemma {:induction false} KeptCanonicalSegments(base: string, version: string, cloudName: string, zone: Option<string>,
                              pattern: string, filePath: string)
    requires !FalsyString(base) && IsVersion(version) && |cloudName| >= 3
    requires zone.Some? ==> IsZoneSlug(zone.value)
    requires !FalsyString(pattern) && !FalsyString(filePath)
    ensures KeptSegments([base, version, cloudName, ZoneOf(zone), pattern, filePath])
      == [base] + MiddleSegments(version, cloudName, zone, pattern) + [filePath]
  {
    var front := [base, version, cloudName];
    var back := [pattern, filePath];
    KeptSegmentsMeaning(front);
    KeptSegmentsMeaning(back);
    var z := ZoneOf(zone);
    if zone.Some? {
      ZoneSlugContained(zone.value);
      assert z == zone.value;
    }
    KeptSegmentsSingle(z);
    assert [base, version, cloudName, z, pattern, filePath] == front + [z] + back;
    KeptAround(front, z, back);
  }

  /** Writing a canonical object assembles the kept segments with the query items. */
  lemma {:induction false} WriteCanonicalAssembled(scheme: string, host: string, version: string, cloudName: string, zone: Option<string>,
                                filePath: string, ops: seq<Operation>, tenths: Option<nat>, fAuto: bool, items: seq<string>)
    requires Canonical(scheme, host, version, cloudName, zone, filePath, ops, tenths)
    ensures WriteUrl(CanonicalDescriptor(scheme, host, version, cloudName, zone, filePath, ops, tenths, fAuto), Success(items))
      == Success(Assemble([scheme + "://" + host] + MiddleSegments(version, cloudName, zone, PatternText(ops)) + [filePath], items))
  {
    var base := scheme + "://" + host;
    PatternTextFacts(ops);
    assert !FalsyString(base) by { assert |base| >= 3; }
    KeptCanonicalSegments(base, version, cloudName, zone, PatternText(ops), filePath);
  }

  /** A URL whose first segment is the base: the base, `/`, the other segments, the query. */
  lemma AssembleWithBase(base: string, tail: seq<string>, items: seq<string>)
    requires |tail| >= 1
    ensures Assemble([base] + tail, items)
      == base + ("/" + Join(tail, '/')) + (if |items| > 0 then "?" + Join(items, '&') else "")
  {
    JoinCons(base, tail, '/');
    assert base + ['/'] + Join(tail, '/') == base + ("/" + Join(tail, '/'));
  }

  /** Writing a canonical object gives the base URL, the canonical path and the query. */
  lemma {:induction false} WriteCanonical(scheme: string, host: string, version: string, cloudName: string, zone: Option<string>,
                       filePath: string, ops: seq<Operation>, tenths: Option<nat>, fAuto: bool, items: seq<string>)
    requires Canonical(scheme, host, version, cloudName, zone, filePath, ops, tenths)
    ensures WriteUrl(CanonicalDescriptor(scheme, host, version, cloudName, zone, filePath, ops, tenths, fAuto), Success(items))
        == Success(scheme + "://" + host + CanonicalPath(version, cloudName, zone, PatternText(ops), filePath)
                   + (if |items| > 0 then "?" + Join(items, '&') else ""))
  {
    WriteCanonicalAssembled(scheme, host, version, cloudName, zone, filePath, ops, tenths, fAuto, items);
    var base := scheme + "://" + host;
    var middle := MiddleSegments(version, cloudName, zone, PatternText(ops));
    var tail := middle + [filePath];
    assert [base] + middle + [filePath] == [base] + tail;
    AssembleWithBase(base, tail, items);
  }

  /** The canonical path splits into "", the middle segments and the file path's own segments. */
  lemma SplitCanonicalPath(version: string, cloudName: string, zone: Option<string>, pattern: string, filePath: string)
    requires IsVersion(version) && IsSlug(cloudName)
    requires zone.Some? ==> IsZoneSlug(zone.value)
    requires '/' !in pattern
    ensures Split(CanonicalPath(version, cloudName, zone, pattern, filePath), '/')
      == [""] + MiddleSegments(version, cloudName, zone, pattern) + Split(filePath, '/')
  {
    var middle := MiddleSegments(version, cloudName, zone, pattern);
    assert '/' !in version;
    assert '/' !in cloudName by {
      assert forall i | 0 <= i < |cloudName| :: IsSlugChar(cloudName[i]);
    }
    if zone.Some? {
      assert '/' !in zone.value by {
        assert forall i | 0 <= i < |zone.value| :: IsSlugChar(zone.value[i]);
      }
    }
    var segs := [""] + middle;
    assert forall i | 0 <= i < |segs| :: '/' !in segs[i];
    assert segs + [filePath] == [""] + (middle + [filePath]);
    JoinCons("", middle + [filePath], '/');
    SplitSegments(segs, filePath);
  }

  /** With a zone, the segments after the version have the zoned shape and are read by position. */
  lemma ReadZoned(cloudName: string, zone: string, pattern: string, tail: seq<string>)
    requires IsSlug(cloudName) && IsZoneSlug(zone) && pattern != "" && |tail| >= 1
    ensures var rest := ["", cloudName, zone, pattern] + tail;
      WithZoneShape(rest) && rest[4..] == tail
  {
  }

  /** Without a zone, and with a pattern that is not a zone slug, the segments have the unzoned shape only. */
  lemma ReadUnzoned(cloudName: string, pattern: string, tail: seq<string>)
    requires IsSlug(cloudName) && pattern != "" && !IsZoneSlug(pattern) && |tail| >= 1
    ensures var rest := ["", cloudName, pattern] + tail;
      !WithZoneShape(rest) && WithoutZoneShape(rest) && rest[3..] == tail
  {
    var rest := ["", cloudName, pattern] + tail;
    assert IsSlug(rest[1]) && rest[2] != "";
  }

  /** A version segment right after the leading one is taken out. */
  lemma DropVersion(version: string, after: seq<string>)
    requires IsVersion(version)
    ensures AfterVersion(["", version] + after) == [""] + after
  {
    var parts := ["", version] + after;
    assert At(parts, 1) == version;
    assert parts[2..] == after;
  }

  /** The zoned segments of a canonical path, as the reader sees them once the version is taken out. */
  lemma ZonedSegments(version: string, cloudName: string, zone: string, pattern: string, tail: seq<string>)
    requires IsVersion(version) && IsSlug(cloudName) && |cloudName| >= 3
    requires IsZoneSlug(zone) && pattern != "" && |tail| >= 1
    ensures var parts := ["", version] + ([cloudName, zone, pattern] + tail);
      var rest := ["", cloudName, zone, pattern] + tail;
      && VersionIn(parts) == version && AfterVersion(parts) == rest
      && |rest| >= 4 && Strlen(rest[1]) >= 3 && WithZoneShape(rest)
      && rest[1] == cloudName && rest[2] == zone && rest[3] == pattern && rest[4..] == tail
  {
    var parts := ["", version] + ([cloudName, zone, pattern] + tail);
    assert At(parts, 1) == version;
    DropVersion(version, [cloudName, zone, pattern] + tail);
    assert [""] + ([cloudName, zone, pattern] + tail) == ["", cloudName, zone, pattern] + tail;
    ReadZoned(cloudName, zone, pattern, tail);
  }

  /** The unzoned segments of a canonical path, as the reader sees them once the version is taken out. */
  lemma UnzonedSegments(version: string, cloudName: string, pattern: string, tail: seq<string>)
    requires IsVersion(version) && IsSlug(cloudName) && |cloudName| >= 3
    requires pattern != "" && !IsZoneSlug(pattern) && |tail| >= 1
    ensures var parts := ["", version] + ([cloudName, pattern] + tail);
      var rest := ["", cloudName, pattern] + tail;
      && VersionIn(parts) == version && AfterVersion(parts) == rest
      && |rest| >= 3 && Strlen(rest[1]) >= 3 && !WithZoneShape(rest) && WithoutZoneShape(rest)
      && rest[1] == cloudName && rest[2] == pattern && rest[3..] == tail
  {
    var parts := ["", version] + ([cloudName, pattern] + tail);
    assert At(parts, 1) == version;
    DropVersion(version, [cloudName, pattern] + tail);
    assert [""] + ([cloudName, pattern] + tail) == ["", cloudName, pattern] + tail;
    ReadUnzoned(cloudName, pattern, tail);
  }

  /** A path whose segments after the version are zoned is read by position. */
  lemma ReadZonedPath(c: UrlComponents, version: string, cloudName: string, zone: string, pattern: string, tail: seq<string>)
    requires IsVersion(version) && IsSlug(cloudName) && |cloudName| >= 3
    requires IsZoneSlug(zone) && pattern != "" && |tail| >= 1
    requires Split(c.path, '/') == ["", version] + ([cloudName, zone, pattern] + tail)
    ensures UrlParts(c) == Success(UrlDetails(c.scheme, c.host, SearchOf(c.query),
                                              version, cloudName, Some(zone), pattern, Join(tail, '/')))
  {
    ZonedSegments(version, cloudName, zone, pattern, tail);
    UrlPartsZoned(c, version, ["", cloudName, zone, pattern] + tail);
  }

  /** A path whose segments after the version are unzoned is read by position. */
  lemma ReadUnzonedPath(c: UrlComponents, version: string, cloudName: string, pattern: string, tail: seq<string>)
    requires IsVersion(version) && IsSlug(cloudName) && |cloudName| >= 3
    requires pattern != "" && !IsZoneSlug(pattern) && |tail| >= 1
    requires Split(c.path, '/') == ["", version] + ([cloudName, pattern] + tail)
    ensures UrlParts(c) == Success(UrlDetails(c.scheme, c.host, SearchOf(c.query),
                                              version, cloudName, None, pattern, Join(tail, '/')))
  {
    UnzonedSegments(version, cloudName, pattern, tail);
    UrlPartsUnzoned(c, version, ["", cloudName, pattern] + tail);
  }

  /** The written segments, grouped as the reader takes them: "", the version, then the rest. */
  lemma MiddleRegrouped(version: string, cloudName: string, zone: Option<string>, pattern: string, tail: seq<string>)
    ensures zone.Some? ==> [""] + MiddleSegments(version, cloudName, zone, pattern) + tail
                           == ["", version] + ([cloudName, zone.value, pattern] + tail)
    ensures zone.None? ==> [""] + MiddleSegments(version, cloudName, zone, pattern) + tail
                           == ["", version] + ([cloudName, pattern] + tail)
  {
  }

  /** Reading the canonical path back gives the written segments. */
  lemma ReadCanonicalPath(scheme: string, host: string, version: string, cloudName: string, zone: Option<string>,
                          pattern: string, filePath: string, query: string)
    requires IsVersion(version) && IsSlug(cloudName) && |cloudName| >= 3
    requires zone.Some? ==> IsZoneSlug(zone.value)
    requires pattern != "" && !IsZoneSlug(pattern) && '/' !in pattern
    ensures UrlParts(UrlComponents(scheme, host, CanonicalPath(version, cloudName, zone, pattern, filePath), query))
        == Success(UrlDetails(scheme, host, SearchOf(query), version, cloudName, zone, pattern, filePath))
  {
    var c := UrlComponents(scheme, host, CanonicalPath(version, cloudName, zone, pattern, filePath), query);
    var tail := Split(filePath, '/');
    SplitCanonicalPath(version, cloudName, zone, pattern, filePath);
    MiddleRegrouped(version, cloudName, zone, pattern, tail);
    if zone.Some? {
      ReadZonedPath(c, version, cloudName, zone.value, pattern, tail);
    } else {
      ReadUnzonedPath(c, version, cloudName, pattern, tail);
    }
  }

  /** A canonical query is never "0", so it is passed on unchanged. */
  lemma CanonicalQueryNotZero(tenths: Option<nat>, fAuto: bool)
    requires tenths.Some? ==> 1 <= tenths.value <= 50
    ensures Join(CanonicalItems(tenths, fAuto), '&') != "0"
  {
    var items := CanonicalItems(tenths, fAuto);
    if |items| > 0 {
      JoinPrefix(items, '&');
      if tenths.Some? {
        DprItemReadBack(tenths.value);
      }
      assert |items[0]| > 1;
    }
  }

  /** Reading a canonical path with a query that reads as `options` returns the written fields and those options. */
  lemma ReadCanonicalUrl(scheme: string, host: string, version: string, cloudName: string, zone: Option<string>,
                         filePath: string, ops: seq<Operation>, query: string, options: Options)
    requires Canonical(scheme, host, version, cloudName, zone, filePath, ops, None)
    requires query != "0" && QueryParams(query) == Success(options)
    ensures UrlToObj(UrlComponents(scheme, host, CanonicalPath(version, cloudName, zone, PatternText(ops), filePath), query))
      == Success(UrlObject(Parts(scheme + "://" + host, version, cloudName, zone, PatternText(ops), filePath, options), ops))
  {
    var pattern := PatternText(ops);
    PatternTextFacts(ops);
    ReadCanonicalPath(scheme, host, version, cloudName, zone, pattern, filePath, query);
    assert QueryParams(if FalsyString(query) then "" else query) == QueryParams(query);
  }

  /**
   * Writing a canonical object with its canonical items and reading the URL
   * back returns every field that was written.
   */
  lemma CanonicalRoundTrip(scheme: string, host: string, version: string, cloudName: string, zone: Option<string>,
                           filePath: string, ops: seq<Operation>, tenths: Option<nat>, fAuto: bool)
    requires Canonical(scheme, host, version, cloudName, zone, filePath, ops, tenths)
    ensures var path := CanonicalPath(version, cloudName, zone, PatternText(ops), filePath);
      var query := Join(CanonicalItems(tenths, fAuto), '&');
      && WriteUrl(CanonicalDescriptor(scheme, host, version, cloudName, zone, filePath, ops, tenths, fAuto),
                  Success(CanonicalItems(tenths, fAuto)))
           == Success(scheme + "://" + host + path + (if query != "" then "?" + query else ""))
      && UrlToObj(UrlComponents(scheme, host, path, query))
           == Success(UrlObject(
                Parts(scheme + "://" + host, version, cloudName, zone, PatternText(ops), filePath, CanonicalOptions(tenths, fAuto)),
                ops))
  {
    var items := CanonicalItems(tenths, fAuto);
    var query := Join(items, '&');
    WriteCanonical(scheme, host, version, cloudName, zone, filePath, ops, tenths, fAuto, items);
    assert |items| > 0 <==> query != "" by {
      if |items| > 0 {
        JoinPrefix(items, '&');
        if tenths.Some? { DprItemReadBack(tenths.value); }
        assert |items[0]| > 0;
      }
    }
    CanonicalQueryNotZero(tenths, fAuto);
    ReadCanonicalItems(tenths, fAuto);
    ReadCanonicalUrl(scheme, host, version, cloudName, zone, filePath, ops, query, CanonicalOptions(tenths, fAuto));
  }

  /**
   * Writing a canonical object as the source does and reading the URL back:
   * the URL is the base, the path and the query, and reading it returns every
   * field that was written, the options and the transformations included,
   * whenever the options hold a dpr or no f_auto (see FAutoOnlyLosesFAuto).
   */
  lemma UrlRoundTrip(scheme: string, host: string, version: string, cloudName: string, zone: Option<string>,
                     filePath: string, ops: seq<Operation>, tenths: Option<nat>, fAuto: bool)
    requires Canonical(scheme, host, version, cloudName, zone, filePath, ops, tenths)
    requires tenths.Some? || !fAuto
    ensures var path := CanonicalPath(version, cloudName, zone, PatternText(ops), filePath);
      var query := Join(CanonicalItems(tenths, fAuto), '&');
      && ObjToUrl(CanonicalDescriptor(scheme, host, version, cloudName, zone, filePath, ops, tenths, fAuto))
           == Success(scheme + "://" + host + path + (if query != "" then "?" + query else ""))
      && UrlToObj(UrlComponents(scheme, host, path, query))
           == Success(UrlObject(
                Parts(scheme + "://" + host, version, cloudName, zone, PatternText(ops), filePath, CanonicalOptions(tenths, fAuto)),
                ops))
  {
    PositionalAgreesInReadingOrder(tenths, fAuto);
    KeyedItemsOfCanonical(tenths, fAuto);
    CanonicalRoundTrip(scheme, host, version, cloudName, zone, filePath, ops, tenths, fAuto);
  }

  /** With options looked up by name, every canonical object survives the round trip, a lone f_auto included. */
  lemma KeyedUrlRoundTrip(scheme: string, host: string, version: string, cloudName: string, zone: Option<string>,
                          filePath: string, ops: seq<Operation>, tenths: Option<nat>, fAuto: bool)
    requires Canonical(scheme, host, version, cloudName, zone, filePath, ops, tenths)
    ensures var path := CanonicalPath(version, cloudName, zone, PatternText(ops), filePath);
      var query := Join(CanonicalItems(tenths, fAuto), '&');
      && KeyedObjToUrl(CanonicalDescriptor(scheme, host, version, cloudName, zone, filePath, ops, tenths, fAuto))
           == Success(scheme + "://" + host + path + (if query != "" then "?" + query else ""))
      && UrlToObj(UrlComponents(scheme, host, path, query))
           == Success(UrlObject(
                Parts(scheme + "://" + host, version, cloudName, zone, PatternText(ops), filePath, CanonicalOptions(tenths, fAuto)),
                ops))
  {
    KeyedItemsOfCanonical(tenths, fAuto);
    CanonicalRoundTrip(scheme, host, version, cloudName, zone, filePath, ops, tenths, fAuto);
  }

  /**
   * As written, an object whose options hold only `f_auto => true` is written
   * with `?dpr=1.0`, and reading that URL back gives a dpr of 1.0 and no f_auto.
   */
  lemma {:induction false} FAutoOnlyLosesFAuto(scheme: string, host: string, version: string, cloudName: string, zone: Option<string>,
                            filePath: string, ops: seq<Operation>)
    requires Canonical(scheme, host, version, cloudName, zone, filePath, ops, None)
    ensures var path := CanonicalPath(version, cloudName, zone, PatternText(ops), filePath);
      && ObjToUrl(CanonicalDescriptor(scheme, host, version, cloudName, zone, filePath, ops, None, true))
           == Success(scheme + "://" + host + path + "?dpr=1.0")
      && UrlToObj(UrlComponents(scheme, host, path, "dpr=1.0"))
           == Success(UrlObject(
                Parts(scheme + "://" + host, version, cloudName, zone, PatternText(ops), filePath, [("dpr", Num(1.0))]),
                ops))
      && [("dpr", Num(1.0))] != CanonicalOptions(None, true)
  {
    FAutoOnlyWrittenAsDpr(scheme, host, version, cloudName, zone, filePath, ops);
    ReadDprOne();
    ReadCanonicalUrl(scheme, host, version, cloudName, zone, filePath, ops, "dpr=1.0", [("dpr", Num(1.0))]);
  }

  /** The query part written for the single item `dpr=1.0`. */
  lemma DprOneQuery()
    ensures "?" + Join(["dpr=1.0"], '&') == "?dpr=1.0"
  {
    assert Join(["dpr=1.0"], '&') == "dpr=1.0";
  }

  /** As written, options holding only `f_auto => true` are written as `?dpr=1.0`. */
  lemma {:induction false} FAutoOnlyWrittenAsDpr(scheme: string, host: string, version: string, cloudName: string,
                                                 zone: Option<string>, filePath: string, ops: seq<Operation>)
    requires Canonical(scheme, host, version, cloudName, zone, filePath, ops, None)
    ensures ObjToUrl(CanonicalDescriptor(scheme, host, version, cloudName, zone, filePath, ops, None, true))
      == Success(scheme + "://" + host + CanonicalPath(version, cloudName, zone, PatternText(ops), filePath) + "?dpr=1.0")
  {
    var desc := CanonicalDescriptor(scheme, host, version, cloudName, zone, filePath, ops, None, true);
    var items := ["dpr=1.0"];
    assert desc.options.GetOr([]) == [("f_auto", Bool(true))];
    PositionalMisreadsFAuto();
    assert ObjToUrl(desc) == WriteUrl(desc, Success(items));
    WriteCanonical(scheme, host, version, cloudName, zone, filePath, ops, None, true, items);
    DprOneQuery();
  }
}
