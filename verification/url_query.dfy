/**
 * The optional query parameters of a CDN URL, `dpr` (device pixel ratio) and
 * `f_auto` (automatic format): reading them from the query string
 * (`process_query_params`) and writing them back (the options part of
 * `get_url_from_obj`).
 */
module UrlQuery {
  import opened Wrappers
  import opened Exceptions
  import opened Strings
  import opened Php
  import OrderedMap

  /** `$queryObj` / `$obj["options"]`: an ordered PHP array from names to values. */
  type Options = seq<(string, Value)>

  const ALLOWED_OPTIONAL_PARAMS: seq<string> := ["dpr", "f_auto"]
  const MIN_DPR: real := 0.1
  const MAX_DPR: real := 5.0

  /** `validate_dpr` once its argument has arrived as a float. */
  function ValidateDpr(x: real): (r: Outcome<()>)
    ensures r.Success? <==> MIN_DPR <= x <= MAX_DPR
    ensures r.Failure? ==> r.error == IllegalQueryParameter(DPR_MESSAGE)
  {
    if x < MIN_DPR || x > MAX_DPR then Failure(IllegalQueryParameter(DPR_MESSAGE)) else Success(())
  }

  /** `validate_f_auto`: only a boolean is accepted. */
  function ValidateFAuto(v: Value): (r: Outcome<()>)
    ensures r.Success? <==> v.Bool?
    ensures r.Failure? ==> r.error == IllegalQueryParameter(F_AUTO_MESSAGE)
  {
    if v.Bool? then Success(()) else Failure(IllegalQueryParameter(F_AUTO_MESSAGE))
  }

  // ---------------------------------------------------------------------------
  // Reading: process_query_params
  // ---------------------------------------------------------------------------

  /** `explode("&", ...)` of the query, "" when the query is empty or "0". */
  function QueryPairs(search: string): seq<string>
  {
    Split(if FalsyString(search) then "" else search, '&')
  }

  /** The name of one `name=value` pair. */
  function PairName(pair: string): string
  {
    Split(pair, '=')[0]
  }

  /** The value of one pair, "" when it has no `=`. */
  function PairValue(pair: string): string
  {
    At(Split(pair, '='), 1)
  }

  /** `(float) $queryElements[1]`. */
  function DprOf(pair: string): real
  {
    LeadingNumber(PairValue(pair)).value
  }

  /** `(bool) $queryElements[1]`. */
  function FAutoOf(pair: string): bool
  {
    !FalsyString(PairValue(pair))
  }

  /**
   * One pair applied to `$queryObj`. `f_auto` is checked with `validate_dpr`
   * as the source does, so a false `f_auto` (0.0 as a float) is rejected with
   * the dpr message.
   */
  function ApplyPair(obj: Options, pair: string): Outcome<Options>
  {
    if PairName(pair) == "dpr" then
      var ok :- ValidateDpr(DprOf(pair));
      Success(OrderedMap.Put(obj, "dpr", Num(DprOf(pair))))
    else if PairName(pair) == "f_auto" then
      var ok :- ValidateDpr(if FAutoOf(pair) then 1.0 else 0.0);
      Success(OrderedMap.Put(obj, "f_auto", Bool(FAutoOf(pair))))
    else Success(obj)
  }

  /** The pairs applied in order; the first rejected pair ends the walk. */
  function ProcessPairs(pairs: seq<string>): Outcome<Options>
    decreases |pairs|
  {
    if |pairs| == 0 then Success([])
    else
      var obj :- ProcessPairs(pairs[..|pairs| - 1]);
      ApplyPair(obj, pairs[|pairs| - 1])
  }

  /** What `process_query_params` returns for a query string. */
  function QueryParams(search: string): Outcome<Options>
  {
    ProcessPairs(QueryPairs(search))
  }

  lemma {:induction false} PairsPrefixFailure(pairs: seq<string>, n: nat)
    requires n <= |pairs|
    requires ProcessPairs(pairs[..n]).Failure?
    ensures ProcessPairs(pairs) == ProcessPairs(pairs[..n])
    decreases |pairs| - n
  {
    if n < |pairs| {
      assert pairs[..n + 1][..n] == pairs[..n];
      PairsPrefixFailure(pairs, n + 1);
    } else {
      assert pairs[..n] == pairs;
    }
  }

  /** One more pair is applied to the options read from the pairs before it. */
  lemma ProcessPairsStep(pairs: seq<string>, i: nat, obj: Options)
    requires i < |pairs| && ProcessPairs(pairs[..i]) == Success(obj)
    ensures ProcessPairs(pairs[..i + 1]) == ApplyPair(obj, pairs[i])
  {
    assert pairs[..i + 1][..i] == pairs[..i];
  }

  /** `process_query_params`, one pair per iteration. */
  method ProcessQueryParams(search: string) returns (r: Outcome<Options>)
    ensures r == QueryParams(search)
  {
    var queryParams := QueryPairs(search);
    var queryObj: Options := [];
    var i := 0;
    while i < |queryParams|
      invariant 0 <= i <= |queryParams|
      invariant ProcessPairs(queryParams[..i]) == Success(queryObj)
    {
      var queryElements := Split(queryParams[i], '=');
      ProcessPairsStep(queryParams, i, queryObj);
      if queryElements[0] in ALLOWED_OPTIONAL_PARAMS {
        if queryElements[0] == "dpr" {
          var dpr := LeadingNumber(At(queryElements, 1)).value;
          queryObj := OrderedMap.Put(queryObj, "dpr", Num(dpr));
          var ok := ValidateDpr(dpr);
          if ok.Failure? {
            PairsPrefixFailure(queryParams, i + 1);
            return Failure(ok.error);
          }
        } else {
          var fAuto := !FalsyString(At(queryElements, 1));
          queryObj := OrderedMap.Put(queryObj, "f_auto", Bool(fAuto));
          var ok := ValidateDpr(if fAuto then 1.0 else 0.0);
          if ok.Failure? {
            PairsPrefixFailure(queryParams, i + 1);
            return Failure(ok.error);
          }
        }
      }
      i := i + 1;
    }
    assert queryParams[..i] == queryParams;
    r := Success(queryObj);
  }

  // ---------------------------------------------------------------------------
  // What reading promises
  // ---------------------------------------------------------------------------

  /** A pair the source rejects: a dpr outside [0.1, 5.0], or an f_auto that casts to false. */
  predicate RejectedPair(pair: string)
  {
    || (PairName(pair) == "dpr" && !(MIN_DPR <= DprOf(pair) <= MAX_DPR))
    || (PairName(pair) == "f_auto" && !FAutoOf(pair))
  }

  /** The options a successful read can hold: distinct allowed names with in-range values. */
  predicate ValidOptions(obj: Options)
  {
    && OrderedMap.DistinctKeys(obj)
    && (forall i | 0 <= i < |obj| :: obj[i].0 in ALLOWED_OPTIONAL_PARAMS)
    && (forall i | 0 <= i < |obj| && obj[i].0 == "dpr" ::
          obj[i].1.Num? && MIN_DPR <= obj[i].1.r <= MAX_DPR)
    && (forall i | 0 <= i < |obj| && obj[i].0 == "f_auto" :: obj[i].1 == Bool(true))
  }

  lemma PutValid(obj: Options, k: string, v: Value)
    requires ValidOptions(obj)
    requires k in ALLOWED_OPTIONAL_PARAMS
    requires k == "dpr" ==> v.Num? && MIN_DPR <= v.r <= MAX_DPR
    requires k == "f_auto" ==> v == Bool(true)
    ensures ValidOptions(OrderedMap.Put(obj, k, v))
  {
    OrderedMap.PutDistinct(obj, k, v);
    OrderedMap.PutEntries(obj, k, v);
  }

  /**
   * Reading fails exactly when some pair is rejected, and then always with the
   * dpr message; a successful read holds only valid options.
   */
  lemma {:induction false} ProcessPairsMeaning(pairs: seq<string>)
    ensures ProcessPairs(pairs).Failure? <==> exists i | 0 <= i < |pairs| :: RejectedPair(pairs[i])
    ensures ProcessPairs(pairs).Failure? ==> ProcessPairs(pairs).error == IllegalQueryParameter(DPR_MESSAGE)
    ensures ProcessPairs(pairs).Success? ==> ValidOptions(ProcessPairs(pairs).value)
    decreases |pairs|
  {
    if |pairs| > 0 {
      var n := |pairs| - 1;
      var prefix := pairs[..n];
      ProcessPairsMeaning(prefix);
      assert forall i | 0 <= i < n :: prefix[i] == pairs[i];
      assert pairs[..n + 1] == pairs;
      if ProcessPairs(prefix).Success? {
        ProcessPairsStep(pairs, n, ProcessPairs(prefix).value);
        ApplyPairMeaning(ProcessPairs(prefix).value, pairs[n]);
        if !RejectedPair(pairs[n]) {
          assert forall i | 0 <= i < |pairs| :: !RejectedPair(pairs[i]);
        }
      } else {
        PairsPrefixFailure(pairs, n);
      }
    }
  }

  /** One pair is refused exactly when it is rejected, and an accepted pair keeps the options valid. */
  lemma ApplyPairMeaning(obj: Options, p: string)
    requires ValidOptions(obj)
    ensures ApplyPair(obj, p).Failure? <==> RejectedPair(p)
    ensures ApplyPair(obj, p).Failure? ==> ApplyPair(obj, p).error == IllegalQueryParameter(DPR_MESSAGE)
    ensures ApplyPair(obj, p).Success? ==> ValidOptions(ApplyPair(obj, p).value)
  {
    if PairName(p) == "dpr" && !RejectedPair(p) {
      PutValid(obj, "dpr", Num(DprOf(p)));
    } else if PairName(p) == "f_auto" && !RejectedPair(p) {
      PutValid(obj, "f_auto", Bool(true));
    }
  }

  /** A name the read keeps is present exactly when some pair carries it, with the value of the last such pair. */
  lemma {:induction false} ProcessPairsLastWins(pairs: seq<string>, j: nat)
    requires ProcessPairs(pairs).Success?
    requires j < |pairs| && PairName(pairs[j]) in ALLOWED_OPTIONAL_PARAMS
    requires forall j' | j < j' < |pairs| :: PairName(pairs[j']) != PairName(pairs[j])
    ensures OrderedMap.Get(ProcessPairs(pairs).value, PairName(pairs[j])) ==
      Some(if PairName(pairs[j]) == "dpr" then Num(DprOf(pairs[j])) else Bool(FAutoOf(pairs[j])))
  {
    var n := |pairs| - 1;
    var prefix := pairs[..n];
    var prev := ProcessPairs(prefix).value;
    var k := PairName(pairs[j]);
    var p := pairs[n];
    if j < n {
      assert prefix[j] == pairs[j];
      assert forall j' | j < j' < |prefix| :: prefix[j'] == pairs[j'];
      ProcessPairsLastWins(prefix, j);
      if PairName(p) == "dpr" {
        OrderedMap.PutGet(prev, "dpr", Num(DprOf(p)), k);
      } else if PairName(p) == "f_auto" {
        OrderedMap.PutGet(prev, "f_auto", Bool(FAutoOf(p)), k);
      }
    } else if k == "dpr" {
      OrderedMap.PutGet(prev, k, Num(DprOf(p)), k);
    } else {
      OrderedMap.PutGet(prev, k, Bool(FAutoOf(p)), k);
    }
  }

  /** A name no pair carries is absent from what the read returns. */
  lemma {:induction false} ProcessPairsAbsent(pairs: seq<string>, k: string)
    requires ProcessPairs(pairs).Success?
    requires forall j | 0 <= j < |pairs| :: PairName(pairs[j]) != k
    ensures OrderedMap.Get(ProcessPairs(pairs).value, k).None?
  {
    if |pairs| > 0 {
      var n := |pairs| - 1;
      var prefix := pairs[..n];
      assert forall j | 0 <= j < n :: prefix[j] == pairs[j];
      ProcessPairsAbsent(prefix, k);
      var prev := ProcessPairs(prefix).value;
      var p := pairs[n];
      if PairName(p) == "dpr" {
        OrderedMap.PutGet(prev, "dpr", Num(DprOf(p)), k);
      } else if PairName(p) == "f_auto" {
        OrderedMap.PutGet(prev, "f_auto", Bool(FAutoOf(p)), k);
      }
    }
  }

  // ---------------------------------------------------------------------------
  // Writing: the options part of get_url_from_obj
  // ---------------------------------------------------------------------------

  /** `ucfirst`: the first character in upper case, when it is a lower-case letter. */
  function Ucfirst(s: string): (r: string)
    ensures |r| == |s|
    ensures |s| > 0 ==> r[1..] == s[1..]
    ensures |s| > 0 ==> r[0] == if 'a' <= s[0] <= 'z' then (s[0] as int - 32) as char else s[0]
    ensures |s| > 0 && 'a' <= s[0] <= 'z' ==> 'A' <= r[0] <= 'Z'
  {
    if |s| > 0 && 'a' <= s[0] <= 'z' then [(s[0] as int - 32) as char] + s[1..] else s
  }

  /** `if ($dpr) { validate_dpr($dpr); $queryArr[] = "dpr=" . number_format((float)$dpr, 1); }`. */
  function DprItems(dpr: Value): Outcome<seq<string>>
  {
    if !Truthy(dpr) then Success([])
    else
      var x :- FloatParam(dpr);
      var ok :- ValidateDpr(x);
      Success(["dpr=" + OneDecimal(FloatCast(dpr))])
  }

  /** `if ($f_auto) { validate_f_auto($f_auto); $queryArr[] = "f_auto=" . ucfirst(json_encode($f_auto)); }`. */
  function FAutoItems(fAuto: Value): Outcome<seq<string>>
  {
    if !Truthy(fAuto) then Success([])
    else
      var ok :- ValidateFAuto(fAuto);
      Success(["f_auto=" + Ucfirst(JsonBool(fAuto.b))])
  }

  /** A true f_auto is written as `f_auto=True`. */
  lemma FAutoItemsTrue()
    ensures FAutoItems(Bool(true)) == Success(["f_auto=True"])
  {
    assert Ucfirst("true") == "True";
    assert "f_auto=" + "True" == "f_auto=True";
  }

  /** The query items for a given dpr and f_auto value, dpr first. */
  function OptionItems(dpr: Value, fAuto: Value): Outcome<seq<string>>
  {
    var dprItems :- DprItems(dpr);
    var fAutoItems :- FAutoItems(fAuto);
    Success(dprItems + fAutoItems)
  }

  /**
   * As written: `[$dpr, $f_auto] = array_values($obj["options"])` takes the
   * first two values whatever their names (a missing second value is null).
   */
  function PositionalOptionItems(options: Options): Outcome<seq<string>>
  {
    if |options| == 0 then Success([])
    else OptionItems(options[0].1, if |options| >= 2 then options[1].1 else Null)
  }

  /** The value stored under a name, null when the name is absent. */
  function OptionValue(options: Options, k: string): Value
  {
    OrderedMap.Get(options, k).GetOr(Null)
  }

  /** As intended: dpr and f_auto looked up by name. */
  function KeyedOptionItems(options: Options): Outcome<seq<string>>
  {
    OptionItems(OptionValue(options, "dpr"), OptionValue(options, "f_auto"))
  }

  /**
   * The items written: one `dpr=` item with one decimal when dpr is truthy,
   * then `f_auto=True` when f_auto is truthy; the write fails exactly when a
   * truthy dpr is not a number in [0.1, 5.0] or a truthy f_auto is not a boolean.
   */
  lemma OptionItemsMeaning(dpr: Value, fAuto: Value)
    ensures var r := OptionItems(dpr, fAuto);
      var dprBad := Truthy(dpr) && (FloatParam(dpr).Failure? || !(MIN_DPR <= FloatCast(dpr) <= MAX_DPR));
      var fAutoBad := Truthy(fAuto) && !fAuto.Bool?;
      && (r.Failure? <==> dprBad || fAutoBad)
      && (Truthy(dpr) && FloatParam(dpr).Failure? ==> r.Failure? && r.error.TypeError?)
      && (Truthy(dpr) && FloatParam(dpr).Success? && !(MIN_DPR <= FloatCast(dpr) <= MAX_DPR) ==>
            r == Failure(IllegalQueryParameter(DPR_MESSAGE)))
      && (r.Failure? && !dprBad ==> r.error == IllegalQueryParameter(F_AUTO_MESSAGE))
      && (r.Success? ==>
            r.value == (if Truthy(dpr) then ["dpr=" + OneDecimal(FloatCast(dpr))] else [])
                       + (if Truthy(fAuto) then ["f_auto=True"] else []))
  {
    DprItemsMeaning(dpr);
    FAutoItemsMeaning(fAuto);
  }

  /** The dpr item: present when dpr is truthy, and failing when it is not a number in range. */
  lemma DprItemsMeaning(dpr: Value)
    ensures var r := DprItems(dpr);
      var dprBad := Truthy(dpr) && (FloatParam(dpr).Failure? || !(MIN_DPR <= FloatCast(dpr) <= MAX_DPR));
      && (r.Failure? <==> dprBad)
      && (Truthy(dpr) && FloatParam(dpr).Failure? ==> r.Failure? && r.error.TypeError?)
      && (Truthy(dpr) && FloatParam(dpr).Success? && !(MIN_DPR <= FloatCast(dpr) <= MAX_DPR) ==>
            r == Failure(IllegalQueryParameter(DPR_MESSAGE)))
      && (r.Success? ==> r.value == if Truthy(dpr) then ["dpr=" + OneDecimal(FloatCast(dpr))] else [])
  {
  }

  /**
   * A dpr above the maximum is refused with the DPR message, whatever f_auto
   * holds: `dpr => 5.5, f_auto => true` is an illegal query parameter.
   */
  lemma DprAboveMaximumRejected()
    ensures OptionItems(Num(5.5), Bool(true)) == Failure(IllegalQueryParameter(DPR_MESSAGE))
  {
    DprItemsMeaning(Num(5.5));
  }

  /** The f_auto item: `f_auto=True` when f_auto is truthy, and failing when it is not a boolean. */
  lemma FAutoItemsMeaning(fAuto: Value)
    ensures var r := FAutoItems(fAuto);
      && (r.Failure? <==> Truthy(fAuto) && !fAuto.Bool?)
      && (r.Failure? ==> r.error == IllegalQueryParameter(F_AUTO_MESSAGE))
      && (r.Success? ==> r.value == if Truthy(fAuto) then ["f_auto=True"] else [])
  {
    if Truthy(fAuto) && fAuto.Bool? {
      FAutoItemsTrue();
    }
  }

  /** Options in the order the reader produces them: an optional dpr of n/10, then an optional f_auto. */
  function CanonicalOptions(tenths: Option<nat>, fAuto: bool): Options
  {
    (if tenths.Some? then [("dpr", Num(tenths.value as real / 10.0))] else [])
    + (if fAuto then [("f_auto", Bool(true))] else [])
  }

  /** The items written for canonical options. */
  function CanonicalItems(tenths: Option<nat>, fAuto: bool): seq<string>
  {
    (if tenths.Some? then ["dpr=" + OneDecimal(tenths.value as real / 10.0)] else [])
    + (if fAuto then ["f_auto=True"] else [])
  }

  lemma DprItemReadBack(n: nat)
    requires 1 <= n <= 50
    ensures var item := "dpr=" + OneDecimal(n as real / 10.0);
      && '&' !in item && |item| == 7
      && PairName(item) == "dpr" && DprOf(item) == n as real / 10.0
  {
    var digits := OneDecimal(n as real / 10.0);
    OneDecimalShape(n);
    OneDecimalRoundTrip(n);
    assert '=' !in digits && '&' !in digits;
    NamedPair("dpr", digits);
    assert "dpr" + "=" + digits == "dpr=" + digits;
  }

  /** A `name=value` pair whose name and value hold no `=` splits back into them. */
  lemma NamedPair(name: string, value: string)
    requires '=' !in name && '=' !in value
    ensures PairName(name + "=" + value) == name && PairValue(name + "=" + value) == value
  {
    assert name + "=" + value == name + ['='] + value;
    SplitAtFirst(name, value, '=');
    SplitWithout(value, '=');
  }


  lemma FAutoItemReadBack()
    ensures '&' !in "f_auto=True" && PairName("f_auto=True") == "f_auto" && FAutoOf("f_auto=True")
  {
    assert "f_auto" + "=" + "True" == "f_auto=True";
    NamedPair("f_auto", "True");
  }


  /** Writing canonical options by name gives the canonical items. */
  lemma KeyedItemsOfCanonical(tenths: Option<nat>, fAuto: bool)
    requires tenths.Some? ==> 1 <= tenths.value <= 50
    ensures KeyedOptionItems(CanonicalOptions(tenths, fAuto)) == Success(CanonicalItems(tenths, fAuto))
  {
    var options := CanonicalOptions(tenths, fAuto);
    FAutoItemsTrue();
    if tenths.Some? {
      assert OptionValue(options, "dpr") == Num(tenths.value as real / 10.0);
    } else {
      assert OptionValue(options, "dpr") == Null;
    }
    if fAuto {
      assert OptionValue(options, "f_auto") == Bool(true) by {
        if tenths.Some? { assert options[0].0 != "f_auto"; }
      }
    } else {
      assert OptionValue(options, "f_auto") == Null;
    }
  }

  /** A query made of items without `&` splits back into those items. */
  lemma QueryPairsOfItems(items: seq<string>)
    requires |items| > 0 && |items[0]| > 1
    requires forall i | 0 <= i < |items| :: '&' !in items[i]
    ensures QueryPairs(Join(items, '&')) == items
  {
    SplitJoin(items, '&');
    JoinPrefix(items, '&');
    assert items[0] <= Join(items, '&');
  }

  /** A query of one item is read as that single pair. */
  lemma ReadOneItem(item: string)
    requires '&' !in item && |item| > 1
    ensures QueryParams(item) == ApplyPair([], item)
  {
    QueryPairsOfItems([item]);
    assert Join([item], '&') == item;
    assert QueryPairs(item) == [item];
    assert [item][..0] == [];
    assert ProcessPairs([item]) == ApplyPair([], item);
  }

  /** A query of two items is read as those two pairs in order. */
  lemma ReadTwoItems(a: string, b: string)
    requires '&' !in a && '&' !in b && |a| > 1
    ensures QueryParams(Join([a, b], '&')) == ProcessPairs([a, b])
  {
    QueryPairsOfItems([a, b]);
  }

  /** An accepted dpr pair followed by a true f_auto pair reads as both options, in that order. */
  lemma ReadDprThenFAuto(a: string, b: string)
    requires PairName(a) == "dpr" && MIN_DPR <= DprOf(a) <= MAX_DPR
    requires PairName(b) == "f_auto" && FAutoOf(b)
    ensures ProcessPairs([a, b]) == Success([("dpr", Num(DprOf(a))), ("f_auto", Bool(true))])
  {
    assert [a, b][..1] == [a] && [a][..0] == [];
    var m := [("dpr", Num(DprOf(a)))];
    assert ProcessPairs([a]) == Success(m);
    assert OrderedMap.Keys(m) == ["dpr"];
    OrderedMap.PutFresh(m, "f_auto", Bool(true));
    assert ProcessPairs([a, b]) == ApplyPair(m, b);
    assert m + [("f_auto", Bool(true))] == [("dpr", Num(DprOf(a))), ("f_auto", Bool(true))];
  }

  lemma ReadNoItems()
    ensures QueryParams(Join([], '&')) == Success([])
  {
    assert QueryPairs(Join([], '&')) == [""];
    assert [""][..0] == [];
  }

  lemma ReadDprItem(a: string)
    requires '&' !in a && |a| > 1
    requires PairName(a) == "dpr" && MIN_DPR <= DprOf(a) <= MAX_DPR
    ensures QueryParams(Join([a], '&')) == Success([("dpr", Num(DprOf(a)))])
  {
    assert Join([a], '&') == a;
    ReadOneItem(a);
  }

  lemma ReadFAutoItem()
    ensures QueryParams(Join(["f_auto=True"], '&')) == Success([("f_auto", Bool(true))])
  {
    FAutoItemReadBack();
    assert Join(["f_auto=True"], '&') == "f_auto=True";
    ReadOneItem("f_auto=True");
  }

  lemma ReadBothItems(a: string)
    requires '&' !in a && |a| > 1
    requires PairName(a) == "dpr" && MIN_DPR <= DprOf(a) <= MAX_DPR
    ensures QueryParams(Join([a, "f_auto=True"], '&')) == Success([("dpr", Num(DprOf(a))), ("f_auto", Bool(true))])
  {
    FAutoItemReadBack();
    ReadTwoItems(a, "f_auto=True");
    ReadDprThenFAuto(a, "f_auto=True");
  }

  /** Reading the canonical items gives the canonical options back. */
  lemma ReadCanonicalItems(tenths: Option<nat>, fAuto: bool)
    requires tenths.Some? ==> 1 <= tenths.value <= 50
    ensures QueryParams(Join(CanonicalItems(tenths, fAuto), '&')) == Success(CanonicalOptions(tenths, fAuto))
  {
    if tenths.None? {
      if fAuto {
        assert CanonicalItems(tenths, fAuto) == ["f_auto=True"];
        assert CanonicalOptions(tenths, fAuto) == [("f_auto", Bool(true))];
        ReadFAutoItem();
      } else {
        ReadNoItems();
        assert CanonicalItems(tenths, fAuto) == [];
      }
    } else {
      var x := tenths.value as real / 10.0;
      var a := "dpr=" + OneDecimal(x);
      DprItemReadBack(tenths.value);
      assert |a| > 1;
      if fAuto {
        ReadBothItems(a);
        assert CanonicalItems(tenths, fAuto) == [a, "f_auto=True"];
        assert CanonicalOptions(tenths, fAuto) == [("dpr", Num(x)), ("f_auto", Bool(true))];
      } else {
        ReadDprItem(a);
        assert CanonicalItems(tenths, fAuto) == [a];
        assert CanonicalOptions(tenths, fAuto) == [("dpr", Num(x))];
      }
    }
  }

  /**
   * Writing options by name and reading the query back gives the same options,
   * for every dpr the writer reproduces exactly (a multiple of 0.1 in range).
   */
  lemma KeyedOptionsRoundTrip(tenths: Option<nat>, fAuto: bool)
    requires tenths.Some? ==> 1 <= tenths.value <= 50
    ensures var options := CanonicalOptions(tenths, fAuto);
      && KeyedOptionItems(options).Success?
      && QueryParams(Join(KeyedOptionItems(options).value, '&')) == Success(options)
  {
    KeyedItemsOfCanonical(tenths, fAuto);
    ReadCanonicalItems(tenths, fAuto);
  }

  /**
   * Options in reading order written by position agree with writing them by
   * name, unless f_auto is the only option.
   */
  lemma PositionalAgreesInReadingOrder(tenths: Option<nat>, fAuto: bool)
    requires tenths.Some? || !fAuto
    ensures PositionalOptionItems(CanonicalOptions(tenths, fAuto)) == KeyedOptionItems(CanonicalOptions(tenths, fAuto))
  {
    var options := CanonicalOptions(tenths, fAuto);
    if tenths.Some? && !fAuto {
      assert OptionValue(options, "f_auto") == Null;
    } else if tenths.None? {
      assert options == [];
    }
  }

  /** The query `dpr=1.0` reads as a dpr of 1.0. */
  lemma ReadDprOne()
    ensures QueryParams("dpr=1.0") == Success([("dpr", Num(1.0))])
  {
    DprItemReadBack(10);
    assert OneDecimal(10 as real / 10.0) == "1.0";
    assert "dpr=" + "1.0" == "dpr=1.0";
    ReadDprItem("dpr=1.0");
    assert Join(["dpr=1.0"], '&') == "dpr=1.0";
  }

  /** The pair `f_auto=true` names f_auto with a true value. */
  lemma FAutoTruePair()
    ensures PairName("f_auto=true") == "f_auto" && FAutoOf("f_auto=true")
  {
    assert "f_auto" + "=" + "true" == "f_auto=true";
    NamedPair("f_auto", "true");
  }


  /** `f_auto=true` reads as options holding only f_auto. */
  lemma ReadFAutoOnly()
    ensures QueryParams("f_auto=true") == Success([("f_auto", Bool(true))])
  {
    ReadOneItem("f_auto=true");
    FAutoTruePair();
  }

  /** An in-range dpr number is written with one decimal. */
  lemma DprItemsInRange(x: real)
    requires MIN_DPR <= x <= MAX_DPR
    ensures DprItems(Num(x)) == Success(["dpr=" + OneDecimal(x)])
  {
  }

  /** A lone f_auto taken for dpr is written as `dpr=1.0`. */
  lemma FAutoAsDpr()
    ensures OptionItems(Bool(true), Null) == Success(["dpr=1.0"])
  {
    assert FloatParam(Bool(true)) == Success(1.0);
    assert OneDecimal(1.0) == "1.0";
    assert "dpr=" + "1.0" == "dpr=1.0";
    assert ["dpr=1.0"] + [] == ["dpr=1.0"];
  }

  /**
   * The query `f_auto=true` reads as options holding only f_auto; written back
   * by position, its f_auto value is taken for dpr, so the URL gets `dpr=1.0`
   * and loses `f_auto=True`.
   */
  lemma PositionalMisreadsFAuto()
    ensures QueryParams("f_auto=true") == Success([("f_auto", Bool(true))])
    ensures PositionalOptionItems([("f_auto", Bool(true))]) == Success(["dpr=1.0"])
    ensures KeyedOptionItems([("f_auto", Bool(true))]) == Success(["f_auto=True"])
  {
    assert QueryParams("f_auto=true") == Success([("f_auto", Bool(true))]) by {
      ReadFAutoOnly();
    }
    assert PositionalOptionItems([("f_auto", Bool(true))]) == Success(["dpr=1.0"]) by {
      FAutoAsDpr();
    }
    assert KeyedOptionItems([("f_auto", Bool(true))]) == Success(["f_auto=True"]) by {
      FAutoItemsTrue();
      assert OptionValue([("f_auto", Bool(true))], "dpr") == Null;
      assert OptionValue([("f_auto", Bool(true))], "f_auto") == Bool(true);
      assert [] + ["f_auto=True"] == ["f_auto=True"];
    }
  }

  /**
   * Options read from `f_auto=true&dpr=2.0` come in the order f_auto, dpr;
   * written back by position the dpr number is handed to `validate_f_auto`,
   * so the write fails.
   */
  lemma PositionalRejectsReadOptions()
    ensures PositionalOptionItems([("f_auto", Bool(true)), ("dpr", Num(2.0))]) == Failure(IllegalQueryParameter(F_AUTO_MESSAGE))
    ensures KeyedOptionItems([("f_auto", Bool(true)), ("dpr", Num(2.0))]) == Success(["dpr=2.0", "f_auto=True"])
  {
    var options := [("f_auto", Bool(true)), ("dpr", Num(2.0))];
    DprItemsInRange(2.0);
    assert OneDecimal(2.0) == "2.0";
    assert "dpr=" + "2.0" == "dpr=2.0";
    FAutoItemsTrue();
    assert OptionValue(options, "dpr") == Num(2.0);
    assert OptionValue(options, "f_auto") == Bool(true);
    assert ["dpr=2.0"] + ["f_auto=True"] == ["dpr=2.0", "f_auto=True"];
  }
}
