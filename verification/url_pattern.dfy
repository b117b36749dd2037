/**
 * The pattern grammar of `Url`: a chain of operations `op~op~…`, where an
 * operation of the basic plugin `p` is written `p:name(k:v,…)` (or bare
 * `p:name` without parameters) and any other is written `plugin.name(k:v,…)`
 * with the parentheses always present.
 *
 * Parsing follows `get_transformation_details_from_pattern` and its helpers;
 * formatting follows `get_pattern_from_transformations`.
 */
module UrlPattern {
  import opened Wrappers
  import opened Exceptions
  import opened Strings
  import opened Php
  import OrderedMap

  const OPERATION_SEPARATOR: char := '~'
  const PARAMETER_SEPARATOR: char := ','
  const ORIGINAL := "original"

  /** One `{key, value}` entry of a parsed operation. */
  datatype Param = Param(key: string, value: string)

  /**
   * A parsed operation. `name` is None where PHP leaves it null (a token with
   * no `.`); `values` is None when no parameter survived, as the PHP array
   * then has no "values" entry at all.
   */
  datatype Operation = Operation(plugin: string, name: Option<string>, values: Option<seq<Param>>)

  /** A parameter as a caller of `obj_to_url` supplies it: "key" or "value" may be missing (None). */
  datatype ParamDescriptor = ParamDescriptor(key: Option<string>, value: Option<string>)

  /** An operation as a caller of `obj_to_url` supplies it: "name" and "values" may be missing. */
  datatype OperationDescriptor = OperationDescriptor(plugin: string, name: Option<string>, values: Option<seq<ParamDescriptor>>)

  // ---------------------------------------------------------------------------
  // Parse direction
  // ---------------------------------------------------------------------------

  function RemoveLeadingDash(s: string): string
  {
    if |s| > 0 && s[0] == '-' then s[1..] else s
  }

  /**
   * `get_params_list`: the text after the first `(` (up to a second one), with
   * every `)` removed and one leading `-` dropped, split on `,`.
   */
  function ParamsList(token: string): seq<string>
  {
    Split(RemoveLeadingDash(RemoveAll(At(Split(token, '('), 1), ')')), PARAMETER_SEPARATOR)
  }

  /** The key an item of a parameter list contributes, if any: the text before its first `:`, unless falsy. */
  function ItemKey(item: string): Option<string>
  {
    if ':' in item && !FalsyString(Split(item, ':')[0]) then Some(Split(item, ':')[0]) else None
  }

  /** The value an item contributes: the text between its first and second `:`. */
  function ItemValue(item: string): string
  {
    At(Split(item, ':'), 1)
  }

  /** One pass of the loop of `get_params_object`: `$params[$param] = $val`. */
  function AddParam(params: seq<(string, string)>, item: string): seq<(string, string)>
  {
    match ItemKey(item)
    case Some(k) => OrderedMap.Put(params, k, ItemValue(item))
    case None => params
  }

  /** `get_params_object` (its result 0 for "no parameters" is the empty array here). */
  function ParamsObject(items: seq<string>): seq<(string, string)>
  {
    if |items| == 0 then [] else AddParam(ParamsObject(items[..|items| - 1]), items[|items| - 1])
  }

  /** The loop of `get_params_object`, filling `$params` item by item. */
  method GetParamsObject(paramsList: seq<string>) returns (params: seq<(string, string)>)
    ensures params == ParamsObject(paramsList)
    ensures OrderedMap.DistinctKeys(params)
  {
    params := [];
    for i := 0 to |paramsList|
      invariant params == ParamsObject(paramsList[..i])
      invariant OrderedMap.DistinctKeys(params)
    {
      var item := paramsList[i];
      if ':' in item {
        var kv := Split(item, ':');
        if !FalsyString(kv[0]) {
          OrderedMap.PutDistinct(params, kv[0], At(kv, 1));
          params := OrderedMap.Put(params, kv[0], At(kv, 1));
        }
      }
      assert paramsList[..i + 1][..i] == paramsList[..i];
    }
    assert paramsList[..|paramsList|] == paramsList;
  }

  /** The `array_map` of `$map_key_value`: an associative array as a list of `{key, value}`. */
  function ToParams(assoc: seq<(string, string)>): (ps: seq<Param>)
    ensures |ps| == |assoc|
    ensures forall i | 0 <= i < |assoc| :: ps[i] == Param(assoc[i].0, assoc[i].1)
  {
    seq(|assoc|, i requires 0 <= i < |assoc| => Param(assoc[i].0, assoc[i].1))
  }

  /**
   * The plugin id and the name of a token, from the text before its first `(`:
   * split on `:` for a `p:` token and on `.` otherwise; the name is the text
   * between the first and second separator, null when there is none.
   */
  function PluginAndName(token: string): (string, Option<string>)
  {
    var fullFnName := Split(token, '(')[0];
    var nameParts := if StartsWith(token, "p:") then Split(fullFnName, ':') else Split(fullFnName, '.');
    (nameParts[0], if |nameParts| > 1 then Some(nameParts[1]) else None)
  }

  /** The parameters of a token: none for a `p` token without `(`, else its parameter list read into an array. */
  function OperationParams(token: string, plugin: string): seq<(string, string)>
  {
    if plugin == "p" && '(' !in token then [] else ParamsObject(ParamsList(token))
  }

  /** `get_operation_details_from_operation` followed by `$map_func`. */
  function ParseOperation(token: string): Operation
  {
    var (plugin, name) := PluginAndName(token);
    var assoc := OperationParams(token, plugin);
    Operation(plugin, name, if |assoc| == 0 then None else Some(ToParams(assoc)))
  }

  /** `get_transformation_details_from_pattern`: one operation per `~`-separated token. */
  function ParsePattern(pattern: string): seq<Operation>
  {
    if pattern == ORIGINAL then []
    else
      var tokens := Split(pattern, OPERATION_SEPARATOR);
      seq(|tokens|, i requires 0 <= i < |tokens| => ParseOperation(tokens[i]))
  }

  // ---------------------------------------------------------------------------
  // Format direction
  // ---------------------------------------------------------------------------

  /** A supplied parameter with a truthy key and a truthy value. */
  predicate Complete(p: ParamDescriptor)
  {
    p.key.Some? && !FalsyString(p.key.value) && p.value.Some? && !FalsyString(p.value.value)
  }

  /** The exception raised for an incomplete parameter of operation `name`. */
  function ParamError(name: string, p: ParamDescriptor): Error
    requires !Complete(p)
  {
    if p.key.None? || FalsyString(p.key.value) then
      IllegalArgument("key not specified in '" + name + "'")
    else
      IllegalArgument("value not specified for '" + p.key.value + "' in '" + name + "'")
  }

  /** The inner loop of `$mapfunc`: `$paramlist`, or the first parameter's error. */
  function ParamList(name: string, values: seq<ParamDescriptor>): Outcome<seq<string>>
  {
    if |values| == 0 then Success([])
    else
      var done :- ParamList(name, values[..|values| - 1]);
      var item := values[|values| - 1];
      if !Complete(item) then Failure(ParamError(name, item))
      else Success(done + [item.key.value + ":" + item.value.value])
  }

  /** The loop that builds `$paramlist`, throwing at the first incomplete parameter. */
  method BuildParamList(name: string, values: seq<ParamDescriptor>) returns (r: Outcome<seq<string>>)
    ensures r == ParamList(name, values)
  {
    var paramlist: seq<string> := [];
    for i := 0 to |values|
      invariant ParamList(name, values[..i]) == Success(paramlist)
    {
      var items := values[i];
      assert values[..i + 1][..i] == values[..i];
      if items.key.None? || FalsyString(items.key.value) {
        r := Failure(IllegalArgument("key not specified in '" + name + "'"));
        PrefixFailure(name, values, i + 1);
        return;
      }
      if items.value.None? || FalsyString(items.value.value) {
        r := Failure(IllegalArgument("value not specified for '" + items.key.value + "' in '" + name + "'"));
        PrefixFailure(name, values, i + 1);
        return;
      }
      paramlist := paramlist + [items.key.value + ":" + items.value.value];
    }
    assert values[..|values|] == values;
    r := Success(paramlist);
  }

  /** Once a prefix fails, the whole list fails with the same error. */
  lemma {:induction false} PrefixFailure(name: string, values: seq<ParamDescriptor>, n: nat)
    requires n <= |values|
    requires ParamList(name, values[..n]).Failure?
    ensures ParamList(name, values) == ParamList(name, values[..n])
    decreases |values| - n
  {
    if n < |values| {
      assert values[..n + 1][..n] == values[..n];
      PrefixFailure(name, values, n + 1);
    } else {
      assert values[..n] == values;
    }
  }

  /** `$mapfunc`: the token of one operation, None for a nameless one. */
  function RenderOperation(op: OperationDescriptor): Outcome<Option<string>>
  {
    if op.name.None? then Success(None)
    else
      var name := op.name.value;
      var paramlist :- ParamList(name, op.values.GetOr([]));
      var paramstr := Join(paramlist, PARAMETER_SEPARATOR);
      if op.plugin == "p" then
        Success(Some(if !FalsyString(paramstr) then "p:" + name + "(" + paramstr + ")" else "p:" + name))
      else
        Success(Some(op.plugin + "." + name + "(" + paramstr + ")"))
  }

  /** `array_map($mapfunc, …)` then `array_filter` of the nulls, in list order. */
  function RenderAll(ops: seq<OperationDescriptor>): Outcome<seq<string>>
  {
    if |ops| == 0 then Success([])
    else
      var first :- RenderOperation(ops[0]);
      var rest :- RenderAll(ops[1..]);
      Success(if first.Some? then [first.value] + rest else rest)
  }

  /** `get_pattern_from_transformations`: None for an empty list, else the tokens joined by `~`. */
  function PatternFromTransformations(ops: seq<OperationDescriptor>): Outcome<Option<string>>
  {
    if |ops| == 0 then Success(None)
    else
      var tokens :- RenderAll(ops);
      Success(Some(Join(tokens, OPERATION_SEPARATOR)))
  }

  // ---------------------------------------------------------------------------
  // What parsing promises
  // ---------------------------------------------------------------------------

  /** The value of an item is exactly the text between its first and second `:`. */
  lemma ItemBetweenColons(k: string, v: string, tail: string)
    requires ':' !in k && ':' !in v && !FalsyString(k)
    requires tail == "" || tail[0] == ':'
    ensures ItemKey(k + ":" + v + tail) == Some(k)
    ensures ItemValue(k + ":" + v + tail) == v
  {
    var item := k + ":" + v + tail;
    assert item == k + [':'] + (v + tail);
    SplitAtFirst(k, v + tail, ':');
    if tail == "" {
      assert v + tail == v;
      SplitWithout(v, ':');
    } else {
      assert v + tail == v + [':'] + tail[1..];
      SplitAtFirst(v, tail[1..], ':');
    }
  }

  /** The keys of items that contribute one, in order, repeats included. */
  function ItemKeys(items: seq<string>): seq<string>
  {
    if |items| == 0 then []
    else
      var k := ItemKey(items[|items| - 1]);
      ItemKeys(items[..|items| - 1]) + (if k.Some? then [k.value] else [])
  }

  /** Each key once, at its first occurrence. */
  function FirstOccurrences(ks: seq<string>): seq<string>
  {
    if |ks| == 0 then []
    else
      var seen := FirstOccurrences(ks[..|ks| - 1]);
      if ks[|ks| - 1] in seen then seen else seen + [ks[|ks| - 1]]
  }

  /** The associative array keeps one entry per key. */
  lemma {:induction false} ParamsObjectDistinct(items: seq<string>)
    ensures OrderedMap.DistinctKeys(ParamsObject(items))
  {
    if |items| > 0 {
      var prev := ParamsObject(items[..|items| - 1]);
      ParamsObjectDistinct(items[..|items| - 1]);
      match ItemKey(items[|items| - 1])
      case Some(k) => OrderedMap.PutDistinct(prev, k, ItemValue(items[|items| - 1]));
      case None =>
    }
  }

  /** Its keys come in the order they first appear among the items. */
  lemma {:induction false} ParamsObjectOrder(items: seq<string>)
    ensures OrderedMap.Keys(ParamsObject(items)) == FirstOccurrences(ItemKeys(items))
  {
    if |items| > 0 {
      var n := |items| - 1;
      var prefix := items[..n];
      var prev := ParamsObject(prefix);
      ParamsObjectOrder(prefix);
      match ItemKey(items[n])
      case Some(k) =>
        OrderedMap.PutKeys(prev, k, ItemValue(items[n]));
        assert ItemKeys(items) == ItemKeys(prefix) + [k];
        assert (ItemKeys(prefix) + [k])[..|ItemKeys(prefix)|] == ItemKeys(prefix);
      case None =>
        assert ParamsObject(items) == prev;
        assert ItemKeys(items) == ItemKeys(prefix);
    }
  }

  /** Each key holds the value of its LAST occurrence: a repeated key is overwritten. */
  lemma {:induction false} ParamsObjectLastWins(items: seq<string>, j: nat)
    requires j < |items| && ItemKey(items[j]).Some?
    requires forall j' | j < j' < |items| :: ItemKey(items[j']) != ItemKey(items[j])
    ensures OrderedMap.Get(ParamsObject(items), ItemKey(items[j]).value) == Some(ItemValue(items[j]))
  {
    var n := |items| - 1;
    var prefix := items[..n];
    assert ParamsObject(items) == AddParam(ParamsObject(prefix), items[n]);
    if j < n {
      assert prefix[j] == items[j];
      assert forall j' | j < j' < |prefix| :: prefix[j'] == items[j'];
      ParamsObjectLastWins(prefix, j);
      AddParamOther(ParamsObject(prefix), items[n], ItemKey(items[j]).value);
    } else {
      AddParamSame(ParamsObject(prefix), items[n]);
    }
  }

  /** Adding an item with a key sets that key to the item's value. */
  lemma AddParamSame(params: seq<(string, string)>, item: string)
    requires ItemKey(item).Some?
    ensures OrderedMap.Get(AddParam(params, item), ItemKey(item).value) == Some(ItemValue(item))
  {
    OrderedMap.PutGet(params, ItemKey(item).value, ItemValue(item), ItemKey(item).value);
  }

  /** Adding an item leaves every other key as it was. */
  lemma AddParamOther(params: seq<(string, string)>, item: string, k: string)
    requires ItemKey(item) != Some(k)
    ensures OrderedMap.Get(AddParam(params, item), k) == OrderedMap.Get(params, k)
  {
    if ItemKey(item).Some? {
      OrderedMap.PutGet(params, ItemKey(item).value, ItemValue(item), k);
    }
  }


  /** Every parsed operation has either no "values" or a non-empty list with distinct, truthy keys. */
  lemma ParsedValuesShape(token: string)
    ensures var op := ParseOperation(token);
      op.values.Some? ==>
        && |op.values.value| > 0
        && (forall i | 0 <= i < |op.values.value| :: !FalsyString(op.values.value[i].key))
        && (forall i, j | 0 <= i < j < |op.values.value| :: op.values.value[i].key != op.values.value[j].key)
  {
    var op := ParseOperation(token);
    if op.values.Some? {
      var assoc := ParamsObject(ParamsList(token));
      ParamsObjectDistinct(ParamsList(token));
      KeysTruthy(ParamsList(token));
    }
  }

  /** A token that starts "p:" is an operation of plugin `p` with a name. */
  lemma BasicTokenPlugin(token: string)
    requires StartsWith(token, "p:")
    ensures PluginAndName(token).0 == "p" && PluginAndName(token).1.Some?
  {
    var rest := Split(token[2..], '(')[0];
    PrefixSplitHead(token, '(');
    BasicSplit(rest);
  }

  /** The head `p:…` of a basic token splits on `:` into "p" and at least one more part. */
  lemma BasicSplit(rest: string)
    ensures var parts := Split("p:" + rest, ':'); |parts| > 1 && parts[0] == "p"
  {
    assert "p:" + rest == "p" + [':'] + rest;
    SplitAtFirst("p", rest, ':');
  }


  /** Splitting a string that starts "p:" on `(` keeps the "p:" in front of the first piece. */
  lemma PrefixSplitHead(token: string, d: char)
    requires StartsWith(token, "p:") && d != 'p' && d != ':'
    ensures Split(token, d)[0] == "p:" + Split(token[2..], d)[0]
  {
    assert token[1..][1..] == token[2..];
  }

  lemma {:induction false} KeysTruthy(items: seq<string>)
    ensures forall i | 0 <= i < |ParamsObject(items)| :: !FalsyString(ParamsObject(items)[i].0)
  {
    if |items| > 0 {
      var prev := ParamsObject(items[..|items| - 1]);
      KeysTruthy(items[..|items| - 1]);
      match ItemKey(items[|items| - 1])
      case Some(k) =>
        PutPreservesTruthy(prev, k, ItemValue(items[|items| - 1]));
      case None =>
    }
  }

  lemma {:induction false} PutPreservesTruthy(m: seq<(string, string)>, k: string, v: string)
    requires !FalsyString(k)
    requires forall i | 0 <= i < |m| :: !FalsyString(m[i].0)
    ensures forall i | 0 <= i < |OrderedMap.Put(m, k, v)| :: !FalsyString(OrderedMap.Put(m, k, v)[i].0)
  {
    if |m| > 0 && m[0].0 != k {
      PutPreservesTruthy(m[1..], k, v);
    }
  }

  // ---------------------------------------------------------------------------
  // What formatting promises
  // ---------------------------------------------------------------------------

  /**
   * The parameter list succeeds exactly when every parameter has a truthy key
   * and value; it then holds one `key:value` per parameter, in list order.
   * Otherwise the error is the one of the first incomplete parameter.
   */
  lemma {:induction false} ParamListMeaning(name: string, values: seq<ParamDescriptor>)
    ensures ParamList(name, values).Success? <==> forall i | 0 <= i < |values| :: Complete(values[i])
    ensures ParamList(name, values).Success? ==>
      && |ParamList(name, values).value| == |values|
      && forall i | 0 <= i < |values| ::
           ParamList(name, values).value[i] == values[i].key.value + ":" + values[i].value.value
    ensures ParamList(name, values).Failure? ==>
      exists i | 0 <= i < |values| ::
        && (forall j | 0 <= j < i :: Complete(values[j]))
        && !Complete(values[i])
        && ParamList(name, values).error == ParamError(name, values[i])
  {
    if |values| > 0 {
      var n := |values| - 1;
      var prefix := values[..n];
      ParamListMeaning(name, prefix);
      assert forall i | 0 <= i < n :: prefix[i] == values[i];
      var r := ParamList(name, values);
      if ParamList(name, prefix).Failure? {
        var i :| 0 <= i < n && (forall j | 0 <= j < i :: Complete(prefix[j])) && !Complete(prefix[i]) &&
                 ParamList(name, prefix).error == ParamError(name, prefix[i]);
        assert !Complete(values[i]);
      } else if !Complete(values[n]) {
        assert forall j | 0 <= j < n :: Complete(values[j]);
      }
    }
  }

  /** A nameless operation renders to nothing, whatever its parameters. */
  lemma {:induction false} NamelessDropped(ops: seq<OperationDescriptor>, i: nat)
    requires i < |ops| && ops[i].name.None?
    ensures RenderAll(ops) == RenderAll(ops[..i] + ops[i + 1..])
  {
    var rest := ops[..i] + ops[i + 1..];
    if i > 0 {
      NamelessDropped(ops[1..], i - 1);
      assert rest[0] == ops[0];
      assert rest[1..] == ops[1..][..i - 1] + ops[1..][i..];
      RenderAllCons(ops);
      RenderAllCons(rest);
    } else {
      assert rest == ops[1..];
      RenderAllCons(ops);
    }
  }

  /** Formatting a list: its head's token (if it has a name) before the tokens of the rest. */
  lemma RenderAllCons(ops: seq<OperationDescriptor>)
    requires |ops| > 0
    ensures RenderAll(ops) ==
      match RenderOperation(ops[0])
      case Failure(e) => Failure(e)
      case Success(first) =>
        match RenderAll(ops[1..])
        case Failure(e) => Failure(e)
        case Success(rest) => Success(if first.Some? then [first.value] + rest else rest)
  {
  }


  /**
   * Formatting fails exactly when some NAMED operation has an incomplete
   * parameter, and then with an IllegalArgument error; no pattern is returned.
   */
  lemma {:induction false} FormatFailsIff(ops: seq<OperationDescriptor>)
    ensures RenderAll(ops).Failure? <==>
      exists i | 0 <= i < |ops| :: ops[i].name.Some? && !AllComplete(ops[i].values.GetOr([]))
    ensures RenderAll(ops).Failure? ==> RenderAll(ops).error.IllegalArgument?
  {
    if |ops| > 0 {
      FormatFailsIff(ops[1..]);
      assert forall i | 1 <= i < |ops| :: ops[1..][i - 1] == ops[i];
      if ops[0].name.Some? {
        ParamListMeaning(ops[0].name.value, ops[0].values.GetOr([]));
        if RenderOperation(ops[0]).Failure? {
          var vs := ops[0].values.GetOr([]);
          var k :| 0 <= k < |vs| && !Complete(vs[k]) && ParamList(ops[0].name.value, vs).error == ParamError(ops[0].name.value, vs[k]);
        }
      }
    }
  }

  /**
   * The error reported is that of the first named operation with an
   * incomplete parameter: the message names that operation and its first
   * incomplete parameter.
   */
  lemma {:induction false} FormatReportsFirst(ops: seq<OperationDescriptor>, i: nat)
    requires i < |ops| && ops[i].name.Some? && !AllComplete(ops[i].values.GetOr([]))
    requires forall j | 0 <= j < i :: ops[j].name.None? || AllComplete(ops[j].values.GetOr([]))
    ensures var failed := ParamList(ops[i].name.value, ops[i].values.GetOr([]));
      failed.Failure? && RenderAll(ops) == Failure(failed.error)
    decreases i
  {
    var head := ops[0];
    ParamListMeaning(head.name.GetOr(""), head.values.GetOr([]));
    if i > 0 {
      var tail := ops[1..];
      assert forall j | 0 <= j < i - 1 :: tail[j] == ops[j + 1];
      FormatReportsFirst(tail, i - 1);
      assert tail[i - 1] == ops[i];
    }
  }

  predicate AllComplete(values: seq<ParamDescriptor>)
  {
    forall i | 0 <= i < |values| :: Complete(values[i])
  }

  // ---------------------------------------------------------------------------
  // The grammar round trip
  // ---------------------------------------------------------------------------

  /** Text that holds none of the grammar's delimiters `:` `,` `(` `)` `~`. */
  predicate Word(s: string)
  {
    forall i | 0 <= i < |s| :: s[i] !in ":,()~"
  }

  /** A plugin id or operation name: a word without `.` either. */
  predicate Ident(s: string)
  {
    Word(s) && '.' !in s
  }

  /** The canonical parameters: truthy words, distinct keys, the list not starting with `-`. */
  predicate WellFormedParams(ps: seq<Param>)
  {
    && (forall i | 0 <= i < |ps| :: !FalsyString(ps[i].key) && !FalsyString(ps[i].value))
    && (forall i | 0 <= i < |ps| :: Word(ps[i].key) && Word(ps[i].value))
    && (forall i, j | 0 <= i < j < |ps| :: ps[i].key != ps[j].key)
    && (|ps| > 0 ==> ps[0].key[0] != '-')
  }

  /** An operation in the formatter's canonical form. */
  predicate WellFormedOperation(op: Operation)
  {
    && op.name.Some?
    && Ident(op.plugin)
    && Ident(op.name.value)
    && (op.values.Some? ==> |op.values.value| > 0 && WellFormedParams(op.values.value))
  }

  predicate AllWellFormed(ops: seq<Operation>)
  {
    forall i | 0 <= i < |ops| :: WellFormedOperation(ops[i])
  }

  /** A parsed operation handed back to `obj_to_url`: a null name reads as "". */
  function ToDescriptor(op: Operation): OperationDescriptor
  {
    OperationDescriptor(
      op.plugin,
      Some(op.name.GetOr("")),
      match op.values
      case None => None
      case Some(ps) => Some(DescribeParams(ps)))
  }

  /** Parameters as a caller supplies them, with every key and value present. */
  function DescribeParams(ps: seq<Param>): seq<ParamDescriptor>
  {
    seq(|ps|, i requires 0 <= i < |ps| => ParamDescriptor(Some(ps[i].key), Some(ps[i].value)))
  }

  function DescribeAll(ops: seq<Operation>): seq<OperationDescriptor>
  {
    seq(|ops|, i requires 0 <= i < |ops| => ToDescriptor(ops[i]))
  }

  function Pairs(ps: seq<Param>): (r: seq<string>)
    ensures |r| == |ps|
  {
    seq(|ps|, i requires 0 <= i < |ps| => ps[i].key + ":" + ps[i].value)
  }

  function Assoc(ps: seq<Param>): seq<(string, string)>
  {
    seq(|ps|, i requires 0 <= i < |ps| => (ps[i].key, ps[i].value))
  }

  /** The grammar, written directly: the token an operation stands for. */
  function Token(op: Operation): string
    requires op.name.Some?
  {
    var args := "(" + Join(Pairs(op.values.GetOr([])), PARAMETER_SEPARATOR) + ")";
    if op.plugin == "p" then "p:" + op.name.value + (if op.values.Some? then args else "")
    else op.plugin + "." + op.name.value + args
  }

  function Tokens(ops: seq<Operation>): seq<string>
    requires forall i | 0 <= i < |ops| :: ops[i].name.Some?
  {
    seq(|ops|, i requires 0 <= i < |ops| => Token(ops[i]))
  }

  lemma PairsAvoid(ps: seq<Param>, c: char)
    requires WellFormedParams(ps)
    requires c in ",()~"
    ensures forall i | 0 <= i < |ps| :: c !in Pairs(ps)[i]
    ensures c != ',' ==> c !in Join(Pairs(ps), PARAMETER_SEPARATOR)
  {
    var pairs := Pairs(ps);
    forall i | 0 <= i < |ps| ensures c !in pairs[i] {
      assert pairs[i] == ps[i].key + ":" + ps[i].value;
      assert forall j | 0 <= j < |ps[i].key| :: ps[i].key[j] != c;
      assert forall j | 0 <= j < |ps[i].value| :: ps[i].value[j] != c;
    }
    if c != ',' {
      JoinAvoids(pairs, PARAMETER_SEPARATOR, c);
    }
  }

  lemma SplitJoinPairs(ps: seq<Param>)
    requires WellFormedParams(ps) && |ps| > 0
    ensures Split(Join(Pairs(ps), PARAMETER_SEPARATOR), PARAMETER_SEPARATOR) == Pairs(ps)
  {
    PairsAvoid(ps, ',');
    SplitJoin(Pairs(ps), PARAMETER_SEPARATOR);
  }

  /** Reading back the rendered `key:value` items rebuilds the parameters in order. */
  lemma {:induction false} ParamsObjectOfPairs(ps: seq<Param>)
    requires WellFormedParams(ps)
    ensures ParamsObject(Pairs(ps)) == Assoc(ps)
  {
    if |ps| > 0 {
      var n := |ps| - 1;
      var prefix := ps[..n];
      assert WellFormedParams(prefix);
      ParamsObjectOfPairs(prefix);
      assert Pairs(ps)[..n] == Pairs(prefix);
      AddPairStep(ps);
    }
  }

  /** One step of the above: the last rendered item appends its parameter. */
  lemma AddPairStep(ps: seq<Param>)
    requires WellFormedParams(ps) && |ps| > 0
    ensures AddParam(Assoc(ps[..|ps| - 1]), Pairs(ps)[|ps| - 1]) == Assoc(ps)
  {
    var n := |ps| - 1;
    var prefix := ps[..n];
    var k, v := ps[n].key, ps[n].value;
    assert ':' !in k by { assert forall j | 0 <= j < |k| :: k[j] != ':'; }
    assert ':' !in v by { assert forall j | 0 <= j < |v| :: v[j] != ':'; }
    ItemBetweenColons(k, v, "");
    assert k + ":" + v + "" == Pairs(ps)[n];
    var keys := OrderedMap.Keys(Assoc(prefix));
    assert k !in keys by {
      forall i | 0 <= i < n ensures keys[i] != k {
        assert Assoc(prefix)[i].0 == ps[i].key;
      }
    }
    OrderedMap.PutFresh(Assoc(prefix), k, v);
    assert Assoc(prefix) + [(k, v)] == Assoc(ps);
  }

  /** The parameter list of a token `head(args)` is the list of rendered items. */
  lemma ParamsListOfToken(head: string, ps: seq<Param>)
    requires '(' !in head
    requires WellFormedParams(ps)
    ensures ParamsList(head + "(" + Join(Pairs(ps), PARAMETER_SEPARATOR) + ")") ==
            if |ps| == 0 then [""] else Pairs(ps)
  {
    var args := Join(Pairs(ps), PARAMETER_SEPARATOR);
    var t := head + "(" + args + ")";
    assert t == head + ['('] + (args + ")");
    PairsAvoid(ps, '(');
    PairsAvoid(ps, ')');
    SplitAtFirst(head, args + ")", '(');
    assert '(' !in args + ")";
    SplitWithout(args + ")", '(');
    assert At(Split(t, '('), 1) == args + ")";
    RemoveAllConcat(args, ")", ')');
    assert RemoveAll(")", ')') == "";
    assert RemoveAll(args + ")", ')') == args;
    if |ps| == 0 {
      assert args == "";
      SplitWithout("", PARAMETER_SEPARATOR);
    } else {
      JoinPrefix(Pairs(ps), PARAMETER_SEPARATOR);
      assert Pairs(ps)[0] == ps[0].key + ":" + ps[0].value;
      assert args[0] == ps[0].key[0];
      SplitJoinPairs(ps);
    }
  }

  /** The formatter writes exactly the grammar's token. */
  lemma RenderIsToken(op: Operation)
    requires WellFormedOperation(op)
    ensures RenderOperation(ToDescriptor(op)) == Success(Some(Token(op)))
  {
    var n := op.name.value;
    var ps := op.values.GetOr([]);
    assert ToDescriptor(op).values.GetOr([]) == DescribeParams(ps);
    ParamListOfParams(n, ps);
    var paramstr := Join(Pairs(ps), PARAMETER_SEPARATOR);
    var args := "(" + paramstr + ")";
    if op.plugin == "p" {
      if |ps| > 0 {
        ParamStrTruthy(ps);
        assert "p:" + n + "(" + paramstr + ")" == "p:" + n + args;
      } else {
        assert paramstr == "" && op.values.None?;
        assert "p:" + n + "" == "p:" + n;
      }
    } else {
      assert op.plugin + "." + n + "(" + paramstr + ")" == op.plugin + "." + n + args;
    }
  }

  /** Complete parameters list as their `key:value` pairs. */
  lemma ParamListOfParams(name: string, ps: seq<Param>)
    requires WellFormedParams(ps)
    ensures ParamList(name, DescribeParams(ps)) == Success(Pairs(ps))
  {
    var descs := DescribeParams(ps);
    assert forall i | 0 <= i < |descs| :: Complete(descs[i]);
    ParamListMeaning(name, descs);
    var list := ParamList(name, descs).value;
    assert |list| == |descs| == |ps|;
    assert forall i | 0 <= i < |ps| :: list[i] == Pairs(ps)[i];
    assert list == Pairs(ps);
  }

  /** A non-empty parameter string holds a `:`, so it is truthy. */
  lemma ParamStrTruthy(ps: seq<Param>)
    requires WellFormedParams(ps) && |ps| > 0
    ensures !FalsyString(Join(Pairs(ps), PARAMETER_SEPARATOR))
  {
    var paramstr := Join(Pairs(ps), PARAMETER_SEPARATOR);
    JoinPrefix(Pairs(ps), PARAMETER_SEPARATOR);
    assert Pairs(ps)[0] == ps[0].key + ":" + ps[0].value;
    assert paramstr[|ps[0].key|] == ':';
  }

  lemma ParseBasicToken(op: Operation)
    requires WellFormedOperation(op) && op.plugin == "p"
    ensures ParseOperation(Token(op)) == op
  {
    var t := Token(op);
    BasicTokenName(op);
    BasicTokenParams(op);
    ParsedFromParts(t, "p", op.name, Assoc(op.values.GetOr([])));
    AssocToParams(op.values.GetOr([]));
  }

  lemma BasicTokenName(op: Operation)
    requires WellFormedOperation(op) && op.plugin == "p"
    ensures PluginAndName(Token(op)) == ("p", op.name)
  {
    var n := op.name.value;
    var head := "p:" + n;
    var t := Token(op);
    var rest := if op.values.Some? then "(" + Join(Pairs(op.values.value), PARAMETER_SEPARATOR) + ")" else "";
    assert t == head + rest;
    assert '(' !in head by {
      assert forall j | 0 <= j < |n| :: n[j] != '(';
    }
    if op.values.Some? {
      assert t == head + ['('] + rest[1..];
      SplitHead(head, rest[1..], '(');
    } else {
      assert t == head;
      SplitHead(head, "", '(');
    }
    assert t[..2] == "p:";
    BasicHead(n);
  }

  lemma BasicTokenParams(op: Operation)
    requires WellFormedOperation(op) && op.plugin == "p"
    ensures OperationParams(Token(op), "p") == Assoc(op.values.GetOr([]))
  {
    var n := op.name.value;
    var head := "p:" + n;
    var t := Token(op);
    assert '(' !in head by {
      assert forall j | 0 <= j < |n| :: n[j] != '(';
    }
    if op.values.Some? {
      var ps := op.values.value;
      var args := Join(Pairs(ps), PARAMETER_SEPARATOR);
      assert t == head + "(" + args + ")";
      assert '(' in t by { assert t[|head|] == '('; }
      ParamsListOfToken(head, ps);
      ParamsObjectOfPairs(ps);
    } else {
      assert t == head;
    }
  }

  /** ParseOperation assembled from its two halves. */
  lemma ParsedFromParts(t: string, plugin: string, name: Option<string>, assoc: seq<(string, string)>)
    requires PluginAndName(t) == (plugin, name)
    requires OperationParams(t, plugin) == assoc
    ensures ParseOperation(t) == Operation(plugin, name, if |assoc| == 0 then None else Some(ToParams(assoc)))
  {
  }

  lemma AssocToParams(ps: seq<Param>)
    ensures ToParams(Assoc(ps)) == ps
    ensures |Assoc(ps)| == |ps|
  {
  }

  lemma BasicHead(n: string)
    requires Ident(n)
    ensures Split("p:" + n, ':') == ["p", n]
  {
    assert ':' !in n by {
      assert forall j | 0 <= j < |n| :: n[j] != ':';
    }
    assert "p:" + n == "p" + [':'] + n;
    SplitAtFirst("p", n, ':');
    SplitWithout(n, ':');
  }

  lemma PluginHead(plugin: string, n: string)
    requires Ident(plugin) && Ident(n)
    ensures Split(plugin + "." + n, '.') == [plugin, n]
  {
    assert plugin + "." + n == plugin + ['.'] + n;
    SplitAtFirst(plugin, n, '.');
    SplitWithout(n, '.');
  }

  /** Parsing the token of a canonical operation of any other plugin gives it back. */
  lemma ParsePluginToken(op: Operation)
    requires WellFormedOperation(op) && op.plugin != "p"
    ensures ParseOperation(Token(op)) == op
  {
    var t := Token(op);
    PluginTokenName(op);
    PluginTokenParams(op);
    ParsedFromParts(t, op.plugin, op.name, Assoc(op.values.GetOr([])));
    AssocToParams(op.values.GetOr([]));
  }

  lemma PluginTokenName(op: Operation)
    requires WellFormedOperation(op) && op.plugin != "p"
    ensures PluginAndName(Token(op)) == (op.plugin, op.name)
  {
    var plugin, n := op.plugin, op.name.value;
    var args := Join(Pairs(op.values.GetOr([])), PARAMETER_SEPARATOR);
    assert Token(op) == plugin + "." + n + "(" + args + ")";
    IdentAvoids(plugin);
    IdentAvoids(n);
    PluginHead(plugin, n);
    DottedHead(plugin, n, args);
    DottedPluginAndName(plugin + "." + n + "(" + args + ")", plugin + "." + n, plugin, n);
  }

  /** An identifier holds none of the token's punctuation. */
  lemma IdentAvoids(s: string)
    requires Ident(s)
    ensures '(' !in s && ':' !in s && '.' !in s
  {
    assert forall j | 0 <= j < |s| :: s[j] != '(' && s[j] != ':';
  }

  /** The head of a dotted token, before its `(`, and the fact that it does not start with `p:`. */
  lemma DottedHead(plugin: string, n: string, args: string)
    requires '(' !in plugin && '(' !in n && ':' !in plugin && plugin != "p"
    ensures Split(plugin + "." + n + "(" + args + ")", '(')[0] == plugin + "." + n
    ensures !StartsWith(plugin + "." + n + "(" + args + ")", "p:")
  {
    var head := plugin + "." + n;
    assert '(' !in head;
    assert plugin + "." + n + "(" + args + ")" == head + ['('] + (args + ")");
    SplitHead(head, args + ")", '(');
    NotBasicPrefix(plugin, n, args);
  }

  /** The plugin and name of a token without the `p:` prefix come from its dotted head. */
  lemma DottedPluginAndName(t: string, head: string, plugin: string, n: string)
    requires Split(t, '(')[0] == head && !StartsWith(t, "p:")
    requires Split(head, '.') == [plugin, n]
    ensures PluginAndName(t) == (plugin, Some(n))
  {
  }


  /** A token of a plugin other than `p` (whose id has no `:`) does not start with `p:`. */
  lemma NotBasicPrefix(plugin: string, n: string, args: string)
    requires plugin != "p" && ':' !in plugin
    ensures !StartsWith(plugin + "." + n + "(" + args + ")", "p:")
  {
    var t := plugin + "." + n + "(" + args + ")";
    if |plugin| >= 2 {
      assert t[1] == plugin[1];
    } else if |plugin| == 1 {
      assert t[1] == '.';
    } else {
      assert t[0] == '.';
    }
  }

  lemma PluginTokenParams(op: Operation)
    requires WellFormedOperation(op) && op.plugin != "p"
    ensures OperationParams(Token(op), op.plugin) == Assoc(op.values.GetOr([]))
  {
    var plugin, n := op.plugin, op.name.value;
    var ps := op.values.GetOr([]);
    var head := plugin + "." + n;
    var t := Token(op);
    var args := Join(Pairs(ps), PARAMETER_SEPARATOR);
    assert '(' !in head by {
      assert forall j | 0 <= j < |n| :: n[j] != '(';
      assert forall j | 0 <= j < |plugin| :: plugin[j] != '(';
    }
    assert t == head + "(" + args + ")";
    ParamsListOfToken(head, ps);
    if op.values.Some? {
      ParamsObjectOfPairs(ps);
    } else {
      assert ParamsList(t) == [""];
      assert ItemKey("").None?;
      assert [""][..0] == [];
      assert ParamsObject([""]) == AddParam(ParamsObject([]), "");
    }
  }

  lemma TokenAvoidsTilde(op: Operation)
    requires WellFormedOperation(op)
    ensures '~' !in Token(op)
    ensures ':' in Token(op) || '.' in Token(op)
  {
    var ps := op.values.GetOr([]);
    PairsAvoid(ps, '~');
    assert '~' !in op.plugin by {
      assert forall j | 0 <= j < |op.plugin| :: op.plugin[j] != '~';
    }
    assert '~' !in op.name.value by {
      assert forall j | 0 <= j < |op.name.value| :: op.name.value[j] != '~';
    }
    if op.plugin == "p" {
      assert Token(op)[1] == ':';
    } else {
      assert Token(op)[|op.plugin|] == '.';
    }
  }

  /** No token holds the operation separator, and each parses back to its operation. */
  lemma TokensParse(ops: seq<Operation>)
    requires AllWellFormed(ops)
    ensures forall i | 0 <= i < |ops| :: '~' !in Tokens(ops)[i]
    ensures forall i | 0 <= i < |ops| :: ParseOperation(Tokens(ops)[i]) == ops[i]
  {
    forall i | 0 <= i < |ops|
      ensures '~' !in Tokens(ops)[i] && ParseOperation(Tokens(ops)[i]) == ops[i]
    {
      TokenAvoidsTilde(ops[i]);
      if ops[i].plugin == "p" {
        ParseBasicToken(ops[i]);
      } else {
        ParsePluginToken(ops[i]);
      }
    }
  }

  /** A pattern of canonical tokens is never the literal "original". */
  lemma PatternNotOriginal(ops: seq<Operation>)
    requires |ops| > 0 && AllWellFormed(ops)
    requires forall i | 0 <= i < |ops| :: '~' !in Tokens(ops)[i]
    ensures Join(Tokens(ops), OPERATION_SEPARATOR) != ORIGINAL
  {
    var tokens := Tokens(ops);
    var p := Join(tokens, OPERATION_SEPARATOR);
    JoinPrefix(tokens, OPERATION_SEPARATOR);
    TokenAvoidsTilde(ops[0]);
    var k :| 0 <= k < |tokens[0]| && tokens[0][k] in ":.";
    assert p[k] in ":.";
    OriginalPlain(p, k);
  }

  /** The literal "original" holds neither `:` nor `.`. */
  lemma OriginalPlain(p: string, k: nat)
    requires k < |p| && p[k] in ":."
    ensures p != ORIGINAL
  {
    assert forall j | 0 <= j < |ORIGINAL| :: ORIGINAL[j] !in ":.";
  }

  /**
   * Both round trips. Format then parse: the pattern written for a non-empty
   * list of canonical operations parses back to exactly that list, in order.
   * Parse then format: that pattern is written back unchanged by formatting
   * what it parses to.
   */
  lemma PatternRoundTrip(ops: seq<Operation>)
    requires |ops| > 0 && AllWellFormed(ops)
    ensures PatternFromTransformations(DescribeAll(ops)) == Success(Some(Join(Tokens(ops), OPERATION_SEPARATOR)))
    ensures ParsePattern(Join(Tokens(ops), OPERATION_SEPARATOR)) == ops
    ensures var pattern := Join(Tokens(ops), OPERATION_SEPARATOR);
      PatternFromTransformations(DescribeAll(ParsePattern(pattern))) == Success(Some(pattern))
  {
    RenderAllTokens(ops);
    var tokens := Tokens(ops);
    TokensParse(ops);
    SplitJoin(tokens, OPERATION_SEPARATOR);
    PatternNotOriginal(ops);
    var p := Join(tokens, OPERATION_SEPARATOR);
    assert Split(p, OPERATION_SEPARATOR) == tokens;
    assert ParsePattern(p) == seq(|tokens|, i requires 0 <= i < |tokens| => ParseOperation(tokens[i]));
  }

  lemma {:induction false} RenderAllTokens(ops: seq<Operation>)
    requires AllWellFormed(ops)
    ensures RenderAll(DescribeAll(ops)) == Success(Tokens(ops))
  {
    if |ops| > 0 {
      RenderIsToken(ops[0]);
      assert DescribeAll(ops)[1..] == DescribeAll(ops[1..]);
      RenderAllTokens(ops[1..]);
      assert Tokens(ops) == [Token(ops[0])] + Tokens(ops[1..]);
    }
  }
}
