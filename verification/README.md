# Pixelbin URL utilities, modelled in Dafny

This project models three parts of the Pixelbin PHP SDK:

- **`Url`** (`Pixelbin/Utils/Url.php`) converts between two forms:
  - a Pixelbin CDN URL, such as
    `https://cdn.pixelbin.io/v2/cloud/zone12/t.resize(h:200,w:100)~p:compress/dir/file.jpeg?dpr=2.0&f_auto=True`;
  - its object form: base URL, version, cloud name, zone, pattern, file path, the `dpr`/`f_auto` options, and the list of transformations parsed from the pattern.
- **`Utils::create_query_string`** (`Pixelbin/Common/Utils.php`) turns a parameter array into a sorted, URL-encoded query string.
- **`AccessEnum`** (`Pixelbin/Platform/Enums/AccessEnum.php`) is the two-valued access enum, together with its validator.

## Modules

| module | what it holds |
|---|---|
| `Wrappers` | `Option` and `Result` |
| `Exceptions` | one `Error` constructor per exception class raised here (PHP `TypeError` included), and their messages |
| `Strings` | `explode`/`implode` as `Split`/`Join`, and the lemmas relating them |
| `Php` | loose PHP values, truthiness, the `(float)` cast, `number_format(x, 1)` and `json_encode` of a boolean |
| `OrderedMap` | a PHP associative array as an insertion-ordered list of pairs |
| `UrlPattern` | the transformation-pattern grammar, in both directions |
| `UrlPath` | the path decomposition of `get_url_parts` |
| `UrlQuery` | the `dpr`/`f_auto` query options, read and written |
| `Url` | `url_to_obj` and `obj_to_url`, and the round trip between them |
| `QueryString` | `create_query_string` |
| `Access` | `AccessEnum` |

## How the source is modelled

- **Pure versus looping code.**
  - Pure PHP functions become Dafny functions.
  - `UrlPath.GetUrlParts`, a loop-free procedure, is a method proved equal to the non-recursive `UrlParts`.
  - Each PHP loop that fills a list or an array becomes a method, proved equal to a recursive specification function:
    - `UrlPattern.GetParamsObject` and `UrlPattern.BuildParamList`;
    - `UrlQuery.ProcessQueryParams`;
    - `Url.GetUrlFromObj`;
    - `QueryString.CreateQueryString`.
  - The properties are then proved about the specification functions.
- **Exceptions** are the `Failure` side of an `Outcome`.
- **An undefined array index** reads as `""`. PHP only warns there.
- **The regular expressions** of `Url` are written out as predicates on the path segments.

## Model

| member | source | states |
|---|---|---|
| UrlPath.GetUrlParts | Pixelbin/Utils/Url.php:31-74 | The loop-free procedure returns exactly the path decomposition `UrlParts`. That decomposition is: the optional version segment first, then the with-zone shape, then the without-zone shape, and otherwise InvalidUrl. |
| UrlPath.UrlPartsSucceedsIff | Pixelbin/Utils/Url.php:47-72 | Decomposition succeeds iff two things hold: the segment after the version is at least 3 bytes long in UTF-8 (`strlen`), and the rest matches the with-zone or the without-zone shape. Every failure is InvalidUrl with the "Invalid pixelbin url" message. |
| UrlPath.UrlPartsLossless | Pixelbin/Utils/Url.php:40-69 | On success, the path segments are exactly: the leading segment, the version if one was present, the cloud name, the zone if one was found, the pattern, and the segments of the file path. Nothing is lost or reordered. |
| UrlPath.UrlPartsFields | Pixelbin/Utils/Url.php:38-60 | The version is always v1 or v2. It equals segment 1 when that segment is a version, and defaults to v1 otherwise. The cloud name is at least 3 bytes long. A zone is six slug characters, and is present exactly when the with-zone shape matched. |
| UrlPattern.GetParamsObject | Pixelbin/Utils/Url.php:108-124 | The loop builds `ParamsObject`. Keys stay distinct: a later `key:value` overwrites an earlier one. |
| UrlPattern.ParamsObjectOrder | Pixelbin/Utils/Url.php:111-118 | The keys appear in order of their first occurrence among the items that have a truthy key before a `:`. |
| UrlPattern.ParamsObjectLastWins | Pixelbin/Utils/Url.php:113-115 | Each key maps to the value of its last occurrence: the text between the first and second `:`. |
| UrlPattern.ParsedValuesShape | Pixelbin/Utils/Url.php:139-155 | A parsed operation has a "values" entry only when at least one parameter survived. Its keys are then truthy and pairwise distinct. |
| UrlPattern.BuildParamList | Pixelbin/Utils/Url.php:278-288 | The parameter loop yields `ParamList`. It stops at the first parameter that lacks a key or a value. |
| UrlPattern.ParamListMeaning | Pixelbin/Utils/Url.php:280-287 | The parameter list succeeds iff every parameter has a truthy key and value, and then lists `key:value` in order. Otherwise the error is "key not specified" or "value not specified" for the first incomplete parameter. |
| UrlPattern.FormatFailsIff | Pixelbin/Utils/Url.php:276-302 | Formatting transformations fails iff some named operation has an incomplete parameter. Every such failure is IllegalArgument. |
| UrlPattern.FormatReportsFirst | Pixelbin/Utils/Url.php:276-302 | The error reported is the one for the first named operation with an incomplete parameter. |
| UrlPattern.NamelessDropped | Pixelbin/Utils/Url.php:276-302 | An operation without a name contributes nothing: removing it leaves the formatted tokens unchanged. |
| UrlPattern.RenderIsToken | Pixelbin/Utils/Url.php:289-294 | A well-formed operation renders as its canonical token: `p:name(k:v,…)`, or bare `p:name`, or `plugin.name(k:v,…)`. |
| UrlPattern.ParseBasicToken | Pixelbin/Utils/Url.php:126-157 | Parsing the token of a well-formed `p` operation gives back that operation. |
| UrlPattern.ParsePluginToken | Pixelbin/Utils/Url.php:126-157 | Parsing the token of a well-formed operation of any other plugin gives back that operation. |
| UrlPattern.PatternRoundTrip | Pixelbin/Utils/Url.php:159-304 | For a non-empty list of well-formed operations, formatting gives the tokens joined by `~`, and parsing that pattern gives back the list. In the other direction, that canonical pattern survives a parse followed by a format unchanged. |
| UrlQuery.ValidateDpr | Pixelbin/Utils/Url.php:307-312 | Succeeds iff 0.1 <= dpr <= 5.0. Otherwise IllegalQueryParameter with the DPR message. |
| UrlQuery.ValidateFAuto | Pixelbin/Utils/Url.php:314-319 | Succeeds iff the value is a boolean. Otherwise IllegalQueryParameter with the f_auto message. |
| UrlQuery.ProcessQueryParams | Pixelbin/Utils/Url.php:321-341 | The loop over `&`-separated pairs yields `QueryParams`. It stops at the first rejected pair. |
| UrlQuery.ProcessPairsMeaning | Pixelbin/Utils/Url.php:326-338 | Reading fails iff some pair is rejected: a `dpr` outside [0.1, 5.0], or an `f_auto` that casts to false. The error is always the DPR message. On success, only `dpr` (in range) and `f_auto` (true) are present. |
| UrlQuery.ApplyPairMeaning | Pixelbin/Utils/Url.php:329-336 | One pair applied to valid options is refused iff it is rejected, always with the DPR message; an accepted pair leaves the options valid. |
| UrlQuery.ProcessPairsLastWins | Pixelbin/Utils/Url.php:329-336 | The last `dpr=`/`f_auto=` pair of a name decides its value. |
| UrlQuery.ProcessPairsAbsent | Pixelbin/Utils/Url.php:329 | A name with no pair in the query is absent from the options. |
| UrlQuery.OptionItemsMeaning | Pixelbin/Utils/Url.php:251-258 | Writing fails iff a truthy dpr is non-numeric or out of range, or a truthy f_auto is not a boolean. The dpr is checked first: a non-numeric one gives a TypeError, and an out-of-range one the DPR message. Otherwise the error is the f_auto message. On success, the items are `dpr=x.y` (one decimal) when dpr is truthy, then `f_auto=True` when f_auto is truthy. |
| UrlQuery.DprItemsMeaning | Pixelbin/Utils/Url.php:251-254 | The dpr item fails iff dpr is truthy and either not numeric (a TypeError from the `float` parameter) or outside [0.1, 5.0] (the DPR message). On success it is `dpr=x.y`, written with one decimal, when dpr is truthy, and nothing otherwise. |
| UrlQuery.DprAboveMaximumRejected | Pixelbin/Utils/Url.php:251-254 | The options `dpr => 5.5, f_auto => true` are refused as an illegal query parameter, with the DPR message. |
| UrlQuery.FAutoItemsMeaning | Pixelbin/Utils/Url.php:255-258 | The f_auto item fails, with the f_auto message, iff f_auto is truthy and not a boolean. On success it is `f_auto=True` when f_auto is truthy, and nothing otherwise. |
| UrlQuery.KeyedOptionsRoundTrip | Pixelbin/Utils/Url.php:248-258 | Options looked up by name (dpr a multiple of 0.1 in range, f_auto true or absent) are written as items that read back to the same options. |
| UrlQuery.PositionalMisreadsFAuto | Pixelbin/Utils/Url.php:250 | The query `f_auto=true` reads to `[f_auto => true]`. Writing those options by position gives `dpr=1.0`; writing by name gives `f_auto=True`. |
| UrlQuery.PositionalRejectsReadOptions | Pixelbin/Utils/Url.php:250-258 | The options `[f_auto => true, dpr => 2.0]` (the order in which `f_auto=true&dpr=2.0` reads) fail positionally with the f_auto message. By name, they give `dpr=2.0`, `f_auto=True`. |
| UrlQuery.PositionalAgreesInReadingOrder | Pixelbin/Utils/Url.php:250 | For options in reading order (dpr, then f_auto), the positional and the keyed readings agree unless f_auto is the only option. |
| UrlQuery.Ucfirst | Pixelbin/Utils/Url.php:257 | `ucfirst` keeps the length and every character after the first. It upper-cases a first character in `a`–`z` and keeps any other first character. |
| Php.FloatParam | Pixelbin/Utils/Url.php:307 | Passing a value to the `float` parameter of `validate_dpr` fails with a TypeError iff the value is null or a string without a leading number. Otherwise it gives the `(float)` cast. |
| Strings.StrlenAscii | Pixelbin/Utils/Url.php:47 | `strlen` of an ASCII string is its number of characters. |
| Strings.StrlenCountsBytes | Pixelbin/Utils/Url.php:47 | `strlen` counts UTF-8 bytes: two `é` are 4 bytes. |
| Php.OneDecimalRoundTrip | Pixelbin/Utils/Url.php:253 | The one-decimal text written for k/10 (1 <= k <= 50) reads back, through the `(float)` cast, as k/10 over its full length. |
| Url.GetUrlFromObj | Pixelbin/Utils/Url.php:218-267 | The loop over `urlKeySorted` yields `ObjToUrl`: the kept (truthy) segments joined by `/`, plus `?` and the option items when there are any. The options are read by position, as written. |
| Url.KeepSegments | Pixelbin/Utils/Url.php:240-246 | The `foreach` over the segment keys yields `KeptSegments`: the truthy segments, in their order. |
| Url.KeptSegmentsMeaning | Pixelbin/Utils/Url.php:242-246 | The kept segments are all truthy, are no more than the input, and equal the input iff every input segment is truthy. |
| Url.KeptSegmentsConcat | Pixelbin/Utils/Url.php:242-246 | Keeping distributes over concatenation. |
| Url.KeptSegmentsSingle | Pixelbin/Utils/Url.php:243 | One segment is kept iff it is truthy. |
| Url.KeptSegmentsAt | Pixelbin/Utils/Url.php:242-246 | Exactly the truthy segments are kept, in their order. A truthy segment stays between what is kept before it and what is kept after it. A falsy one is dropped and nothing else changes. |
| Url.ObjToUrlFailures | Pixelbin/Utils/Url.php:224-258 | Writing checks in this order: a missing cloudName, then a missing filePath (IllegalArgument), then missing transformations (TypeError). After that it fails iff the transformations fail or the options, read by position, fail. The error is the transformations' one if they fail, and the options' one otherwise. |
| Url.WrittenBaseUrl | Pixelbin/Utils/Url.php:220-246 | A written URL begins with the base URL and a `/`. That is `https://cdn.pixelbin.io` when no baseUrl is given, and the given one when it is truthy. |
| Url.WrittenVersionAndZone | Pixelbin/Utils/Url.php:233-246 | The written version is always v1 or v2: a valid given one is kept, and v2 is written otherwise. The written zone is a given zone that contains a six-character slug, and empty (so dropped) otherwise. In the URL, with a truthy base, an invalid or missing version appears as `base/v2`, and a truthy cloud name follows as `base/version/cloudName`. |
| Url.UrlRoundTrip | Pixelbin/Utils/Url.php:203-267 | A canonical object is written as `base/version/cloud[/zone]/pattern/filePath[?query]`, with the options read by position. Canonical means: v1/v2, a cloud slug, an optional zone slug, well-formed operations, and canonical options with a dpr or without f_auto. Reading that URL gives back the same parts, options and transformations. |
| Url.KeyedUrlRoundTrip | Pixelbin/Utils/Url.php:203-267 | With the options looked up by name, every canonical object round trips, a lone f_auto included. |
| Url.FAutoOnlyLosesFAuto | Pixelbin/Utils/Url.php:250-254 | As written, an object whose only option is `f_auto => true` is written with `?dpr=1.0`. Reading it back gives a dpr of 1.0 and no f_auto, which differs from the options written. |
| QueryString.CreateQueryString | Pixelbin/Common/Utils.php:16-46 | The nested loops yield `CreateQuery`: the URL-encoded `&`-join of the lines of the key-sorted parameters, with list values sorted. |
| QueryString.KSortAscending | Pixelbin/Common/Utils.php:21 | `ksort` is a permutation of the entries, with keys strictly ascending by code point. |
| QueryString.ASortOrdered | Pixelbin/Common/Utils.php:26 | `asort` is a permutation of the list values, in non-decreasing order, with booleans before strings. |
| QueryString.AppendLines | Pixelbin/Common/Utils.php:28-34 | The inner `foreach` appends exactly `Lines(key, values)` to the lines gathered so far: one line per element, in order. |
| QueryString.LinesMeaning | Pixelbin/Common/Utils.php:28-34 | Each list value becomes the line `key=value`, a boolean rendering as `true`/`false`. |
| QueryString.FinalParamsCount | Pixelbin/Common/Utils.php:24-39 | There is one line per scalar value and one line per element of each list value. |
| QueryString.UrlDecodeEncode | Pixelbin/Common/Utils.php:42 | `urlencode` is invertible: decoding its output gives back the bytes. |
| QueryString.UrlEncodeSafe | Pixelbin/Common/Utils.php:42 | `urlencode` output uses only unreserved characters, `+` and `%` escapes. |
| QueryString.CreateQueryDecodes | Pixelbin/Common/Utils.php:18-45 | Empty parameters give the empty string. Otherwise the result decodes to the UTF-8 of the `&`-join of the final lines. |
| Access.FromValue | Pixelbin/Platform/Enums/AccessEnum.php:7-9 | The case whose backing value is the given string, if any. |
| Access.ValueRoundTrip | Pixelbin/Platform/Enums/AccessEnum.php:8-22 | Every case's backing value is accepted by `is_valid`, and maps back to that case. |
| Access.IsValidIff | Pixelbin/Platform/Enums/AccessEnum.php:11-22 | `is_valid` accepts a value iff it is, strictly (no type juggling), the string backing some case. Anything else raises "Invalid AccessEnum type". |
| Access.ValueInjective | Pixelbin/Platform/Enums/AccessEnum.php:8-9 | Distinct cases have distinct backing values. |

## Left out

- `parse_url` is not part of this model. A URL arrives already split into scheme, host, path and query.
- Url.UrlRoundTrip: it requires that no `/` appears in the pattern. It starts from a URL already split into components, so it says nothing about a `?` or `#` inside the file path, which `parse_url` would split off.
- PCRE newline handling of `.` and `$` in the `Url` regular expressions is not modelled. Segments are matched as plain text.
- Floating point is not modelled:
  - `dpr` is an exact real;
  - `number_format(x, 1)` rounds half up exactly.
- The `(float)` cast reads an optional sign, digits and an optional fraction. Leading whitespace, exponents, hexadecimal and `INF`/`NAN` are not modelled.
- PHP warnings for undefined indexes and keys are not modelled. Such a read gives `""` (PHP's null), and the call goes on.
- A null `zone`, `version`, `baseUrl`, `cloudName`, `filePath`, operation name, parameter key or parameter value given to `obj_to_url` is modelled as the empty string. Every use of those fields (`empty`, concatenation, `preg_match`) treats null and `""` alike.
- A parameter key or value given as an integer, float or boolean (such as `"value" => 200`) is modelled by its PHP string form (`"200"`). `empty` and string interpolation agree under that encoding, except for the float `-0.0`: PHP counts it as empty, but its string form `"-0"` is not.
- Numeric-string parameter keys: PHP turns a numeric-string parameter key such as `"10"` into an integer array key. The model keeps it as text; formatting writes it back as the same digits.
- The `$flatten` flag of `get_obj_from_url` is not modelled. `array_merge` of a list is the identity.
- The `InvalidUrl` wrapping in `get_obj_from_url` (`Pixelbin/Utils/Url.php:212-214`) is not modelled. Pattern parsing never raises, so there is nothing to wrap.
- The message of the PHP `TypeError` raised by `count(null)`, when `transformations` is missing, is taken as PHP 8's. Only its kind is stated.
- An `options` key present with the value null is not modelled. In the source, `count(null)` raises a TypeError (`Pixelbin/Utils/Url.php:249`). In the model, options are either absent or a list of pairs.
- Url.UrlRoundTrip: it also requires a dpr, or no f_auto. Options holding only `f_auto => true` do not round trip, because the source reads the options by position (see `Url.FAutoOnlyLosesFAuto` and the finding below).
- UrlPattern.PatternRoundTrip: a `p` operation needs an identifier as its name. A name such as `a.b` also round trips in the source, but the model proves nothing about it.
- QueryString.KSortAscending: PHP compares numeric-string and integer keys numerically. The model compares all keys as text, by code point. For UTF-8 text, code-point order is the byte order `strcmp` uses.
- QueryString.ASortOrdered: the model puts booleans first (false before true), then strings by code point. PHP's loose comparison of a boolean with a string is not a total order. PHP 8 also compares two numeric strings as numbers. So `["10", "9"]` is sorted as `9, 10` by the source, giving `k=9&k=10`, and as `10, 9` by the model, giving `k=10&k=9`.
- QueryString.CreateQueryString: integer, float and nested-array values are not modelled. Values are strings or booleans, or lists of them. The keys `asort` keeps are not used in the output, so they are dropped.
- Strings are Dafny strings (Unicode scalars). `urlencode` is applied to their UTF-8 bytes, and `strlen` counts those bytes.

## Findings

| source | as written | input that shows it | evidently intended | confidence | as-written member | corrected member |
|---|---|---|---|---|---|---|
| Pixelbin/Utils/Url.php:250 | `[$dpr, $f_auto] = array_values($obj["options"])` reads the options by position, whatever their keys | `url_to_obj` of `…?f_auto=true` gives options `[f_auto => true]`, which `obj_to_url` then writes as `dpr=1.0`. Options `[f_auto => true, dpr => 2.0]`, read from `…?f_auto=true&dpr=2.0`, make `obj_to_url` fail with the f_auto message. | look the options up by name (`$obj["options"]["dpr"]`, `$obj["options"]["f_auto"]`) | not executed | Url.ObjToUrl, Url.FAutoOnlyLosesFAuto, UrlQuery.PositionalOptionItems, UrlQuery.PositionalMisreadsFAuto, UrlQuery.PositionalRejectsReadOptions | Url.KeyedObjToUrl, Url.KeyedUrlRoundTrip, UrlQuery.KeyedOptionItems, UrlQuery.KeyedOptionsRoundTrip |

`Url.ObjToUrl` and `Url.GetUrlFromObj` read the options by position, as written. `Url.KeyedObjToUrl` is the corrected writer, which looks them up by name.

Some behaviour is kept as written, because nothing shows it is unintended:

- `process_query_params` validates `f_auto` with `validate_dpr` (`Pixelbin/Utils/Url.php:335`).
- So `f_auto=false` (or any value that casts to false) fails with the DPR message.
- `f_auto=true` (cast to 1.0) passes.
