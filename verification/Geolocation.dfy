/** The SIP Geolocation header of section 4.1 of RFC 6442: printer, parser and their round trip. */
module Geolocation {
  import opened Wrappers
  import opened Text
  import opened Quoting
  import opened SipHeaders
  import Order

  datatype Locator = Locator(uri: string, params: map<string, string>)

  // ---------- Parsing ----------

  function ParsedValue(value: string): Result<Locator, Error> {
    if value != [] && value[0] == '<' then
      var end := IndexOf(value, '>');
      if end == |value| then Err(MissingAngle)
      else
        var uri, rest := TrimSpace(value[1..end]), TrimSpace(value[end + 1..]);
        if rest != [] && rest[0] != ';' then Err(TextAfterUri) else WithParams(uri, rest)
    else
      var semi := IndexOf(value, ';');
      WithParams(TrimSpace(value[..semi]), if semi + 1 < |value| then value[semi..] else [])
  }

  function WithParams(uri: string, text: string): Result<Locator, Error> {
    if uri == [] then Err(EmptyUri)
    else
      var params :- Params(text);
      Ok(Locator(uri, params))
  }

  function ParsedValues(parts: seq<string>, out: seq<Locator>): Result<seq<Locator>, Error> {
    if parts == [] then Ok(out)
    else
      var part := TrimSpace(parts[0]);
      if part == [] then ParsedValues(parts[1..], out)
      else
        var value :- ParsedValue(part);
        ParsedValues(parts[1..], out + [value])
  }

  function Parsed(header: string): Result<seq<Locator>, Error> {
    var parts :- SplitFrom(header, ',', START, [], []);
    ParsedValues(parts, [])
  }

  method ParseValue(value: string) returns (r: Result<Locator, Error>)
    ensures r == ParsedValue(value)
  {
    hide Params;
    var uri, text;
    if value != [] && value[0] == '<' {
      var end := IndexOf(value, '>');
      if end == |value| {
        return Err(MissingAngle);
      }
      uri, text := TrimSpace(value[1..end]), TrimSpace(value[end + 1..]);
      if text != [] && text[0] != ';' {
        return Err(TextAfterUri);
      }
    } else {
      var semi := IndexOf(value, ';');
      uri, text := TrimSpace(value[..semi]), if semi + 1 < |value| then value[semi..] else [];
    }
    if uri == [] {
      return Err(EmptyUri);
    }
    var params :- ParseParams(text);
    return Ok(Locator(uri, params));
  }

  method ParseHeader(header: string) returns (r: Result<seq<Locator>, Error>)
    ensures r == Parsed(header)
  {
    var parts :- SplitSegments(header, ',');
    var out: seq<Locator> := [];
    for i := 0 to |parts|
      invariant ParsedValues(parts[i..], out) == ParsedValues(parts, [])
    {
      assert parts[i..][0] == parts[i] && parts[i..][1..] == parts[i + 1..];
      var part := TrimSpace(parts[i]);
      if part == [] {
        continue;
      }
      var value :- ParseValue(part);
      out := out + [value];
    }
    return Ok(out);
  }

  // ---------- Printing ----------

  /** A URI that already carries its angles contributes its own parameters, which the given ones override. */
  function Format(v: Locator): string {
    var uri := TrimSpace(v.uri);
    if uri == [] then []
    else if uri[0] == '<' then
      match ParsedValue(uri)
      case Err(_) => []
      case Ok(parsed) => FormatAngled(parsed.uri, Normalize(parsed.params) + Normalize(v.params))
    else FormatAngled(uri, Normalize(v.params))
  }

  function FormatAngled(uri: string, params: map<string, string>): string {
    if uri == [] then [] else ['<'] + uri + ['>'] + AppendParams(params)
  }

  function FormatAll(values: seq<Locator>): seq<string> {
    if values == [] then []
    else if Format(values[0]) == [] then FormatAll(values[1..])
    else [Format(values[0])] + FormatAll(values[1..])
  }

  /** The formatted values, joined with a comma and a space. */
  function Build(values: seq<Locator>): string {
    var out := FormatAll(values);
    if out == [] then [] else out[0] + Chain(Spaced(out[1..]), ',')
  }

  function Spaced(ws: seq<string>): (r: seq<string>)
    ensures |r| == |ws| && forall i :: 0 <= i < |ws| ==> r[i] == [' '] + ws[i]
  {
    seq(|ws|, i requires 0 <= i < |ws| => [' '] + ws[i])
  }

  // ---------- Round trip ----------

  /** ASCII in lower case, trimmed, not empty, and without the characters that delimit parameters. */
  predicate ParamName(k: string) {
    k != [] && Ascii(k) && Trimmed(k) && ToLower(k) == k && Plain(k) && '=' !in k
  }

  predicate GoodParams(params: map<string, string>) {
    forall k <- params :: ParamName(k) && Trimmed(params[k])
  }

  predicate GoodUri(uri: string) {
    uri != [] && Trimmed(uri) && '<' !in uri && '>' !in uri && '"' !in uri
  }

  predicate Good(v: Locator) {
    GoodUri(v.uri) && GoodParams(v.params)
  }

  lemma TokenForm(value: string)
    requires IsToken(value)
    ensures Plain(value) && Trimmed(value) && '"' !in value
  {
    assert value[0] in value && value[|value| - 1] in value;
  }

  lemma QuotedValueRead(value: string)
    ensures ParamValue(Quote(value)) == Ok(value)
  {
    UnquoteQuote(value);
    hide Unquoted, TrimSpace, Quote;
    var q := Quote(value);
    assert q[0] == '"' && q[|q| - 1] == '"' && |q| >= 2;
  }

  /** A printed value is whole, trimmed and not empty, and reads back as the value. */
  lemma ValueForm(value: string)
    requires Trimmed(value) && value != []
    ensures Whole(FormatValue(value), ',') && Whole(FormatValue(value), ';')
    ensures FormatValue(value) != [] && Trimmed(FormatValue(value)) && ParamValue(FormatValue(value)) == Ok(value)
  {
    if IsToken(value) {
      TokenForm(value);
      PlainPasses(value, ',');
      PlainPasses(value, ';');
      hide IsToken, TrimSpace, Pass;
      assert FormatValue(value) == value;
      assert value[0] != '"' && value[|value| - 1] != '"';
    } else {
      QuotePasses(value, ',');
      QuotePasses(value, ';');
      UnquoteQuote(value);
      QuotedValueRead(value);
      hide ParamValue, TrimSpace, Pass, Quote, Unquoted;
      assert FormatValue(value) == Quote(value);
    }
  }

  lemma EqualsPasses(sep: char)
    requires sep == ',' || sep == ';'
    ensures Whole(['='], sep)
  {
  }

  lemma ParamWhole(key: string, value: string, sep: char)
    requires ParamName(key) && Trimmed(value) && (sep == ',' || sep == ';')
    ensures Whole(FormatParam(key, value), sep)
  {
    hide FormatValue, TrimSpace, ParamValue, Plain, Pass;
    PlainPasses(key, sep);
    EqualsPasses(sep);
    if value != [] {
      ValueForm(value);
      PassAppend(key, ['='] + FormatValue(value), sep, START);
      PassAppend(['='], FormatValue(value), sep, START);
      Regrouped(key, ['='], FormatValue(value));
    }
  }

  lemma ParamTrimmed(key: string, value: string)
    requires ParamName(key) && Trimmed(value)
    ensures FormatParam(key, value) != [] && Trimmed(FormatParam(key, value))
  {
    if value != [] {
      ValueForm(value);
      hide FormatValue, TrimSpace, ParamValue, Plain, IsSpace, Whole;
      var item, v := FormatParam(key, value), FormatValue(value);
      assert item[0] == key[0] && item[|item| - 1] == v[|v| - 1];
    }
  }

  /** Reading one printed parameter stores its value under its name. */
  lemma ParamRead(key: string, value: string, rest: seq<string>, acc: map<string, string>)
    requires ParamName(key) && Trimmed(value)
    ensures ParamsFrom([FormatParam(key, value)] + rest, acc) == ParamsFrom(rest, acc[key := value])
  {
    hide FormatValue, TrimSpace, ParamValue, Plain, IsSpace, Whole, IndexOf;
    ParamTrimmed(key, value);
    var item := FormatParam(key, value);
    assert ([item] + rest)[1..] == rest;
    if value == [] {
      IndexAbsent(key, '=');
      assert key[..|key|] == key;
    } else {
      ValueForm(value);
      IndexAfter(key, '=', FormatValue(value));
      assert item[..|key|] == key && item[|key| + 1..] == FormatValue(value);
    }
  }

  /** The entries of the given names. */
  function Picked(keys: seq<string>, params: map<string, string>): map<string, string>
    requires forall k <- keys :: k in params
  {
    map k | k in keys :: params[k]
  }

  lemma PickedStep(keys: seq<string>, params: map<string, string>, acc: map<string, string>)
    requires keys != [] && forall k <- keys :: k in params
    ensures acc[keys[0] := params[keys[0]]] + Picked(keys[1..], params) == acc + Picked(keys, params)
  {
    var k, rest := keys[0], keys[1..];
    assert forall l :: l in keys <==> l == k || l in rest;
  }

  lemma {:induction false} ParamsRead(keys: seq<string>, params: map<string, string>, acc: map<string, string>)
    requires (forall k <- keys :: k in params) && GoodParams(params)
    ensures ParamsFrom(FormatParams(keys, params), acc) == Ok(acc + Picked(keys, params))
  {
    if keys != [] {
      var k, rest := keys[0], keys[1..];
      PickedStep(keys, params, acc);
      ParamRead(k, params[k], FormatParams(rest, params), acc);
      hide ParamName, TrimSpace, FormatParam, Trimmed, Picked, ParamValue;
      ParamsRead(rest, params, acc[k := params[k]]);
    } else {
      assert acc + Picked(keys, params) == acc;
    }
  }

  lemma {:induction false} NormalizeGood(keys: seq<string>, params: map<string, string>, acc: map<string, string>)
    requires (forall k <- keys :: k in params) && GoodParams(params)
    ensures NormalizeFrom(keys, params, acc) == acc + Picked(keys, params)
  {
    if keys != [] {
      var k := keys[0];
      PickedStep(keys, params, acc);
      hide TrimSpace, Picked, Plain;
      assert ParamName(k) && Trimmed(params[k]);
      assert ToLower(TrimSpace(k)) == k && TrimSpace(params[k]) == params[k];
      NormalizeGood(keys[1..], params, acc[k := params[k]]);
    } else {
      assert acc + Picked(keys, params) == acc;
    }
  }

  lemma PickedAll(keys: seq<string>, params: map<string, string>)
    requires forall k :: k in keys <==> k in params
    ensures map[] + Picked(keys, params) == params
  {
  }

  lemma NormalizeKeepsGood(params: map<string, string>)
    requires GoodParams(params)
    ensures Normalize(params) == params
  {
    NormalizeGood(Order.Sorted(params.Keys), params, map[]);
    PickedAll(Order.Sorted(params.Keys), params);
  }

  lemma {:induction false} FormattedWhole(keys: seq<string>, params: map<string, string>, sep: char)
    requires (forall k <- keys :: k in params) && GoodParams(params) && (sep == ',' || sep == ';')
    ensures forall w <- FormatParams(keys, params) :: Whole(w, sep)
    ensures |FormatParams(keys, params)| == |keys|
  {
    hide ParamName, FormatParam, Whole;
    if keys != [] {
      ParamWhole(keys[0], params[keys[0]], sep);
      FormattedWhole(keys[1..], params, sep);
    }
  }

  lemma ReadChain(ws: seq<string>, params: map<string, string>)
    requires ws != [] && (forall w <- ws :: Whole(w, ';')) && Trimmed(Chain(ws, ';'))
    requires ParamsFrom(ws, map[]) == Ok(params)
    ensures Params(Chain(ws, ';')) == Ok(params)
  {
    hide SplitFrom, ParamsFrom, Whole, TrimSpace, Trimmed;
    SplitList(ws, ';');
    assert Chain(ws, ';') == [';'] + (ws[0] + Chain(ws[1..], ';'));
    assert Chain(ws, ';')[1..] == ws[0] + Chain(ws[1..], ';');
  }

  /** Parsing the printed parameters gives them back. */
  lemma ParamsRoundTrip(params: map<string, string>)
    requires GoodParams(params)
    ensures Trimmed(AppendParams(params)) && (AppendParams(params) != [] ==> AppendParams(params)[0] == ';')
    ensures Params(AppendParams(params)) == Ok(params)
  {
    hide GoodParams, Whole, ParamsFrom, FormatParams, Normalize, TrimSpace, IsSpace, Order.Sorted, SplitFrom;
    NormalizeKeepsGood(params);
    var keys := Order.Sorted(params.Keys);
    ParamsRead(keys, params, map[]);
    PickedAll(keys, params);
    hide Picked;
    FormattedWhole(keys, params, ';');
    if keys == [] {
      assert FormatParams(keys, params) == [];
    } else {
      ChainTrimmed(keys, params);
      ReadChain(FormatParams(keys, params), params);
    }
  }

  lemma {:induction false} ChainTrimmed(keys: seq<string>, params: map<string, string>)
    requires keys != [] && (forall k <- keys :: k in params) && GoodParams(params)
    ensures Trimmed(Chain(FormatParams(keys, params), ';')) && Chain(FormatParams(keys, params), ';')[0] == ';'
  {
    var first, rest := FormatParam(keys[0], params[keys[0]]), keys[1..];
    ParamTrimmed(keys[0], params[keys[0]]);
    hide ParamName, FormatParam;
    var tail := Chain(FormatParams(rest, params), ';');
    assert FormatParams(keys, params)[1..] == FormatParams(rest, params);
    assert Chain(FormatParams(keys, params), ';') == [';'] + first + tail;
    if rest != [] {
      ChainTrimmed(rest, params);
    }
  }

  lemma {:induction false} ChainPasses(ws: seq<string>)
    requires forall w <- ws :: Whole(w, ',')
    ensures Whole(Chain(ws, ';'), ',')
  {
    if ws != [] {
      ChainPasses(ws[1..]);
      assert Whole(ws[0], ',') && Whole([';'], ',');
      var tail := Chain(ws[1..], ';');
      PassAppend(ws[0], tail, ',', START);
      PassAppend([';'], ws[0] + tail, ',', START);
      assert Chain(ws, ';') == [';'] + (ws[0] + tail);
    }
  }

  lemma {:induction false} UriPasses(uri: string, sep: char)
    requires '<' !in uri && '>' !in uri && '"' !in uri
    ensures Pass(uri, sep, Scan(false, false, 1)) == Some(Scan(false, false, 1))
  {
    if uri != [] {
      assert uri[0] in uri;
      UriPasses(uri[1..], sep);
    }
  }

  lemma AngledPasses(uri: string, tail: string)
    requires GoodUri(uri) && Whole(tail, ',')
    ensures Whole(['<'] + uri + ['>'] + tail, ',')
  {
    UriPasses(uri, ',');
    PassAppend(['<'], uri + (['>'] + tail), ',', START);
    PassAppend(uri, ['>'] + tail, ',', Scan(false, false, 1));
    PassAppend(['>'], tail, ',', Scan(false, false, 1));
    assert ['<'] + uri + ['>'] + tail == ['<'] + (uri + (['>'] + tail));
  }

  lemma FormatGood(v: Locator)
    requires Good(v)
    ensures Format(v) == ['<'] + v.uri + ['>'] + AppendParams(v.params)
  {
    NormalizeKeepsGood(v.params);
    assert v.uri[0] in v.uri;
    hide Normalize, ParsedValue, GoodParams, IsSpace;
    assert TrimSpace(v.uri) == v.uri;
  }

  lemma AngledSlices(uri: string, tail: string)
    ensures var f := ['<'] + uri + ['>'] + tail;
            f[0] == '<' && f[1..1 + |uri|] == uri && f[|uri| + 2..] == tail
  {
    var head := ['<'] + uri + ['>'];
    assert (head + tail)[|head|..] == tail && (head + tail)[..|head|] == head;
    assert head[1..1 + |uri|] == uri;
  }

  lemma ReadAngled(v: Locator, tail: string)
    requires GoodUri(v.uri) && Trimmed(tail) && (tail != [] ==> tail[0] == ';') && Params(tail) == Ok(v.params)
    ensures ParsedValue(['<'] + v.uri + ['>'] + tail) == Ok(v)
  {
    hide Params, IsSpace, TrimSpace, IndexOf;
    var f := ['<'] + v.uri + ['>'] + tail;
    IndexAfter(['<'] + v.uri, '>', tail);
    AngledSlices(v.uri, tail);
  }

  /** One printed value is one whole segment, and parses back to itself. */
  lemma ValueRoundTrip(v: Locator)
    requires Good(v)
    ensures Format(v) != [] && Trimmed(Format(v)) && Whole(Format(v), ',') && ParsedValue(Format(v)) == Ok(v)
  {
    FormatGood(v);
    NormalizeKeepsGood(v.params);
    ParamsRoundTrip(v.params);
    var keys := Order.Sorted(v.params.Keys);
    FormattedWhole(keys, v.params, ',');
    ChainPasses(FormatParams(keys, v.params));
    assert AppendParams(v.params) == Chain(FormatParams(keys, v.params), ';');
    AngledPasses(v.uri, AppendParams(v.params));
    ReadAngled(v, AppendParams(v.params));
    hide Format, AppendParams, Whole, ParsedValue, Normalize, GoodParams, GoodUri;
  }

  lemma {:induction false} FormatAllGood(values: seq<Locator>)
    requires forall v <- values :: Good(v)
    ensures |FormatAll(values)| == |values|
    ensures forall i :: 0 <= i < |values| ==> FormatAll(values)[i] == Format(values[i])
  {
    hide Format, Good, Whole, ParsedValue, Trimmed;
    if values != [] {
      ValueRoundTrip(values[0]);
      FormatAllGood(values[1..]);
    }
  }

  lemma {:induction false} ValuesRead(ws: seq<string>, values: seq<Locator>, out: seq<Locator>)
    requires |ws| == |values| && forall v <- values :: Good(v)
    requires forall i :: 0 <= i < |ws| ==> TrimSpace(ws[i]) == Format(values[i])
    ensures ParsedValues(ws, out) == Ok(out + values)
  {
    hide Format, Good, Whole, ParsedValue, Trimmed, TrimSpace;
    if ws == [] {
      assert out + values == out;
    } else {
      ValueRoundTrip(values[0]);
      ValuesRead(ws[1..], values[1..], out + [values[0]]);
      assert out + [values[0]] + values[1..] == out + values;
    }
  }

  lemma SpacedForm(v: Locator)
    requires Good(v)
    ensures Whole([' '] + Format(v), ',') && TrimSpace([' '] + Format(v)) == Format(v)
  {
    hide Format, Good, ParsedValue, TrimSpace, Trimmed;
    ValueRoundTrip(v);
    PassAppend([' '], Format(v), ',', START);
    TrimLeadingSpace(' ', Format(v));
  }

  lemma EmptyHeader()
    ensures Parsed([]) == Ok([])
  {
    var only: seq<string> := [[]];
    assert [] + only == only && only[1..] == [];
  }

  /** Parsing a built header gives back the same values, whatever their parameters hold. */
  lemma HeaderRoundTrip(values: seq<Locator>)
    requires forall v <- values :: Good(v)
    ensures Parsed(Build(values)) == Ok(values)
  {
    FormatAllGood(values);
    EmptyHeader();
    hide Format, Good, Whole, ParsedValue, ParsedValues, Trimmed, TrimSpace, FormatAll, SplitFrom;
    if values != [] {
      var out := FormatAll(values);
      var ws := [out[0]] + Spaced(out[1..]);
      forall i | 0 <= i < |ws|
        ensures Whole(ws[i], ',') && TrimSpace(ws[i]) == Format(values[i])
      {
        ValueRoundTrip(values[i]);
        if i > 0 {
          SpacedForm(values[i]);
        }
      }
      assert ws[0] == out[0] && ws[1..] == Spaced(out[1..]);
      SplitList(ws, ',');
      ValuesRead(ws, values, []);
      assert [] + values == values;
    }
  }
}
