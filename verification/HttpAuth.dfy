/**
 HTTP authentication challenges, as sections 11.2 and 11.6.1 of RFC 9110 lay them out: a header field
 holds several challenges separated by commas, and each holds parameters separated by commas.
 */
module HttpAuth {
  import opened Wrappers
  import opened Text
  import opened Quoting

  // ---------- Scanning ----------

  datatype Quotes = Quotes(inQuote: bool, escaped: bool)

  const OUTSIDE := Quotes(false, false)

  function Next(q: Quotes, c: char): Quotes {
    if q.escaped then q.(escaped := false)
    else if c == '\\' && q.inQuote then q.(escaped := true)
    else if c == '"' then q.(inQuote := !q.inQuote)
    else q
  }

  /** A comma that separates. */
  predicate Separates(q: Quotes, c: char) {
    c == ',' && !q.inQuote && !q.escaped
  }

  function Kept(cur: string): seq<string> {
    if TrimSpace(cur) == [] then [] else [TrimSpace(cur)]
  }

  function ParamPartsFrom(s: string, q: Quotes, cur: string, out: seq<string>): seq<string> {
    if s == [] then out + Kept(cur)
    else if Separates(q, s[0]) then ParamPartsFrom(s[1..], q, [], out + Kept(cur))
    else ParamPartsFrom(s[1..], Next(q, s[0]), cur + [s[0]], out)
  }

  method SplitParams(s: string) returns (out: seq<string>)
    ensures out == ParamPartsFrom(s, OUTSIDE, [], [])
  {
    out := [];
    var cur, inQuote, escaped := [], false, false;
    for i := 0 to |s|
      invariant ParamPartsFrom(s[i..], Quotes(inQuote, escaped), cur, out) == ParamPartsFrom(s, OUTSIDE, [], [])
    {
      var r := s[i];
      assert s[i..][0] == r && s[i..][1..] == s[i + 1..];
      if escaped {
        cur, escaped := cur + [r], false;
      } else if r == '\\' && inQuote {
        cur, escaped := cur + [r], true;
      } else if r == '"' {
        cur, inQuote := cur + [r], !inQuote;
      } else if r == ',' && !inQuote {
        out := out + Kept(cur);
        cur := [];
      } else {
        cur := cur + [r];
      }
    }
    out := out + Kept(cur);
  }

  predicate TokenChar(c: char) {
    LetterOrDigit(c)
    || c in {'!', '#', '$', '%', '&', '\'', '*', '+', '-', '.', '^', '_', '`', '|', '~'}
  }

  predicate Token(s: string) {
    s != [] && forall c <- s :: TokenChar(c)
  }

  function TokenLen(s: string): (n: nat)
    ensures n <= |s|
  {
    if s != [] && TokenChar(s[0]) then 1 + TokenLen(s[1..]) else 0
  }

  predicate Blank(c: char) {
    c == ' ' || c == '\t'
  }

  function TrimBlank(s: string): (t: string)
    ensures |t| <= |s|
  {
    if s != [] && Blank(s[0]) then TrimBlank(s[1..]) else s
  }

  /** The text after a comma begins a new challenge: a token, blanks, and then anything but `=`. */
  predicate ChallengeStarts(text: string) {
    var s := TrimBlank(text);
    var end := TokenLen(s);
    && 0 < end < |s| && Blank(s[end])
    && var rest := TrimBlank(s[end..]);
       rest != [] && rest[0] != '='
  }

  function ChallengesFrom(s: string, q: Quotes, cur: string, out: seq<string>): seq<string> {
    if s == [] then out + Kept(cur)
    else if Separates(q, s[0]) && ChallengeStarts(s[1..]) then ChallengesFrom(s[1..], q, [], out + Kept(cur))
    else ChallengesFrom(s[1..], Next(q, s[0]), cur + [s[0]], out)
  }

  function Challenges(header: string): seq<string> {
    ChallengesFrom(TrimSpace(header), OUTSIDE, [], [])
  }

  method SplitChallenges(text: string) returns (out: seq<string>)
    ensures out == Challenges(text)
  {
    var header := TrimSpace(text);
    hide TrimSpace, ChallengeStarts, Kept;
    out := [];
    var start, inQuote, escaped := 0, false, false;
    var i := 0;
    while i < |header|
      invariant 0 <= start <= i <= |header| && (escaped ==> inQuote)
      invariant ChallengesFrom(header[i..], Quotes(inQuote, escaped), header[start..i], out) == Challenges(text)
    {
      var c := header[i];
      assert header[i..][0] == c && header[i..][1..] == header[i + 1..];
      assert header[start..i + 1] == header[start..i] + [c];
      if c == '\\' {
        escaped := inQuote && !escaped;
      } else if c == '"' {
        if !escaped {
          inQuote := !inQuote;
        }
        escaped := false;
      } else {
        if c == ',' && !inQuote && ChallengeStarts(header[i + 1..]) {
          out := out + Kept(header[start..i]);
          start := i + 1;
          assert header[start..i + 1] == [];
        }
        escaped := false;
      }
      i := i + 1;
    }
    assert header[start..i] == header[start..];
    out := out + Kept(header[start..]);
  }

  // ---------- Parameters ----------

  /** Comma-separated pieces, without regard to quotes. */
  function Pieces(s: string): seq<string>
    decreases |s|
  {
    var i := IndexOf(s, ',');
    if i == |s| then [s] else [s[..i]] + Pieces(s[i + 1..])
  }

  predicate TokenList(value: string) {
    TrimSpace(value) != [] && forall p <- Pieces(TrimSpace(value)) :: Token(TrimSpace(p))
  }

  /** The tokens not yet seen, ignoring case. */
  function Fresh(pieces: seq<string>, seen: set<string>, out: seq<string>): (seq<string>, set<string>) {
    if pieces == [] then (out, seen)
    else
      var token := TrimSpace(pieces[0]);
      var key := ToLower(token);
      if key == [] || key in seen then Fresh(pieces[1..], seen, out)
      else Fresh(pieces[1..], seen + {key}, out + [token])
  }

  function JoinComma(tokens: seq<string>): string {
    if |tokens| == 0 then [] else if |tokens| == 1 then tokens[0] else tokens[0] + [','] + JoinComma(tokens[1..])
  }

  function MergeTokens(previous: string, value: string): string {
    var (first, seen) := Fresh(Pieces(previous), {}, []);
    var (all, _) := Fresh(Pieces(value), seen, first);
    JoinComma(all)
  }

  function Merge(key: string, previous: string, value: string): string {
    if TrimSpace(value) == [] then previous
    else if key == "qop" then MergeTokens(previous, value)
    else if key == "stale" then
      if ToLower(previous) == "true" || ToLower(value) == "true" then "true" else ToLower(TrimSpace(value))
    else value
  }

  function SetParam(params: map<string, string>, key: string, value: string): map<string, string> {
    if key in params then params[key := Merge(key, params[key], value)] else params[key := value]
  }

  predicate ContinuesQop(lastKey: string, part: string) {
    lastKey == "qop" && TokenList(part)
  }

  /** A part without `=` can only continue a preceding qop list. */
  function ParamsFrom(parts: seq<string>, params: map<string, string>, lastKey: string): map<string, string> {
    if parts == [] then params
    else
      var part, eq := parts[0], IndexOf(parts[0], '=');
      if eq == |part| then
        if ContinuesQop(lastKey, part) then ParamsFrom(parts[1..], SetParam(params, lastKey, part), lastKey)
        else ParamsFrom(parts[1..], params, [])
      else
        var key := ToLower(TrimSpace(part[..eq]));
        if key == [] then ParamsFrom(parts[1..], params, [])
        else ParamsFrom(parts[1..], SetParam(params, key, Unquoted(part[eq + 1..])), key)
  }

  function Params(s: string): map<string, string> {
    ParamsFrom(ParamPartsFrom(s, OUTSIDE, [], []), map[], [])
  }

  method ParseParams(s: string) returns (params: map<string, string>)
    ensures params == Params(s)
  {
    params := map[];
    var lastKey := [];
    var parts := SplitParams(s);
    for i := 0 to |parts|
      invariant ParamsFrom(parts[i..], params, lastKey) == Params(s)
    {
      assert parts[i..][0] == parts[i] && parts[i..][1..] == parts[i + 1..];
      hide SetParam, Unquoted, ContinuesQop;
      var part, eq := parts[i], IndexOf(parts[i], '=');
      if eq == |part| {
        if ContinuesQop(lastKey, part) {
          params := SetParam(params, lastKey, part);
        } else {
          lastKey := [];
        }
      } else {
        var key := ToLower(TrimSpace(part[..eq]));
        if key == [] {
          lastKey := [];
        } else {
          params, lastKey := SetParam(params, key, Unquoted(part[eq + 1..])), key;
        }
      }
    }
  }

  datatype Challenge = Challenge(scheme: string, raw: string, params: map<string, string>)

  /** The first blank, or the length. */
  function BlankIndex(s: string): (i: nat)
    ensures i <= |s|
  {
    if s == [] || Blank(s[0]) then 0 else 1 + BlankIndex(s[1..])
  }

  function Parsed(text: string): Option<Challenge> {
    var raw := TrimSpace(text);
    if raw == [] then None
    else
      var i := BlankIndex(raw);
      var scheme := if i == |raw| then raw else TrimSpace(raw[..i]);
      var rest := if i == |raw| then [] else TrimSpace(raw[i + 1..]);
      if scheme == [] then None else Some(Challenge(scheme, raw, Params(rest)))
  }

  method Parse(text: string) returns (r: Option<Challenge>)
    ensures r == Parsed(text)
  {
    hide TrimSpace, Params;
    var raw := TrimSpace(text);
    if raw == [] {
      return None;
    }
    var scheme, rest := raw, [];
    var i := 0;
    while i < |raw|
      invariant 0 <= i <= |raw| && scheme == raw && rest == []
      invariant BlankIndex(raw) == i + BlankIndex(raw[i..])
    {
      assert raw[i..][1..] == raw[i + 1..];
      if Blank(raw[i]) {
        scheme, rest := TrimSpace(raw[..i]), TrimSpace(raw[i + 1..]);
        break;
      }
      i := i + 1;
    }
    if scheme == [] {
      return None;
    }
    var params := ParseParams(rest);
    return Some(Challenge(scheme, raw, params));
  }
}
