/**
 SIP header fields with quoted strings, escapes and angle-bracketed URIs: the splitter, the quoting
 helpers and the parameter parser.
 */
module SipHeaders {
  import opened Wrappers
  import opened Text
  import opened Quoting
  import Order

  datatype Error =
    | UnterminatedQuote
    | UnterminatedAngle
    | UnexpectedAngle
    | MalformedQuote
    | UnexpectedQuote
    | EmptyName
    | MissingAngle
    | TextAfterUri
    | EmptyUri

  // ---------- Splitting at a separator outside quotes and angles ----------

  datatype Scan = Scan(inQuote: bool, escaped: bool, depth: nat)

  datatype Move = Keep(next: Scan) | Cut | Fail

  const START := Scan(false, false, 0)

  function Next(st: Scan, c: char, sep: char): Move {
    if st.escaped then Keep(st.(escaped := false))
    else if st.inQuote then
      if c == '\\' then Keep(st.(escaped := true)) else if c == '"' then Keep(st.(inQuote := false)) else Keep(st)
    else if c == '"' then Keep(st.(inQuote := true))
    else if c == '<' then Keep(st.(depth := st.depth + 1))
    else if c == '>' then if st.depth == 0 then Fail else Keep(st.(depth := st.depth - 1))
    else if c == sep && st.depth == 0 then Cut
    else Keep(st)
  }

  function SplitFrom(s: string, sep: char, st: Scan, cur: string, out: seq<string>): Result<seq<string>, Error> {
    if s == [] then
      if st.escaped || st.inQuote then Err(UnterminatedQuote)
      else if st.depth != 0 then Err(UnterminatedAngle)
      else Ok(out + [cur])
    else
      match Next(st, s[0], sep)
      case Keep(next) => SplitFrom(s[1..], sep, next, cur + [s[0]], out)
      case Cut => SplitFrom(s[1..], sep, st, [], out + [cur])
      case Fail => Err(UnexpectedAngle)
  }

  method SplitSegments(s: string, sep: char) returns (r: Result<seq<string>, Error>)
    ensures r == SplitFrom(s, sep, START, [], [])
  {
    var out: seq<string>, cur, st := [], [], START;
    for i := 0 to |s|
      invariant SplitFrom(s[i..], sep, st, cur, out) == SplitFrom(s, sep, START, [], [])
    {
      assert s[i..][0] == s[i] && s[i..][1..] == s[i + 1..];
      match Next(st, s[i], sep) {
        case Keep(next) =>
          st, cur := next, cur + [s[i]];
        case Cut =>
          out, cur := out + [cur], [];
        case Fail =>
          return Err(UnexpectedAngle);
      }
    }
    if st.escaped || st.inQuote {
      return Err(UnterminatedQuote);
    }
    if st.depth != 0 {
      return Err(UnterminatedAngle);
    }
    return Ok(out + [cur]);
  }

  /** The state after characters that the splitter keeps; none if it cuts or fails among them. */
  function Pass(s: string, sep: char, st: Scan): Option<Scan> {
    if s == [] then Some(st)
    else
      match Next(st, s[0], sep)
      case Keep(next) => Pass(s[1..], sep, next)
      case _ => None
  }

  /** A segment that the splitter takes whole. */
  predicate Whole(s: string, sep: char) {
    Pass(s, sep, START) == Some(START)
  }

  lemma {:induction false} PassAppend(a: string, b: string, sep: char, st: Scan)
    requires Pass(a, sep, st).Some?
    ensures Pass(a + b, sep, st) == Pass(b, sep, Pass(a, sep, st).value)
  {
    if a == [] {
      assert a + b == b;
    } else {
      assert (a + b)[1..] == a[1..] + b;
      PassAppend(a[1..], b, sep, Next(st, a[0], sep).next);
    }
  }

  lemma {:induction false} SplitPast(a: string, b: string, sep: char, st: Scan, cur: string, out: seq<string>)
    requires Pass(a, sep, st).Some?
    ensures SplitFrom(a + b, sep, st, cur, out) == SplitFrom(b, sep, Pass(a, sep, st).value, cur + a, out)
  {
    if a == [] {
      assert a + b == b && cur + a == cur;
    } else {
      assert (a + b)[1..] == a[1..] + b;
      SplitPast(a[1..], b, sep, Next(st, a[0], sep).next, cur + [a[0]], out);
      assert cur + [a[0]] + a[1..] == cur + a;
    }
  }

  /** Segments in order, each but the first preceded by the separator. */
  function Chain(ws: seq<string>, sep: char): string {
    if ws == [] then [] else [sep] + ws[0] + Chain(ws[1..], sep)
  }

  /** Splitting undoes joining whole segments with the separator. */
  lemma {:induction false} SplitChain(first: string, ws: seq<string>, sep: char, out: seq<string>)
    requires sep != '"' && sep != '<' && sep != '>'
    requires Whole(first, sep) && forall w <- ws :: Whole(w, sep)
    ensures SplitFrom(first + Chain(ws, sep), sep, START, [], out) == Ok(out + [first] + ws)
    decreases |ws|
  {
    SplitPast(first, Chain(ws, sep), sep, START, [], out);
    assert [] + first == first;
    if ws == [] {
      assert out + [first] + [] == out + [first];
    } else {
      var rest := ws[0] + Chain(ws[1..], sep);
      assert Chain(ws, sep) == [sep] + rest && Chain(ws, sep)[1..] == rest;
      SplitChain(ws[0], ws[1..], sep, out + [first]);
      assert out + [first] + [ws[0]] + ws[1..] == out + [first] + ws;
    }
  }

  lemma SplitList(ws: seq<string>, sep: char)
    requires sep != '"' && sep != '<' && sep != '>' && ws != [] && forall w <- ws :: Whole(w, sep)
    ensures SplitFrom(ws[0] + Chain(ws[1..], sep), sep, START, [], []) == Ok(ws)
  {
    SplitChain(ws[0], ws[1..], sep, []);
    assert [] + [ws[0]] + ws[1..] == ws;
  }

  /** Characters that mean nothing to the splitter. */
  predicate PlainChar(c: char) {
    c != '"' && c != '<' && c != '>' && c != ',' && c != ';'
  }

  predicate Plain(s: string) {
    forall c <- s :: PlainChar(c)
  }

  lemma {:induction false} PlainPasses(s: string, sep: char)
    requires Plain(s) && (sep == ',' || sep == ';')
    ensures Whole(s, sep)
  {
    if s != [] {
      assert s[0] in s;
      PlainPasses(s[1..], sep);
    }
  }

  // ---------- Quoted strings and the splitter ----------

  lemma {:induction false} EscapePasses(v: string, sep: char)
    ensures Pass(Escape(v), sep, Scan(true, false, 0)) == Some(Scan(true, false, 0))
  {
    if v != [] {
      EscapePasses(v[1..], sep);
      var e := Escape(v);
      if v[0] == '\\' || v[0] == '"' {
        assert e[1..][1..] == Escape(v[1..]) && e[1..][0] == v[0];
        assert Next(Next(Scan(true, false, 0), e[0], sep).next, e[1..][0], sep).next == Scan(true, false, 0);
      } else {
        assert e[1..] == Escape(v[1..]);
      }
    }
  }

  lemma QuotePasses(v: string, sep: char)
    ensures Whole(Quote(v), sep)
  {
    EscapePasses(v, sep);
    PassAppend(['"'], Escape(v) + ['"'], sep, START);
    PassAppend(Escape(v), ['"'], sep, Scan(true, false, 0));
    assert Quote(v) == ['"'] + (Escape(v) + ['"']);
  }

  // ---------- Parameters ----------

  predicate TokenChar(c: char) {
    LetterOrDigit(c) || c in {'-', '.', '!', '%', '*', '_', '+', '`', '\'', '~'}
  }

  predicate IsToken(v: string) {
    v != [] && forall c <- v :: TokenChar(c)
  }

  function FormatValue(value: string): string {
    var v := TrimSpace(value);
    if v == [] then [] else if IsToken(v) then v else Quote(v)
  }

  /** A parameter without the leading semicolon. */
  function FormatParam(key: string, value: string): string {
    if TrimSpace(value) == [] then key else key + ['='] + FormatValue(value)
  }

  function FormatParams(keys: seq<string>, params: map<string, string>): seq<string>
    requires forall k <- keys :: k in params
  {
    if keys == [] then [] else [FormatParam(keys[0], params[keys[0]])] + FormatParams(keys[1..], params)
  }

  /** Lower-case, trimmed names and trimmed values; nameless entries are dropped. Keys are visited in sorted order. */
  function NormalizeFrom(keys: seq<string>, params: map<string, string>, acc: map<string, string>): map<string, string>
    requires forall k <- keys :: k in params
  {
    if keys == [] then acc
    else
      var name := ToLower(TrimSpace(keys[0]));
      NormalizeFrom(keys[1..], params, if name == [] then acc else acc[name := TrimSpace(params[keys[0]])])
  }

  function Normalize(params: map<string, string>): map<string, string> {
    NormalizeFrom(Order.Sorted(params.Keys), params, map[])
  }

  function AppendParams(params: map<string, string>): string {
    var p := Normalize(params);
    Chain(FormatParams(Order.Sorted(p.Keys), p), ';')
  }

  function ParamValue(value: string): Result<string, Error> {
    var v := TrimSpace(value);
    if v == [] then Ok([])
    else
      var start, end := v[0] == '"', v[|v| - 1] == '"';
      if start || end then
        if !start || !end || |v| < 2 then Err(MalformedQuote) else Ok(Unquoted(v))
      else if '"' in v then Err(UnexpectedQuote)
      else Ok(v)
  }

  function ParamsFrom(parts: seq<string>, acc: map<string, string>): Result<map<string, string>, Error> {
    if parts == [] then Ok(acc)
    else
      var part := TrimSpace(parts[0]);
      if part == [] then ParamsFrom(parts[1..], acc)
      else
        var eq := IndexOf(part, '=');
        var key := ToLower(TrimSpace(part[..eq]));
        if key == [] then Err(EmptyName)
        else if eq == |part| then ParamsFrom(parts[1..], acc[key := []])
        else
          var value :- ParamValue(part[eq + 1..]);
          ParamsFrom(parts[1..], acc[key := value])
  }

  function Params(text: string): Result<map<string, string>, Error> {
    var p := TrimSpace(text);
    if p == [] then Ok(map[])
    else
      var parts :- SplitFrom(if p[0] == ';' then p[1..] else p, ';', START, [], []);
      ParamsFrom(parts, map[])
  }

  method ParseParams(text: string) returns (r: Result<map<string, string>, Error>)
    ensures r == Params(text)
  {
    hide TrimSpace, ToLower, IndexOf, ParamValue, SplitFrom;
    var p := TrimSpace(text);
    if p == [] {
      return Ok(map[]);
    }
    var parts :- SplitSegments(if p[0] == ';' then p[1..] else p, ';');
    var out: map<string, string> := map[];
    for i := 0 to |parts|
      invariant ParamsFrom(parts[i..], out) == ParamsFrom(parts, map[])
    {
      assert parts[i..][0] == parts[i] && parts[i..][1..] == parts[i + 1..];
      var part := TrimSpace(parts[i]);
      if part == [] {
        continue;
      }
      var eq := IndexOf(part, '=');
      var key := ToLower(TrimSpace(part[..eq]));
      if key == [] {
        return Err(EmptyName);
      }
      if eq == |part| {
        out := out[key := []];
        continue;
      }
      var value :- ParamValue(part[eq + 1..]);
      out := out[key := value];
    }
    return Ok(out);
  }
}
