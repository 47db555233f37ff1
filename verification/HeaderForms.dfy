/**
 SIP header values in other forms than the printer's own: what the splitter accepts, bare URIs, names in any
 case, URIs that bring their angles, and what is refused.
 */
module HeaderForms {
  import opened Wrappers
  import opened Text
  import opened Quoting
  import opened SipHeaders
  import opened Geolocation
  import Order

  /** A URI without angles, up to the first semicolon, reads like one in angles. */
  lemma BareValueRead(uri: string, params: map<string, string>)
    requires GoodUri(uri) && ';' !in uri && GoodParams(params)
    ensures ParsedValue(uri + AppendParams(params)) == Ok(Locator(uri, params))
  {
    hide AppendParams, Params, GoodParams;
    var tail := AppendParams(params);
    ParamsRoundTrip(params);
    assert uri[0] in uri;
    assert (uri + tail)[0] == uri[0] != '<';
    if tail == [] {
      IndexAbsent(uri, ';');
      assert uri + tail == uri && uri[..|uri|] == uri;
    } else {
      LoneSemicolon();
      assert |tail| == 1 ==> tail == [';'];
      TailAfterUri(uri, tail, params);
    }
  }

  lemma TailAfterUri(uri: string, tail: string, params: map<string, string>)
    requires GoodUri(uri) && ';' !in uri && tail != [] && tail[0] == ';' && Trimmed(tail) && Params(tail) == Ok(params) && (uri + tail)[0] != '<'
    requires |tail| > 1 || params == map[]
    ensures ParsedValue(uri + tail) == Ok(Locator(uri, params))
  {
    hide Params, TrimSpace, IsSpace;
    IndexAfter(uri, ';', tail[1..]);
    assert uri + [';'] + tail[1..] == uri + tail;
    assert (uri + tail)[..|uri|] == uri && (uri + tail)[|uri|..] == tail;
    assert Params([]) == Ok(map[]) by {
      NoParams();
    }
  }

  lemma LoneSemicolon()
    ensures Params([';']) == Ok(map[])
  {
    assert Trimmed([';']) && [';'][1..] == [];
    var only: seq<string> := [[]];
    assert SplitFrom([], ';', START, [], []) == Ok(only) by {
      assert [] + only == only;
    }
    assert only[1..] == [];
  }

  lemma NoParams()
    ensures Params([]) == Ok(map[])
  {
  }

  /** A parameter is stored under its name in lower case, however the name was written. */
  lemma MixedCaseName(key: string, value: string, rest: seq<string>, acc: map<string, string>)
    requires key != [] && Trimmed(key) && '=' !in key && Trimmed(value) && value != []
    ensures ParamsFrom([key + ['='] + FormatValue(value)] + rest, acc) == ParamsFrom(rest, acc[ToLower(key) := value])
  {
    hide FormatValue, TrimSpace, ParamValue, IsSpace, Whole, IndexOf;
    ValueForm(value);
    var item := key + ['='] + FormatValue(value);
    assert ([item] + rest)[1..] == rest;
    IndexAfter(key, '=', FormatValue(value));
    assert item[..|key|] == key && item[|key| + 1..] == FormatValue(value);
    assert item[0] == key[0] && item[|item| - 1] == FormatValue(value)[|FormatValue(value)| - 1];
    assert Trimmed(item);
  }

  /** A URI that brings its angles and parameters prints like the plain one, and parameters given besides override its own. */
  lemma AngledUriFormats(uri: string, own: map<string, string>, given: map<string, string>)
    requires GoodUri(uri) && GoodParams(own) && GoodParams(given)
    ensures Format(Locator(['<'] + uri + ['>'] + AppendParams(own), given)) == Format(Locator(uri, own + given))
  {
    hide AppendParams, ParsedValue, Normalize, Whole, ParamName;
    var plain, both := Locator(uri, own), own + given;
    var text := ['<'] + uri + ['>'] + AppendParams(own);
    FormatGood(plain);
    ValueRoundTrip(plain);
    NormalizeKeepsGood(own);
    NormalizeKeepsGood(given);
    NormalizeKeepsGood(both);
    FormatGood(Locator(uri, both));
    assert text[0] == '<' && TrimSpace(text) == text;
  }

  /** A parameter is printed under its name in lower case, with its value trimmed, however both were given. */
  lemma NormalizedName(key: string, value: string)
    requires TrimSpace(key) != []
    ensures Normalize(map[key := value]) == map[ToLower(TrimSpace(key)) := TrimSpace(value)]
  {
    hide TrimSpace, ToLower;
    var params := map[key := value];
    assert params.Keys == {key};
    SortedOne(key);
    assert [key][1..] == [];
    LowerLength(TrimSpace(key));
    var only, name := [key], ToLower(TrimSpace(key));
    assert only[1..] == [] && only[0] == key && name != [];
    assert NormalizeFrom(only, params, map[]) == NormalizeFrom(only[1..], params, map[][name := TrimSpace(params[key])]);
  }

  lemma LowerLength(s: string)
    ensures |ToLower(s)| == |s|
  {
  }

  lemma SortedOne(key: string)
    ensures Order.Sorted({key}) == [key]
  {
    var s := Order.Sorted({key});
    assert |s| == 1 && s[0] in s;
  }

  // ---------- What is refused ----------

  /** Segments joined by the separator. */
  function Joined(ws: seq<string>, sep: char): string
    requires ws != []
  {
    ws[0] + Chain(ws[1..], sep)
  }

  predicate AllWhole(ws: seq<string>, sep: char) {
    forall i :: 0 <= i < |ws| ==> Whole(ws[i], sep)
  }

  lemma PassOne(cur: string, c: char, sep: char, st: Scan)
    requires Pass(cur, sep, START) == Some(st)
    ensures Pass(cur + [c], sep, START) == match Next(st, c, sep) case Keep(next) => Some(next) case _ => None
  {
    hide Next;
    PassAppend(cur, [c], sep, START);
    assert [c][1..] == [];
  }

  lemma JoinedFirst(cur: string, ws: seq<string>, sep: char)
    requires ws != []
    ensures Joined([cur] + ws, sep) == cur + ([sep] + Joined(ws, sep))
  {
    assert ([cur] + ws)[1..] == ws;
    Regrouped([sep], ws[0], Chain(ws[1..], sep));
  }

  lemma {:induction false} SplitGivesWhole(s: string, sep: char, st: Scan, cur: string, out: seq<string>) returns (ws: seq<string>)
    requires Pass(cur, sep, START) == Some(st) && SplitFrom(s, sep, st, cur, out).Ok?
    ensures ws != [] && AllWhole(ws, sep) && SplitFrom(s, sep, st, cur, out) == Ok(out + ws) && Joined(ws, sep) == cur + s
    decreases |s|
  {
    hide Pass;
    if s == [] {
      ws := [cur];
      assert cur + s == cur && ws[1..] == [];
    } else {
      PassOne(cur, s[0], sep, st);
      match Next(st, s[0], sep)
      case Keep(next) =>
        ws := SplitGivesWhole(s[1..], sep, next, cur + [s[0]], out);
        assert cur + [s[0]] + s[1..] == cur + s;
      case Cut =>
        assert st == START && s[0] == sep;
        assert Pass([], sep, START) == Some(START) by {
          NothingPasses(sep);
        }
        var rest := SplitGivesWhole(s[1..], sep, START, [], out + [cur]);
        ws := [cur] + rest;
        JoinedFirst(cur, rest, sep);
        assert [] + s[1..] == s[1..] && [sep] + s[1..] == s;
        Regrouped(out, [cur], rest);
    }
  }

  lemma NothingPasses(sep: char)
    ensures Pass([], sep, START) == Some(START)
  {
  }

  /** The splitter accepts exactly the texts that are whole segments joined by the separator, and returns those. */
  lemma SplitAcceptsIff(s: string, sep: char, ws: seq<string>)
    requires sep != '"' && sep != '<' && sep != '>'
    ensures SplitFrom(s, sep, START, [], []) == Ok(ws) <==> ws != [] && AllWhole(ws, sep) && Joined(ws, sep) == s
  {
    hide SplitFrom, Whole, Pass;
    if SplitFrom(s, sep, START, [], []) == Ok(ws) {
      NothingPasses(sep);
      var found := SplitGivesWhole(s, sep, START, [], []);
      assert [] + found == found && [] + s == s;
    }
    if ws != [] && AllWhole(ws, sep) && Joined(ws, sep) == s {
      forall w <- ws
        ensures Whole(w, sep)
      {
        var i :| 0 <= i < |ws| && ws[i] == w;
      }
      SplitList(ws, sep);
    }
  }

  /** A parameter value may hold quotes only as a pair at its ends. */
  lemma QuotesMustPair(v: string)
    requires Trimmed(v)
    ensures ParamValue(v).Ok? <==> '"' !in v || (|v| >= 2 && v[0] == '"' && v[|v| - 1] == '"')
  {
    hide TrimSpace, Unquoted, IsSpace;
    if v != [] {
      assert v[0] in v && v[|v| - 1] in v;
    }
  }

  /** Missing angles, stray text and empty URIs are refused. */
  lemma BadValuesAreRefused(uri: string, text: string)
    requires '>' !in uri && text != [] && Trimmed(text) && text[0] != ';'
    ensures ParsedValue(['<'] + uri) == Err(MissingAngle)
    ensures ParsedValue(['<'] + uri + ['>'] + text) == Err(TextAfterUri)
    ensures ParsedValue(['<', '>']) == Err(EmptyUri) && ParsedValue([]) == Err(EmptyUri)
  {
    hide Params, IsSpace;
    IndexAbsent(['<'] + uri, '>');
    IndexAfter(['<'] + uri, '>', text);
    var f := ['<'] + uri + ['>'] + text;
    assert f[|uri| + 2..] == text;
    IndexAfter(['<'], '>', []);
    assert ['<'] + ['>'] + [] == ['<', '>'] && ['<', '>'][1..1] == [] && ['<', '>'][2..] == [];
  }

  /** The token characters of section 25.1 of RFC 3261. */
  lemma TokenCharacters(c: char)
    ensures TokenChar(c) <==> LetterOrDigit(c) || c in "-.!%*_+`'~"
  {
  }

  /** A closing angle without an opening one, an angle that is not closed, and a quote that is not closed are refused. */
  lemma UnbalancedIsRefused(a: string, b: string, sep: char)
    requires Plain(a) && Plain(b) && '\\' !in b && (sep == ',' || sep == ';')
    ensures SplitFrom(a + (['>'] + b), sep, START, [], []) == Err(UnexpectedAngle)
    ensures SplitFrom(a + (['<'] + b), sep, START, [], []) == Err(UnterminatedAngle)
    ensures SplitFrom(a + (['"'] + b), sep, START, [], []) == Err(UnterminatedQuote)
  {
    hide Plain, Pass;
    PlainPasses(a, sep);
    SplitPast(a, ['>'] + b, sep, START, [], []);
    SplitPast(a, ['<'] + b, sep, START, [], []);
    SplitPast(a, ['"'] + b, sep, START, [], []);
    assert (['>'] + b)[0] == '>' && (['<'] + b)[1..] == b && (['"'] + b)[1..] == b;
    NeverCloses(b, sep, Scan(false, false, 1), [] + a + ['<'], []);
    NeverCloses(b, sep, Scan(true, false, 0), [] + a + ['"'], []);
  }

  lemma {:induction false} NeverCloses(b: string, sep: char, st: Scan, cur: string, out: seq<string>)
    requires Plain(b) && '\\' !in b && (st == Scan(false, false, 1) || st == Scan(true, false, 0))
    ensures SplitFrom(b, sep, st, cur, out) == Err(if st.inQuote then UnterminatedQuote else UnterminatedAngle)
  {
    if b != [] {
      assert b[0] in b;
      NeverCloses(b[1..], sep, st, cur + [b[0]], out);
    }
  }
}
