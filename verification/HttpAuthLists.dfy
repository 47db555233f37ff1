/** Parameters that a challenge repeats or continues: lists of qop tokens, stale flags, and others. */
module HttpAuthLists {
  import opened Wrappers
  import opened Text
  import opened Quoting
  import opened HttpAuth
  import opened DigestChallenge

  // ---------- A qop list without quotes ----------

  lemma TwoParts(first: string, second: string)
    requires Opaque(first, OUTSIDE, OUTSIDE) && Opaque(second, OUTSIDE, OUTSIDE)
    requires first != [] && Trimmed(first) && second != [] && Trimmed(second)
    ensures ParamPartsFrom(first + ([',', ' '] + second), OUTSIDE, [], []) == [first, second]
  {
    hide Opaque, TrimSpace, Trimmed, IsSpace, ParamPartsFrom;
    var spaced := [' '] + second;
    assert [',', ' '] + second == [','] + spaced;
    assert [] + first == first && [] + spaced == spaced && spaced + [] == spaced && [] + [first] == [first];
    PartsPast(first, [','] + spaced, OUTSIDE, OUTSIDE, [], []);
    PartCut(spaced, first, []);
    SpacedOpaque(second);
    PartsPast(spaced, [], OUTSIDE, OUTSIDE, [], [first]);
    assert TrimSpace(spaced) == second by {
      SpaceTrimmed(second);
    }
    PartsEnd(spaced, [first]);
    assert [first] + [second] == [first, second];
  }

  lemma SpaceTrimmed(s: string)
    requires Trimmed(s)
    ensures TrimSpace([' '] + s) == s
  {
    hide TrimSpace;
    TrimLeadingSpace(' ', s);
  }

  lemma PartCut(rest: string, cur: string, out: seq<string>)
    requires TrimSpace(cur) != []
    ensures ParamPartsFrom([','] + rest, OUTSIDE, cur, out) == ParamPartsFrom(rest, OUTSIDE, [], out + [TrimSpace(cur)])
  {
    hide TrimSpace;
    assert ([','] + rest)[1..] == rest;
  }

  lemma FreshOne(token: string, seen: set<string>, out: seq<string>)
    requires token != [] && TrimSpace(token) == token
    ensures Fresh([token], seen, out) == if ToLower(token) in seen then (out, seen) else (out + [token], seen + {ToLower(token)})
  {
    hide TrimSpace;
    assert [token][1..] == [] && |ToLower(token)| == |token|;
  }

  lemma MergedPair(a: string, b: string)
    requires Token(a) && Token(b)
    ensures MergeTokens(a, b) == if ToLower(a) == ToLower(b) then a else a + [','] + b
  {
    OnePiece(a);
    OnePiece(b);
    TokenTrimmed(a);
    TokenTrimmed(b);
    hide Fresh, Pieces, ToLower;
    FreshOne(a, {}, []);
    FreshOne(b, {} + {ToLower(a)}, [a]);
    assert [] + [a] == [a] && [a] + [b] == [a, b];
    Joined(a, b);
  }

  lemma Joined(a: string, b: string)
    ensures JoinComma([a]) == a && JoinComma([a, b]) == a + [','] + b
  {
    assert [a, b][1..] == [b];
    assert JoinComma([b]) == b;
  }

  lemma OnePiece(s: string)
    requires Token(s)
    ensures Pieces(s) == [s]
  {
    NoComma(s);
    IndexAbsent(s, ',');
  }

  lemma NoComma(s: string)
    requires Token(s)
    ensures ',' !in s
  {
  }

  lemma ContinuedQop(a: string, b: string)
    requires Token(a) && Token(b)
    ensures ParamsFrom([b], map["qop" := a], "qop") == map["qop" := MergeTokens(a, b)]
  {
    hide MergeTokens;
    TokenTrimmed(b);
    IndexAbsent(b, '=');
    OnePiece(b);
    assert [b][1..] == [];
    assert ContinuesQop("qop", b);
  }

  /** A list that is not quoted reads as both tokens, once each. */
  lemma BareQopList(a: string, b: string)
    requires Token(a) && Token(b)
    ensures Params("qop" + ['='] + a + ([',', ' '] + b)) == map["qop" := if ToLower(a) == ToLower(b) then a else a + [','] + b]
  {
    hide Token, Opaque, ParamPartsFrom, ParamsFrom, TrimSpace, Trimmed, MergeTokens, GoodItem;
    var item := Item("qop", a, false);
    QopItem(a);
    RenderForm(item);
    assert Opaque(b, OUTSIDE, OUTSIDE) && b != [] && Trimmed(b) by {
      TokenForms(b);
    }
    TwoParts(Render(item), b);
    assert [Render(item)] + [b] == [Render(item), b];
    ReadStep(item, [b], map[], []);
    ContinuedQop(a, b);
    MergedPair(a, b);
  }

  lemma TokenForms(b: string)
    requires Token(b)
    ensures Opaque(b, OUTSIDE, OUTSIDE) && b != [] && Trimmed(b)
  {
    TokenTrimmed(b);
    TokenOpaque(b);
  }

  lemma QopItem(a: string)
    requires Token(a)
    ensures GoodItem(Item("qop", a, false))
  {
    hide Token;
    KeysGood();
  }

  // ---------- Repeated parameters ----------

  /** What a parameter holds that is given twice: either true makes stale true, qop lists are joined, of others the later one stays. */
  function Twice(key: string, a: string, b: string): string {
    if key == "stale" then if ToLower(a) == "true" || ToLower(b) == "true" then "true" else ToLower(b)
    else if key == "qop" then if ToLower(a) == ToLower(b) then a else a + [','] + b
    else b
  }

  lemma MergedTwice(key: string, a: string, b: string)
    requires Token(a) && Token(b)
    ensures Merge(key, a, b) == Twice(key, a, b)
  {
    hide MergeTokens, Token;
    assert b != [] && TrimSpace(b) == b by {
      TokenForms(b);
    }
    MergedPair(a, b);
  }

  lemma ReadAgain(item: Item, acc: map<string, string>, lastKey: string)
    requires GoodItem(item) && item.key in acc
    ensures ParamsFrom([Render(item)], acc, lastKey) == acc[item.key := Merge(item.key, acc[item.key], item.value)]
  {
    hide GoodItem, Render, Unquoted, TrimSpace, Merge, ContinuesQop, IndexOf, ToLower;
    ReadItem(item);
    assert [Render(item)][1..] == [];
  }

  lemma RepeatedParameter(key: string, a: string, b: string)
    requires Token(key) && ToLower(key) == key && Token(a) && Token(b)
    ensures Params(RenderItems([Item(key, a, false), Item(key, b, false)])) == map[key := Twice(key, a, b)]
  {
    hide ParamPartsFrom, ParamsFrom, RenderItems, Merge, Twice, Token, Render;
    var first, second := Item(key, a, false), Item(key, b, false);
    var items := [first, second];
    PartsOfItems(items);
    assert Rendered(items) == [Render(first)] + [Render(second)];
    ReadStep(first, [Render(second)], map[], []);
    ReadAgain(second, map[key := a], key);
    MergedTwice(key, a, b);
    assert map[key := a][key := Twice(key, a, b)] == map[key := Twice(key, a, b)];
  }

  // ---------- Other forms ----------

  /** A scheme alone is a challenge without parameters; a blank text is none. */
  lemma SchemeAlone(scheme: string, blank: string)
    requires Token(scheme) && TrimSpace(blank) == []
    ensures Parsed(scheme) == Some(Challenge(scheme, scheme, map[])) && Parsed(blank) == None
  {
    TokenTrimmed(scheme);
    NoBlank(scheme);
    assert Params([]) == map[];
  }

  lemma {:induction false} NoBlank(s: string)
    requires forall c <- s :: TokenChar(c)
    ensures BlankIndex(s) == |s|
  {
    if s != [] {
      assert s[0] in s;
      NoBlank(s[1..]);
    }
  }

  /** The token characters of section 5.6.2 of RFC 9110. */
  lemma TokenCharacters(c: char)
    ensures TokenChar(c) <==> LetterOrDigit(c) || c in "!#$%&'*+-.^_`|~"
  {
  }

  /** A challenge that is not Digest, or lacks realm or nonce, is passed on as it came. */
  lemma OthersStayRaw(c: Challenge)
    requires ToLower(TrimSpace(c.scheme)) != "digest" || TrimSpace(Get(c.params, "realm")) == [] || TrimSpace(Get(c.params, "nonce")) == []
    ensures Print(c) == c.raw
  {
  }
}
