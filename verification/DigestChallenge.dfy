/** Printing Digest challenges in canonical form, and the round trip through the challenge parser. */
module DigestChallenge {
  import opened Wrappers
  import opened Text
  import opened Quoting
  import opened HttpAuth

  // ---------- Canonical values ----------

  function Get(params: map<string, string>, key: string): string {
    if key in params then params[key] else []
  }

  function UpperChar(c: char): char {
    if 'a' <= c <= 'z' then c - 'a' + 'A' else c
  }

  function ToUpper(s: string): string {
    seq(|s|, i requires 0 <= i < |s| => UpperChar(s[i]))
  }

  /** The registered spelling of an algorithm name given in upper case. */
  function Spelling(upper: string): Option<string> {
    if upper == "AKAV1-MD5" then Some("AKAv1-MD5")
    else if upper == "AKAV2-MD5" then Some("AKAv2-MD5")
    else if upper == "MD5" then Some("MD5")
    else if upper == "MD5-SESS" then Some("MD5-sess")
    else if upper == "SHA-256" then Some("SHA-256")
    else if upper == "SHA-256-SESS" then Some("SHA-256-sess")
    else if upper == "SHA-512-256" then Some("SHA-512-256")
    else if upper == "SHA-512-256-SESS" then Some("SHA-512-256-sess")
    else None
  }

  function CanonicalAlgorithm(algorithm: string): string {
    match Spelling(ToUpper(TrimSpace(algorithm)))
    case Some(name) => name
    case None => TrimSpace(algorithm)
  }

  function CanonicalQop(qop: string): string {
    if exists p <- Pieces(qop) :: ToLower(TrimSpace(p)) == "auth" then "auth"
    else if exists p <- Pieces(qop) :: ToLower(TrimSpace(p)) == "auth-int" then "auth-int"
    else ToLower(TrimSpace(qop))
  }

  function CanonicalStale(stale: string): string {
    ToLower(TrimSpace(stale))
  }

  // ---------- Printing ----------

  /** A parameter as it is printed: quoted, or a bare token. */
  datatype Item = Item(key: string, value: string, quoted: bool)

  function Render(item: Item): string {
    item.key + ['='] + (if item.quoted then Quote(item.value) else item.value)
  }

  function Optional(key: string, value: string, quoted: bool): seq<Item> {
    if value == [] then [] else [Item(key, value, quoted)]
  }

  /** The values of the six parameters that are printed; empty ones are left out. */
  datatype Values = Values(realm: string, nonce: string, algorithm: string, qop: string, cookie: string, stale: string)

  function CanonicalValues(params: map<string, string>): Values {
    Values(TrimSpace(Get(params, "realm")), TrimSpace(Get(params, "nonce")), CanonicalAlgorithm(Get(params, "algorithm")),
           CanonicalQop(Get(params, "qop")), Get(params, "opaque"), CanonicalStale(Get(params, "stale")))
  }

  function Items(v: Values): seq<Item> {
    [Item("realm", v.realm, true), Item("nonce", v.nonce, true)]
    + Optional("algorithm", v.algorithm, false) + Optional("qop", v.qop, true)
    + Optional("opaque", v.cookie, true) + Optional("stale", v.stale, false)
  }

  /** Items after the first, each preceded by a comma and a space. */
  function RenderRest(items: seq<Item>): string {
    if items == [] then [] else [',', ' '] + Render(items[0]) + RenderRest(items[1..])
  }

  function RenderItems(items: seq<Item>): string {
    if items == [] then [] else Render(items[0]) + RenderRest(items[1..])
  }

  predicate IsDigest(c: Challenge) {
    ToLower(TrimSpace(c.scheme)) == "digest"
  }

  predicate HasRealmAndNonce(c: Challenge) {
    TrimSpace(Get(c.params, "realm")) != [] && TrimSpace(Get(c.params, "nonce")) != []
  }

  /** A Digest challenge with a realm and a nonce is printed afresh; any other keeps its raw text. */
  function Print(c: Challenge): string {
    if !IsDigest(c) || |c.params| == 0 || !HasRealmAndNonce(c) then c.raw
    else "Digest" + [' '] + RenderItems(Items(CanonicalValues(c.params)))
  }

  // ---------- Scanning what is printed ----------

  /** Text that both splitters pass without meeting a separating comma. */
  predicate Opaque(s: string, q: Quotes, q': Quotes) {
    if s == [] then q == q' else !Separates(q, s[0]) && Opaque(s[1..], Next(q, s[0]), q')
  }

  lemma {:induction false} OpaqueAppend(a: string, b: string, q: Quotes, q': Quotes, q'': Quotes)
    requires Opaque(a, q, q') && Opaque(b, q', q'')
    ensures Opaque(a + b, q, q'')
  {
    if a == [] {
      assert a + b == b;
    } else {
      assert (a + b)[1..] == a[1..] + b;
      OpaqueAppend(a[1..], b, Next(q, a[0]), q', q'');
    }
  }

  lemma {:induction false} TokenOpaque(s: string)
    requires forall c <- s :: TokenChar(c)
    ensures Opaque(s, OUTSIDE, OUTSIDE)
  {
    if s != [] {
      assert TokenChar(s[0]);
      TokenOpaque(s[1..]);
    }
  }

  lemma {:induction false} EscapeOpaque(v: string)
    ensures Opaque(Escape(v), Quotes(true, false), Quotes(true, false))
  {
    if v != [] {
      EscapeOpaque(v[1..]);
      var inside := Quotes(true, false);
      if v[0] == '\\' || v[0] == '"' {
        assert ['\\', v[0]][1..] == [v[0]] && [v[0]][1..] == [];
        assert Opaque([v[0]], Quotes(true, true), inside);
        OpaqueAppend(['\\', v[0]], Escape(v[1..]), inside, inside, inside);
      } else {
        assert [v[0]][1..] == [];
        OpaqueAppend([v[0]], Escape(v[1..]), inside, inside, inside);
      }
    }
  }

  lemma QuoteOpaque(v: string)
    ensures Opaque(Quote(v), OUTSIDE, OUTSIDE)
  {
    EscapeOpaque(v);
    var inside := Quotes(true, false);
    assert ['"'][1..] == [];
    assert Opaque(['"'], OUTSIDE, inside) && Opaque(['"'], inside, OUTSIDE);
    OpaqueAppend(['"'], Escape(v), OUTSIDE, inside, inside);
    OpaqueAppend(['"'] + Escape(v), ['"'], OUTSIDE, inside, OUTSIDE);
  }

  /** A name that parses back to itself, and a value that is quoted or a token. */
  predicate GoodItem(item: Item) {
    Token(item.key) && ToLower(item.key) == item.key && (item.quoted || Token(item.value))
  }

  lemma TokenTrimmed(s: string)
    requires Token(s)
    ensures Trimmed(s) && s[0] != '"' && s[0] != '=' && '=' !in s && !Blank(s[0])
  {
    assert s[0] in s && s[|s| - 1] in s;
  }

  lemma RenderForm(item: Item)
    requires GoodItem(item)
    ensures Opaque(Render(item), OUTSIDE, OUTSIDE) && Render(item) != [] && Trimmed(Render(item))
    ensures Render(item)[0] != '=' && !Blank(Render(item)[0])
  {
    var value := if item.quoted then Quote(item.value) else item.value;
    TokenOpaque(item.key);
    TokenTrimmed(item.key);
    assert ['='][1..] == [];
    assert Opaque(['='], OUTSIDE, OUTSIDE);
    if item.quoted {
      QuoteOpaque(item.value);
    } else {
      TokenOpaque(item.value);
      TokenTrimmed(item.value);
    }
    OpaqueAppend(item.key, ['='], OUTSIDE, OUTSIDE, OUTSIDE);
    OpaqueAppend(item.key + ['='], value, OUTSIDE, OUTSIDE, OUTSIDE);
    assert Render(item)[|Render(item)| - 1] == value[|value| - 1];
  }

  // ---------- Splitting one challenge into its parameters ----------

  lemma {:induction false} PartsPast(a: string, b: string, q: Quotes, q': Quotes, cur: string, out: seq<string>)
    requires Opaque(a, q, q')
    ensures ParamPartsFrom(a + b, q, cur, out) == ParamPartsFrom(b, q', cur + a, out)
  {
    if a == [] {
      assert a + b == b && cur + a == cur;
    } else {
      assert (a + b)[1..] == a[1..] + b;
      PartsPast(a[1..], b, Next(q, a[0]), q', cur + [a[0]], out);
      assert cur + [a[0]] + a[1..] == cur + a;
    }
  }

  function Rendered(items: seq<Item>): (r: seq<string>)
    ensures |r| == |items| && forall i :: 0 <= i < |r| ==> r[i] == Render(items[i])
  {
    if items == [] then [] else [Render(items[0])] + Rendered(items[1..])
  }

  lemma SpacedOpaque(text: string)
    requires Opaque(text, OUTSIDE, OUTSIDE)
    ensures Opaque([' '] + text, OUTSIDE, OUTSIDE)
  {
    assert ([' '] + text)[1..] == text;
  }

  lemma PartsStep(item: Item, rest: string, cur: string, out: seq<string>)
    requires GoodItem(item) && TrimSpace(cur) != []
    ensures ParamPartsFrom([',', ' '] + Render(item) + rest, OUTSIDE, cur, out)
            == ParamPartsFrom(rest, OUTSIDE, [' '] + Render(item), out + [TrimSpace(cur)])
    ensures TrimSpace([' '] + Render(item)) == Render(item) != []
  {
    RenderForm(item);
    SpacedOpaque(Render(item));
    TrimLeadingSpace(' ', Render(item));
    hide GoodItem, Render, TrimSpace, Trimmed, IsSpace, Opaque;
    var text := [' '] + Render(item);
    var all := [',', ' '] + Render(item) + rest;
    assert all[0] == ',' && all[1..] == text + rest;
    PartsPast(text, rest, OUTSIDE, OUTSIDE, [], out + [TrimSpace(cur)]);
    assert [] + text == text;
  }

  lemma PartsEnd(cur: string, out: seq<string>)
    requires TrimSpace(cur) != []
    ensures ParamPartsFrom([], OUTSIDE, cur, out) == out + [TrimSpace(cur)]
    ensures ChallengesFrom([], OUTSIDE, cur, out) == out + [TrimSpace(cur)]
  {
  }

  lemma {:induction false} PartsOfRest(items: seq<Item>, cur: string, out: seq<string>)
    requires (forall item <- items :: GoodItem(item)) && TrimSpace(cur) != []
    ensures ParamPartsFrom(RenderRest(items), OUTSIDE, cur, out) == out + [TrimSpace(cur)] + Rendered(items)
    decreases |items|
  {
    hide GoodItem, Render, TrimSpace, ParamPartsFrom;
    if items == [] {
      PartsEnd(cur, out);
      assert out + [TrimSpace(cur)] + [] == out + [TrimSpace(cur)];
    } else {
      PartsStep(items[0], RenderRest(items[1..]), cur, out);
      PartsOfRest(items[1..], [' '] + Render(items[0]), out + [TrimSpace(cur)]);
      Regrouped(out + [TrimSpace(cur)], [Render(items[0])], Rendered(items[1..]));
    }
  }

  lemma PartsOfItems(items: seq<Item>)
    requires items != [] && forall item <- items :: GoodItem(item)
    ensures ParamPartsFrom(RenderItems(items), OUTSIDE, [], []) == Rendered(items)
  {
    hide GoodItem, Render, TrimSpace, Trimmed, IsSpace, Opaque, ParamPartsFrom;
    var text := Render(items[0]);
    RenderForm(items[0]);
    PartsPast(text, RenderRest(items[1..]), OUTSIDE, OUTSIDE, [], []);
    assert [] + text == text;
    PartsOfRest(items[1..], text, []);
    assert [] + [text] + Rendered(items[1..]) == Rendered(items);
  }

  function ItemMap(items: seq<Item>): map<string, string> {
    if items == [] then map[] else map[items[0].key := items[0].value] + ItemMap(items[1..])
  }

  predicate DistinctKeys(items: seq<Item>) {
    forall i, j :: 0 <= i < j < |items| ==> items[i].key != items[j].key
  }

  lemma ReadItem(item: Item)
    requires GoodItem(item)
    ensures var part, eq := Render(item), IndexOf(Render(item), '=');
            && eq < |part| && ToLower(TrimSpace(part[..eq])) == item.key != []
            && Unquoted(part[eq + 1..]) == item.value
  {
    var value := if item.quoted then Quote(item.value) else item.value;
    TokenTrimmed(item.key);
    IndexAfter(item.key, '=', value);
    var part := Render(item);
    assert part[..|item.key|] == item.key && part[|item.key| + 1..] == value;
    if item.quoted {
      UnquoteQuote(item.value);
    } else {
      TokenTrimmed(item.value);
    }
  }

  lemma ReadStep(item: Item, rest: seq<string>, acc: map<string, string>, lastKey: string)
    requires GoodItem(item) && item.key !in acc
    ensures ParamsFrom([Render(item)] + rest, acc, lastKey) == ParamsFrom(rest, acc[item.key := item.value], item.key)
  {
    hide GoodItem, Render, Unquoted, TrimSpace, Merge, ContinuesQop, IndexOf, ToLower;
    ReadItem(item);
    assert ([Render(item)] + rest)[1..] == rest;
  }

  lemma {:induction false} ReadItems(items: seq<Item>, acc: map<string, string>, lastKey: string)
    requires (forall item <- items :: GoodItem(item)) && DistinctKeys(items)
    requires forall item <- items :: item.key !in acc
    ensures ParamsFrom(Rendered(items), acc, lastKey) == acc + ItemMap(items)
    decreases |items|
  {
    hide GoodItem, Render, ParamsFrom;
    if items == [] {
      assert acc + ItemMap(items) == acc;
      ReadNothing(acc, lastKey);
    } else {
      var item, rest := items[0], items[1..];
      ReadStep(item, Rendered(rest), acc, lastKey);
      ReadItems(rest, acc[item.key := item.value], item.key);
      MapAssoc(acc, item.key, item.value, ItemMap(rest));
    }
  }

  lemma MapAssoc<K, V>(acc: map<K, V>, k: K, v: V, m: map<K, V>)
    ensures acc[k := v] + m == acc + (map[k := v] + m)
  {
  }

  lemma ReadNothing(acc: map<string, string>, lastKey: string)
    ensures ParamsFrom([], acc, lastKey) == acc
  {
  }

  // ---------- Splitting a header into its challenges ----------

  lemma {:induction false} ChallengesPast(a: string, b: string, q: Quotes, q': Quotes, cur: string, out: seq<string>)
    requires Opaque(a, q, q')
    ensures ChallengesFrom(a + b, q, cur, out) == ChallengesFrom(b, q', cur + a, out)
  {
    hide ChallengeStarts;
    if a == [] {
      assert a + b == b && cur + a == cur;
    } else {
      assert (a + b)[1..] == a[1..] + b;
      ChallengesPast(a[1..], b, Next(q, a[0]), q', cur + [a[0]], out);
      assert cur + [a[0]] + a[1..] == cur + a;
    }
  }

  lemma {:induction false} TokenLenAt(a: string, b: string)
    requires (forall c <- a :: TokenChar(c)) && b != [] && !TokenChar(b[0])
    ensures TokenLen(a + b) == |a|
  {
    if a == [] {
      assert a + b == b;
    } else {
      assert a[0] in a;
      assert (a + b)[1..] == a[1..] + b;
      TokenLenAt(a[1..], b);
    }
  }

  /** A parameter after a comma does not look like a new challenge. */
  lemma ItemStartsNothing(item: Item, rest: string)
    requires GoodItem(item)
    ensures !ChallengeStarts([' '] + Render(item) + rest)
  {
    TokenTrimmed(item.key);
    var tail := ['='] + (if item.quoted then Quote(item.value) else item.value) + rest;
    TokenLenAt(item.key, tail);
    var s := [' '] + Render(item) + rest;
    assert s[1..] == item.key + tail;
    assert TrimBlank(s[1..]) == s[1..];
  }

  /** A challenge after a comma does. */
  lemma ChallengeStartsOne(scheme: string, text: string)
    requires Token(scheme) && text != [] && text[0] != '=' && !Blank(text[0])
    ensures ChallengeStarts([' '] + scheme + [' '] + text)
  {
    TokenTrimmed(scheme);
    var tail := [' '] + text;
    TokenLenAt(scheme, tail);
    var s := [' '] + scheme + [' '] + text;
    assert s[1..] == scheme + tail;
    assert TrimBlank(s[1..]) == s[1..];
    assert (scheme + tail)[|scheme|..] == tail && tail[1..] == text;
    assert TrimBlank(tail) == TrimBlank(text) == text;
  }

  lemma ChallengesStep(item: Item, after: string, cur: string, out: seq<string>)
    requires GoodItem(item)
    ensures ChallengesFrom([',', ' '] + Render(item) + after, OUTSIDE, cur, out)
            == ChallengesFrom(after, OUTSIDE, cur + ([',', ' '] + Render(item)), out)
  {
    RenderForm(item);
    SpacedOpaque(Render(item));
    ItemStartsNothing(item, after);
    hide GoodItem, Render, ChallengeStarts, Trimmed, Opaque;
    var text := [' '] + Render(item);
    var all := [',', ' '] + Render(item) + after;
    assert all[0] == ',' && all[1..] == text + after == [' '] + Render(item) + after;
    ChallengesPast(text, after, OUTSIDE, OUTSIDE, cur + [','], out);
    assert cur + [','] + text == cur + ([',', ' '] + Render(item));
  }

  /** The parameters of a challenge are passed without a cut, up to what follows the challenge. */
  lemma {:induction false} ChallengesPastRest(items: seq<Item>, after: string, cur: string, out: seq<string>)
    requires forall item <- items :: GoodItem(item)
    ensures ChallengesFrom(RenderRest(items) + after, OUTSIDE, cur, out)
            == ChallengesFrom(after, OUTSIDE, cur + RenderRest(items), out)
    decreases |items|
  {
    hide GoodItem, Render, ChallengesFrom;
    if items == [] {
      assert [] + after == after && cur + [] == cur;
    } else {
      var text, rest := [',', ' '] + Render(items[0]), RenderRest(items[1..]);
      ChallengesStep(items[0], rest + after, cur, out);
      assert RenderRest(items) + after == text + (rest + after);
      ChallengesPastRest(items[1..], after, cur + text, out);
      assert cur + text + rest == cur + RenderRest(items);
    }
  }

  /** A challenge as scheme and items, and the text it is printed as. */
  datatype Printed = Printed(scheme: string, items: seq<Item>)

  predicate GoodPrinted(p: Printed) {
    Token(p.scheme) && p.items != [] && DistinctKeys(p.items) && forall item <- p.items :: GoodItem(item)
  }

  function TextOf(p: Printed): string {
    p.scheme + [' '] + RenderItems(p.items)
  }

  function Texts(ps: seq<Printed>): (r: seq<string>)
    ensures |r| == |ps| && forall i :: 0 <= i < |ps| ==> r[i] == TextOf(ps[i])
  {
    if ps == [] then [] else [TextOf(ps[0])] + Texts(ps[1..])
  }

  function JoinRest(ps: seq<Printed>): string {
    if ps == [] then [] else [',', ' '] + TextOf(ps[0]) + JoinRest(ps[1..])
  }

  /** The header value: the challenges joined with a comma and a space. */
  function Header(ps: seq<Printed>): string {
    if ps == [] then [] else TextOf(ps[0]) + JoinRest(ps[1..])
  }

  lemma ItemsForm(items: seq<Item>)
    requires items != [] && forall item <- items :: GoodItem(item)
    ensures RenderItems(items) != [] && Trimmed(RenderItems(items))
    ensures RenderItems(items)[0] != '=' && !Blank(RenderItems(items)[0])
  {
    RenderForm(items[0]);
    RestTrimmed(items[1..]);
  }

  lemma {:induction false} RestTrimmed(items: seq<Item>)
    requires forall item <- items :: GoodItem(item)
    ensures RenderRest(items) == [] || !IsSpace(RenderRest(items)[|RenderRest(items)| - 1])
  {
    hide GoodItem, Render, Opaque, Blank;
    if items != [] {
      RenderForm(items[0]);
      RestTrimmed(items[1..]);
    }
  }

  lemma TextForm(p: Printed)
    requires GoodPrinted(p)
    ensures TextOf(p) != [] && Trimmed(TextOf(p))
  {
    TokenTrimmed(p.scheme);
    ItemsForm(p.items);
    hide RenderItems, GoodItem, Token;
    var t, r := TextOf(p), RenderItems(p.items);
    assert t[0] == p.scheme[0] && t[|t| - 1] == r[|r| - 1];
  }

  function HeadOf(p: Printed): string
    requires p.items != []
  {
    p.scheme + ([' '] + Render(p.items[0]))
  }

  lemma HeadForm(p: Printed)
    requires GoodPrinted(p)
    ensures Opaque(HeadOf(p), OUTSIDE, OUTSIDE) && TextOf(p) == HeadOf(p) + RenderRest(p.items[1..])
  {
    TokenOpaque(p.scheme);
    RenderForm(p.items[0]);
    hide GoodItem, Render, Trimmed, Token, Opaque;
    SpacedOpaque(Render(p.items[0]));
    OpaqueAppend(p.scheme, [' '] + Render(p.items[0]), OUTSIDE, OUTSIDE, OUTSIDE);
  }

  lemma PastBoth(head: string, rest: string, after: string, cur: string, out: seq<string>)
    requires Opaque(head, OUTSIDE, OUTSIDE)
    requires ChallengesFrom(rest + after, OUTSIDE, cur + head, out) == ChallengesFrom(after, OUTSIDE, cur + head + rest, out)
    ensures ChallengesFrom(head + rest + after, OUTSIDE, cur, out) == ChallengesFrom(after, OUTSIDE, cur + (head + rest), out)
  {
    hide ChallengesFrom, Opaque;
    ChallengesPast(head, rest + after, OUTSIDE, OUTSIDE, cur, out);
    assert head + rest + after == head + (rest + after);
    assert cur + head + rest == cur + (head + rest);
  }

  lemma ChallengesPastText(p: Printed, after: string, cur: string, out: seq<string>)
    requires GoodPrinted(p)
    ensures ChallengesFrom(TextOf(p) + after, OUTSIDE, cur, out) == ChallengesFrom(after, OUTSIDE, cur + TextOf(p), out)
  {
    hide TextOf, HeadOf, Opaque, ChallengesFrom, GoodItem, RenderRest, DistinctKeys, Token;
    HeadForm(p);
    ChallengesPastRest(p.items[1..], after, cur + HeadOf(p), out);
    PastBoth(HeadOf(p), RenderRest(p.items[1..]), after, cur, out);
  }

  lemma TextStarts(p: Printed, rest: string)
    requires GoodPrinted(p)
    ensures ChallengeStarts([' '] + (TextOf(p) + rest))
    ensures TrimSpace([' '] + TextOf(p)) == TextOf(p) != []
  {
    hide ChallengeStarts, RenderItems, TrimSpace, Trimmed, GoodItem, Token, Blank, DistinctKeys;
    TextForm(p);
    ItemsForm(p.items);
    ChallengeStartsOne(p.scheme, RenderItems(p.items) + rest);
    TrimLeadingSpace(' ', TextOf(p));
    assert [' '] + (TextOf(p) + rest) == [' '] + p.scheme + [' '] + (RenderItems(p.items) + rest);
  }

  lemma {:induction false} SplitRest(ps: seq<Printed>, cur: string, out: seq<string>)
    requires (forall p <- ps :: GoodPrinted(p)) && TrimSpace(cur) != []
    ensures ChallengesFrom(JoinRest(ps), OUTSIDE, cur, out) == out + [TrimSpace(cur)] + Texts(ps)
    decreases |ps|
  {
    hide GoodPrinted, TextOf, ChallengesFrom, TrimSpace;
    if ps == [] {
      PartsEnd(cur, out);
      assert out + [TrimSpace(cur)] + [] == out + [TrimSpace(cur)];
    } else {
      var p, rest := ps[0], JoinRest(ps[1..]);
      TextStarts(p, rest);
      SplitStep(p, rest, cur, out);
      SplitRest(ps[1..], [' '] + TextOf(p), out + [TrimSpace(cur)]);
      Regrouped(out + [TrimSpace(cur)], [TextOf(p)], Texts(ps[1..]));
    }
  }

  lemma CutAtComma(rest: string, cur: string, out: seq<string>)
    requires TrimSpace(cur) != [] && ChallengeStarts(rest)
    ensures ChallengesFrom([','] + rest, OUTSIDE, cur, out) == ChallengesFrom(rest, OUTSIDE, [], out + [TrimSpace(cur)])
  {
    hide ChallengeStarts, TrimSpace;
    assert ([','] + rest)[1..] == rest;
  }

  lemma BlankOpaque()
    ensures Opaque([' '], OUTSIDE, OUTSIDE)
  {
    assert [' '][1..] == [];
  }

  lemma SplitStep(p: Printed, rest: string, cur: string, out: seq<string>)
    requires GoodPrinted(p) && TrimSpace(cur) != [] && ChallengeStarts([' '] + (TextOf(p) + rest))
    ensures ChallengesFrom([',', ' '] + TextOf(p) + rest, OUTSIDE, cur, out)
            == ChallengesFrom(rest, OUTSIDE, [' '] + TextOf(p), out + [TrimSpace(cur)])
  {
    hide ChallengeStarts, TextOf, GoodPrinted, TrimSpace, ChallengesFrom, Opaque;
    CutAtComma([' '] + (TextOf(p) + rest), cur, out);
    assert [',', ' '] + TextOf(p) + rest == [','] + ([' '] + (TextOf(p) + rest));
    BlankOpaque();
    ChallengesPast([' '], TextOf(p) + rest, OUTSIDE, OUTSIDE, [], out + [TrimSpace(cur)]);
    assert [] + [' '] == [' '];
    ChallengesPastText(p, rest, [' '], out + [TrimSpace(cur)]);
  }

  lemma SplitSome(ps: seq<Printed>)
    requires ps != [] && forall p <- ps :: GoodPrinted(p)
    ensures Challenges(Header(ps)) == Texts(ps)
  {
    hide GoodPrinted, TextOf, TrimSpace, Trimmed, ChallengesFrom;
    var p, rest := ps[0], JoinRest(ps[1..]);
    HeaderTrimmed(ps);
    TextForm(p);
    ChallengesPastText(p, rest, [], []);
    assert [] + TextOf(p) == TextOf(p);
    SplitRest(ps[1..], TextOf(p), []);
    assert [] + [TextOf(p)] + Texts(ps[1..]) == Texts(ps);
  }

  /** Splitting the joined challenges gives back their texts. */
  lemma SplitHeader(ps: seq<Printed>)
    requires forall p <- ps :: GoodPrinted(p)
    ensures Challenges(Header(ps)) == Texts(ps)
  {
    if ps != [] {
      SplitSome(ps);
    }
  }

  lemma {:induction false} HeaderTrimmed(ps: seq<Printed>)
    requires ps != [] && forall p <- ps :: GoodPrinted(p)
    ensures Header(ps) != [] && Trimmed(Header(ps))
  {
    hide GoodPrinted, TextOf;
    TextForm(ps[0]);
    JoinTrimmed(ps[1..]);
  }

  lemma {:induction false} JoinTrimmed(ps: seq<Printed>)
    requires forall p <- ps :: GoodPrinted(p)
    ensures JoinRest(ps) == [] || !IsSpace(JoinRest(ps)[|JoinRest(ps)| - 1])
  {
    hide GoodPrinted, TextOf;
    if ps != [] {
      TextForm(ps[0]);
      JoinTrimmed(ps[1..]);
    }
  }

  lemma {:induction false} BlankAt(a: string, b: string)
    requires (forall c <- a :: !Blank(c)) && b != [] && Blank(b[0])
    ensures BlankIndex(a + b) == |a|
  {
    if a == [] {
      assert a + b == b;
    } else {
      assert a[0] in a;
      assert (a + b)[1..] == a[1..] + b;
      BlankAt(a[1..], b);
    }
  }

  lemma ItemsRead(items: seq<Item>)
    requires items != [] && DistinctKeys(items) && forall item <- items :: GoodItem(item)
    ensures Params(RenderItems(items)) == ItemMap(items)
  {
    hide GoodItem, RenderItems, ParamPartsFrom, ParamsFrom;
    PartsOfItems(items);
    ReadItems(items, map[], []);
    assert map[] + ItemMap(items) == ItemMap(items);
  }

  lemma SchemeAndBody(scheme: string, body: string)
    requires Token(scheme)
    ensures var text := scheme + [' '] + body;
            BlankIndex(text) == |scheme| && text[..|scheme|] == scheme && text[|scheme| + 1..] == body
  {
    assert forall c <- scheme :: TokenChar(c) && !Blank(c);
    BlankAt(scheme, [' '] + body);
    assert scheme + [' '] + body == scheme + ([' '] + body);
  }

  /** Parsing one printed challenge gives back its scheme and its parameters. */
  lemma ParsePrinted(p: Printed)
    requires GoodPrinted(p)
    ensures Parsed(TextOf(p)) == Some(Challenge(p.scheme, TextOf(p), ItemMap(p.items)))
  {
    hide GoodItem, RenderItems, TrimSpace, Trimmed, Params, BlankIndex, Token, DistinctKeys, ItemMap, Blank;
    TokenTrimmed(p.scheme);
    SchemeAndBody(p.scheme, RenderItems(p.items));
    TextForm(p);
    ItemsForm(p.items);
    ItemsRead(p.items);
    assert p.scheme != [] by {
      TokenNotEmpty(p.scheme);
    }
  }

  lemma TokenNotEmpty(s: string)
    requires Token(s)
    ensures s != []
  {
  }

  // ---------- Challenges printed and parsed ----------

  predicate TokenOrEmpty(s: string) {
    s == [] || Token(s)
  }

  /** A Digest challenge that is printed afresh, with bare values that can stand bare. */
  predicate Printable(c: Challenge) {
    && IsDigest(c) && HasRealmAndNonce(c)
    && TokenOrEmpty(TrimSpace(Get(c.params, "algorithm"))) && TokenOrEmpty(TrimSpace(Get(c.params, "stale")))
  }

  predicate KeyGood(key: string) {
    Token(key) && ToLower(key) == key
  }

  lemma KeysGood()
    ensures KeyGood("realm") && KeyGood("nonce") && KeyGood("algorithm") && KeyGood("qop") && KeyGood("opaque") && KeyGood("stale")
    ensures Token("Digest")
  {
  }

  lemma LowerToken(s: string)
    requires TokenOrEmpty(s)
    ensures TokenOrEmpty(ToLower(s))
  {
    if s != [] {
      var t := ToLower(s);
      forall c <- t
        ensures TokenChar(c)
      {
        var i :| 0 <= i < |t| && t[i] == c;
        assert TokenChar(s[i]);
      }
    }
  }

  lemma SpellingIsToken(upper: string)
    ensures Spelling(upper).Some? ==> Token(Spelling(upper).value)
  {
  }

  lemma AlgorithmToken(a: string)
    requires TokenOrEmpty(TrimSpace(a))
    ensures TokenOrEmpty(CanonicalAlgorithm(a))
  {
    hide Spelling, ToUpper, TrimSpace, Token;
    SpellingIsToken(ToUpper(TrimSpace(a)));
  }

  predicate BareTokens(v: Values) {
    TokenOrEmpty(v.algorithm) && TokenOrEmpty(v.stale)
  }

  lemma OptionalGood(key: string, value: string, quoted: bool)
    requires KeyGood(key) && (quoted || TokenOrEmpty(value))
    ensures forall item <- Optional(key, value, quoted) :: GoodItem(item)
  {
  }

  lemma ItemsGood(v: Values)
    requires BareTokens(v)
    ensures forall item <- Items(v) :: GoodItem(item)
  {
    KeysGood();
    hide Token, ToLower;
    OptionalGood("algorithm", v.algorithm, false);
    OptionalGood("qop", v.qop, true);
    OptionalGood("opaque", v.cookie, true);
    OptionalGood("stale", v.stale, false);
  }

  lemma OptionalDistinct(items: seq<Item>, key: string, value: string, quoted: bool)
    requires DistinctKeys(items) && forall item <- items :: item.key != key
    ensures DistinctKeys(items + Optional(key, value, quoted))
  {
  }

  lemma ItemsDistinct(v: Values)
    ensures DistinctKeys(Items(v))
  {
    assert "realm"[0] != "nonce"[0];
    assert |"algorithm"| == 9 && |"qop"| == 3 && |"opaque"| == 6 && "stale"[0] == 's';
    var two := [Item("realm", v.realm, true), Item("nonce", v.nonce, true)];
    OptionalDistinct(two, "algorithm", v.algorithm, false);
    var three := two + Optional("algorithm", v.algorithm, false);
    OptionalDistinct(three, "qop", v.qop, true);
    var four := three + Optional("qop", v.qop, true);
    OptionalDistinct(four, "opaque", v.cookie, true);
    OptionalDistinct(four + Optional("opaque", v.cookie, true), "stale", v.stale, false);
  }

  /** What parsing is to give back: the canonical values under their names, the empty ones absent. */
  predicate Holds(params: map<string, string>, v: Values) {
    && (forall key <- params :: key in {"realm", "nonce", "algorithm", "qop", "opaque", "stale"})
    && "realm" in params && "nonce" in params
    && (forall key <- {"algorithm", "qop", "opaque", "stale"} :: key in params ==> params[key] != [])
    && Get(params, "realm") == v.realm && Get(params, "nonce") == v.nonce && Get(params, "algorithm") == v.algorithm
    && Get(params, "qop") == v.qop && Get(params, "opaque") == v.cookie && Get(params, "stale") == v.stale
  }

  /** The form in which a challenge is printed. */
  function Form(c: Challenge): Printed {
    Printed("Digest", Items(CanonicalValues(c.params)))
  }

  lemma FormGood(c: Challenge)
    requires Printable(c)
    ensures GoodPrinted(Form(c)) && Print(c) == TextOf(Form(c))
  {
    var v := CanonicalValues(c.params);
    KeysGood();
    AlgorithmToken(Get(c.params, "algorithm"));
    LowerToken(TrimSpace(Get(c.params, "stale")));
    ItemsGood(v);
    ItemsDistinct(v);
    hide Items, CanonicalAlgorithm, CanonicalQop, TrimSpace, ToLower, Token, RenderItems, DistinctKeys, GoodItem;
    ItemsSome(v);
    assert c.params != map[];
  }

  lemma ItemsSome(v: Values)
    ensures Items(v) != []
  {
  }

  lemma MapPlus<K, V>(a: map<K, V>, b: map<K, V>, c: map<K, V>)
    ensures (a + b) + c == a + (b + c)
  {
  }

  lemma {:induction false} ItemMapAppend(a: seq<Item>, b: seq<Item>)
    ensures ItemMap(a + b) == ItemMap(a) + ItemMap(b)
  {
    if a == [] {
      assert a + b == b;
    } else {
      assert (a + b)[1..] == a[1..] + b;
      ItemMapAppend(a[1..], b);
      MapPlus(map[a[0].key := a[0].value], ItemMap(a[1..]), ItemMap(b));
    }
  }

  /** An entry that is absent when its value is empty. */
  function Entry(key: string, value: string): map<string, string> {
    if value == [] then map[] else map[key := value]
  }

  lemma ItemsAsMap(v: Values)
    ensures ItemMap(Items(v)) == map["realm" := v.realm, "nonce" := v.nonce]
            + Entry("algorithm", v.algorithm) + Entry("qop", v.qop) + Entry("opaque", v.cookie) + Entry("stale", v.stale)
  {
    hide ItemMap;
    var two := [Item("realm", v.realm, true), Item("nonce", v.nonce, true)];
    var three := two + Optional("algorithm", v.algorithm, false);
    var four := three + Optional("qop", v.qop, true);
    var five := four + Optional("opaque", v.cookie, true);
    ItemMapAppend(two, Optional("algorithm", v.algorithm, false));
    ItemMapAppend(three, Optional("qop", v.qop, true));
    ItemMapAppend(four, Optional("opaque", v.cookie, true));
    ItemMapAppend(five, Optional("stale", v.stale, false));
    OptionalAsMap("algorithm", v.algorithm, false);
    OptionalAsMap("qop", v.qop, true);
    OptionalAsMap("opaque", v.cookie, true);
    OptionalAsMap("stale", v.stale, false);
    PairAsMap("realm", v.realm, "nonce", v.nonce);
  }

  lemma OptionalAsMap(key: string, value: string, quoted: bool)
    ensures ItemMap(Optional(key, value, quoted)) == Entry(key, value)
  {
    if value != [] {
      assert Optional(key, value, quoted)[1..] == [];
      assert ItemMap([]) == map[];
    }
  }

  lemma PairAsMap(key: string, value: string, other: string, second: string)
    requires key != other
    ensures ItemMap([Item(key, value, true), Item(other, second, true)]) == map[key := value, other := second]
  {
    var b := Item(other, second, true);
    var both := [Item(key, value, true), b];
    assert both[1..] == [b] && [b][1..] == [];
    assert ItemMap([b]) == map[other := second] + map[] == map[other := second];
  }

  lemma KeysDiffer()
    ensures "realm"[0] == 'r' && "nonce"[0] == 'n' && |"algorithm"| == 9 && |"qop"| == 3 && |"opaque"| == 6 && "stale"[0] == 's'
    ensures |"realm"| == |"nonce"| == |"stale"| == 5
  {
  }

  lemma EntriesHold(v: Values)
    requires v.realm != [] && v.nonce != []
    ensures Holds(ItemMap(Items(v)), v)
  {
    ItemsAsMap(v);
    KeysDiffer();
    hide ItemMap, Items;
  }

  /** The printed values determine the parameter map. */
  lemma HoldsUnique(p: map<string, string>, q: map<string, string>, v: Values)
    requires Holds(p, v) && Holds(q, v)
    ensures p == q
  {
    forall key
      ensures key in p ==> key in q && p[key] == q[key]
    {
      if key in p && key != "realm" && key != "nonce" {
        assert key in {"algorithm", "qop", "opaque", "stale"};
        assert Get(p, key) == Get(q, key);
      }
    }
    forall key
      ensures key in q ==> key in p
    {
      if key in q && key != "realm" && key != "nonce" {
        assert key in {"algorithm", "qop", "opaque", "stale"};
        assert Get(p, key) == Get(q, key);
      }
    }
  }

  function JoinChallenges(cs: seq<Challenge>): string {
    if cs == [] then [] else if |cs| == 1 then Print(cs[0]) else Print(cs[0]) + [',', ' '] + JoinChallenges(cs[1..])
  }

  function Forms(cs: seq<Challenge>): (ps: seq<Printed>)
    ensures |ps| == |cs| && forall i :: 0 <= i < |cs| ==> ps[i] == Form(cs[i])
  {
    seq(|cs|, i requires 0 <= i < |cs| => Form(cs[i]))
  }

  lemma {:induction false} JoinIsHeader(cs: seq<Challenge>)
    requires forall c <- cs :: Printable(c)
    ensures JoinChallenges(cs) == Header(Forms(cs))
  {
    hide Printable, Print, TextOf, Form, GoodPrinted;
    if cs != [] {
      FormGood(cs[0]);
      JoinIsHeader(cs[1..]);
      assert Forms(cs)[1..] == Forms(cs[1..]);
    }
  }

  /** A printed challenge read back: the scheme, and exactly the canonical parameters. */
  predicate ReadsAs(text: string, c: Challenge) {
    var d := Parsed(text);
    d.Some? && d.value.scheme == "Digest" && d.value.raw == Print(c) && Holds(d.value.params, CanonicalValues(c.params))
  }

  lemma PrintedReadsBack(c: Challenge)
    requires Printable(c)
    ensures ReadsAs(Print(c), c)
  {
    FormGood(c);
    ParsePrinted(Form(c));
    EntriesHold(CanonicalValues(c.params));
    hide Holds, Print, Parsed, TextOf, Items, ItemMap, GoodPrinted;
  }

  /** Any number of challenges, joined into one header value, split and parse back one by one. */
  lemma ChallengesRoundTrip(cs: seq<Challenge>)
    requires forall c <- cs :: Printable(c)
    ensures var parts := Challenges(JoinChallenges(cs));
            |parts| == |cs| && forall i :: 0 <= i < |cs| ==> ReadsAs(parts[i], cs[i])
  {
    hide Printable, ReadsAs, GoodPrinted, TextOf, Print, Challenges, Form;
    JoinIsHeader(cs);
    var ps := Forms(cs);
    forall p <- ps
      ensures GoodPrinted(p)
    {
      var i :| 0 <= i < |ps| && ps[i] == p;
      FormGood(cs[i]);
    }
    SplitHeader(ps);
    forall i | 0 <= i < |cs|
      ensures ReadsAs(Texts(ps)[i], cs[i])
    {
      FormGood(cs[i]);
      PrintedReadsBack(cs[i]);
    }
  }

  /** Parameters already in canonical form come back unchanged. */
  lemma CanonicalIsFixed(c: Challenge)
    requires Printable(c) && Holds(c.params, CanonicalValues(c.params))
    ensures Parsed(Print(c)) == Some(Challenge("Digest", Print(c), c.params))
  {
    PrintedReadsBack(c);
    HoldsUnique(Parsed(Print(c)).value.params, c.params, CanonicalValues(c.params));
  }
}
