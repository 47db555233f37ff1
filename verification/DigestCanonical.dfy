/** Canonical Digest values: canonicalising again changes nothing, so what was read back prints the same header. */
module DigestCanonical {
  import opened Wrappers
  import opened Text
  import opened HttpAuth
  import opened DigestChallenge

  // ---------- Trimming and lowering ----------

  /** A value trimmed and in lower case. */
  function Normal(s: string): string {
    ToLower(TrimSpace(s))
  }

  lemma {:induction false} TrimLeftLowers(s: string)
    ensures TrimLeft(ToLower(s)) == ToLower(TrimLeft(s))
  {
    if s != [] && IsSpace(s[0]) {
      assert ToLower(s)[1..] == ToLower(s[1..]);
      TrimLeftLowers(s[1..]);
    }
  }

  lemma {:induction false} TrimRightLowers(s: string)
    ensures TrimRight(ToLower(s)) == ToLower(TrimRight(s))
  {
    if s != [] && IsSpace(s[|s| - 1]) {
      assert ToLower(s)[..|s| - 1] == ToLower(s[..|s| - 1]);
      TrimRightLowers(s[..|s| - 1]);
    }
  }

  lemma LowerTwice(s: string)
    ensures ToLower(ToLower(s)) == ToLower(s)
  {
  }

  lemma NormalOfLower(s: string)
    ensures Normal(ToLower(s)) == Normal(s)
  {
    TrimLeftLowers(s);
    TrimRightLowers(TrimLeft(s));
    LowerTwice(TrimSpace(s));
  }

  lemma NormalTwice(s: string)
    ensures Normal(Normal(s)) == Normal(s)
  {
    NormalOfLower(TrimSpace(s));
  }

  lemma {:induction false} TrimLeftAppend(s: string, c: char)
    requires IsSpace(c)
    ensures TrimLeft(s + [c]) == if TrimLeft(s) == [] then [] else TrimLeft(s) + [c]
  {
    if s == [] {
      assert s + [c] == [c] && [c][1..] == [];
    } else if IsSpace(s[0]) {
      assert (s + [c])[1..] == s[1..] + [c];
      TrimLeftAppend(s[1..], c);
    }
  }

  lemma TrimTrailingSpace(s: string, c: char)
    requires IsSpace(c)
    ensures TrimSpace(s + [c]) == TrimSpace(s)
  {
    TrimLeftAppend(s, c);
    var t := TrimLeft(s);
    if t != [] {
      assert (t + [c])[..|t|] == t;
    }
  }

  // ---------- The words of a list ----------

  /** The pieces between commas, each trimmed and in lower case. */
  function WordsOf(s: string): seq<string>
    decreases |s|
  {
    var i := IndexOf(s, ',');
    if i == |s| then [Normal(s)] else [Normal(s[..i])] + WordsOf(s[i + 1..])
  }

  lemma {:induction false} WordAt(s: string)
    ensures |WordsOf(s)| == |Pieces(s)| && forall k :: 0 <= k < |Pieces(s)| ==> WordsOf(s)[k] == Normal(Pieces(s)[k])
    decreases |s|
  {
    hide Normal, IndexOf;
    var i := IndexOf(s, ',');
    if i < |s| {
      WordAt(s[i + 1..]);
    }
  }

  lemma WordsArePieces(s: string, w: string)
    ensures w in WordsOf(s) <==> exists p <- Pieces(s) :: ToLower(TrimSpace(p)) == w
  {
    hide Pieces, WordsOf, ToLower, TrimSpace;
    WordAt(s);
    var pieces, words := Pieces(s), WordsOf(s);
    if w in words {
      var k :| 0 <= k < |words| && words[k] == w;
      assert pieces[k] in pieces;
    }
    if p :| p in pieces && ToLower(TrimSpace(p)) == w {
      var k :| 0 <= k < |pieces| && pieces[k] == p;
      assert words[k] == w;
    }
  }

  lemma {:induction false} IndexOfLower(s: string)
    ensures IndexOf(ToLower(s), ',') == IndexOf(s, ',')
  {
    if s != [] && s[0] != ',' {
      assert ToLower(s)[1..] == ToLower(s[1..]);
      IndexOfLower(s[1..]);
    }
  }

  lemma LowerCut(s: string, i: nat)
    requires i < |s|
    ensures ToLower(s)[..i] == ToLower(s[..i]) && ToLower(s)[i + 1..] == ToLower(s[i + 1..])
  {
  }

  lemma {:induction false} WordsOfLower(s: string)
    ensures WordsOf(ToLower(s)) == WordsOf(s)
    decreases |s|
  {
    hide Normal, IndexOf;
    var i := IndexOf(s, ',');
    IndexOfLower(s);
    if i == |s| {
      NormalOfLower(s);
    } else {
      LowerCut(s, i);
      NormalOfLower(s[..i]);
      WordsOfLower(s[i + 1..]);
    }
  }

  lemma WordsAfterSpace(c: char, s: string)
    requires IsSpace(c)
    ensures WordsOf([c] + s) == WordsOf(s)
  {
    var t, i := [c] + s, IndexOf(s, ',');
    assert t[1..] == s && IndexOf(t, ',') == i + 1;
    if i == |s| {
      TrimLeadingSpace(c, s);
    } else {
      assert t[..i + 1] == [c] + s[..i] && t[i + 2..] == s[i + 1..];
      TrimLeadingSpace(c, s[..i]);
    }
  }

  lemma {:induction false} IndexOfAppend(s: string, c: char)
    requires c != ','
    ensures IndexOf(s + [c], ',') == if IndexOf(s, ',') == |s| then |s| + 1 else IndexOf(s, ',')
  {
    if s == [] {
      assert s + [c] == [c] && [c][1..] == [];
    } else if s[0] != ',' {
      assert (s + [c])[1..] == s[1..] + [c];
      IndexOfAppend(s[1..], c);
    }
  }

  lemma {:induction false} WordsBeforeSpace(s: string, c: char)
    requires IsSpace(c)
    ensures WordsOf(s + [c]) == WordsOf(s)
    decreases |s|
  {
    var i := IndexOf(s, ',');
    IndexOfAppend(s, c);
    if i == |s| {
      TrimTrailingSpace(s, c);
    } else {
      assert (s + [c])[..i] == s[..i] && (s + [c])[i + 1..] == s[i + 1..] + [c];
      WordsBeforeSpace(s[i + 1..], c);
    }
  }

  lemma {:induction false} WordsOfTrimLeft(s: string)
    ensures WordsOf(TrimLeft(s)) == WordsOf(s)
  {
    if s != [] && IsSpace(s[0]) {
      assert s == [s[0]] + s[1..];
      WordsAfterSpace(s[0], s[1..]);
      WordsOfTrimLeft(s[1..]);
    }
  }

  lemma {:induction false} WordsOfTrimRight(s: string)
    ensures WordsOf(TrimRight(s)) == WordsOf(s)
  {
    if s != [] && IsSpace(s[|s| - 1]) {
      var front := s[..|s| - 1];
      assert s == front + [s[|s| - 1]];
      WordsBeforeSpace(front, s[|s| - 1]);
      WordsOfTrimRight(front);
    }
  }

  lemma WordsOfNormal(s: string)
    ensures WordsOf(Normal(s)) == WordsOf(s)
  {
    hide WordsOf;
    WordsOfTrimLeft(s);
    WordsOfTrimRight(TrimLeft(s));
    WordsOfLower(TrimSpace(s));
  }

  // ---------- Canonical values are fixed ----------

  lemma OneWord(w: string)
    requires ',' !in w && Normal(w) == w
    ensures WordsOf(w) == [w]
  {
    IndexAbsent(w, ',');
  }

  lemma QopNames()
    ensures ',' !in "auth" && Normal("auth") == "auth" && ',' !in "auth-int" && Normal("auth-int") == "auth-int" && "auth" != "auth-int"
  {
  }

  lemma QopByWords(qop: string)
    ensures CanonicalQop(qop) == if "auth" in WordsOf(qop) then "auth" else if "auth-int" in WordsOf(qop) then "auth-int" else Normal(qop)
  {
    WordsArePieces(qop, "auth");
    WordsArePieces(qop, "auth-int");
  }

  lemma QopIsFixed(qop: string)
    ensures CanonicalQop(CanonicalQop(qop)) == CanonicalQop(qop)
  {
    hide CanonicalQop, WordsOf, Normal;
    QopByWords(qop);
    QopByWords(CanonicalQop(qop));
    QopNames();
    OneWord("auth");
    OneWord("auth-int");
    WordsOfNormal(qop);
    NormalTwice(qop);
  }

  lemma StaleIsFixed(stale: string)
    ensures CanonicalStale(CanonicalStale(stale)) == CanonicalStale(stale)
  {
    NormalTwice(stale);
  }

  lemma SpellingIsSpelt(upper: string)
    ensures Spelling(upper).Some? ==> Trimmed(Spelling(upper).value) && ToUpper(Spelling(upper).value) == upper
  {
    hide Spelling, ToUpper, Trimmed;
    SpellingIsTrimmed(upper);
    SpellingIsUpper(upper);
  }

  lemma SpellingIsTrimmed(upper: string)
    ensures Spelling(upper).Some? ==> Trimmed(Spelling(upper).value)
  {
    hide ToUpper;
  }

  lemma SpellingIsUpper(upper: string)
    ensures Spelling(upper).Some? ==> ToUpper(Spelling(upper).value) == upper
  {
    hide Trimmed;
  }

  lemma AlgorithmIsFixed(algorithm: string)
    ensures CanonicalAlgorithm(CanonicalAlgorithm(algorithm)) == CanonicalAlgorithm(algorithm)
  {
    hide Spelling, ToUpper, Trimmed;
    SpellingIsSpelt(ToUpper(TrimSpace(algorithm)));
  }

  /** Canonicalising parameters that hold canonical values gives those values again. */
  lemma CanonicalValuesAreFixed(params: map<string, string>, read: map<string, string>)
    requires Holds(read, CanonicalValues(params))
    ensures CanonicalValues(read) == CanonicalValues(params)
  {
    hide CanonicalAlgorithm, CanonicalQop, CanonicalStale, TrimSpace;
    AlgorithmIsFixed(Get(params, "algorithm"));
    QopIsFixed(Get(params, "qop"));
    StaleIsFixed(Get(params, "stale"));
  }

  lemma DigestIsDigest()
    ensures ToLower(TrimSpace("Digest")) == "digest"
  {
  }

  /** A challenge read back is printable again, prints as the same text, and holds its own canonical values. */
  lemma ReadBackReprints(c: Challenge)
    requires Printable(c)
    ensures Parsed(Print(c)).Some?
    ensures var d := Parsed(Print(c)).value; Printable(d) && Print(d) == Print(c) && Holds(d.params, CanonicalValues(d.params))
  {
    hide CanonicalAlgorithm, CanonicalQop, CanonicalStale, Parsed, Items, RenderItems, ToLower, TokenOrEmpty;
    PrintedReadsBack(c);
    var d := Parsed(Print(c)).value;
    CanonicalValuesAreFixed(c.params, d.params);
    DigestIsDigest();
    BareValues(c);
  }

  lemma BareValues(c: Challenge)
    requires Printable(c)
    ensures TokenOrEmpty(TrimSpace(CanonicalAlgorithm(Get(c.params, "algorithm"))))
    ensures TokenOrEmpty(TrimSpace(CanonicalStale(Get(c.params, "stale"))))
  {
    hide CanonicalAlgorithm;
    AlgorithmToken(Get(c.params, "algorithm"));
    LowerToken(TrimSpace(Get(c.params, "stale")));
    TokenStays(CanonicalAlgorithm(Get(c.params, "algorithm")));
    TokenStays(CanonicalStale(Get(c.params, "stale")));
  }

  lemma TokenStays(s: string)
    requires TokenOrEmpty(s)
    ensures TrimSpace(s) == s
  {
    if s != [] {
      TokenTrimmed(s);
    }
  }

  /** The challenges that a header value is read as. */
  function ReadAll(header: string): seq<Challenge>
    requires forall part <- Challenges(header) :: Parsed(part).Some?
  {
    var parts := Challenges(header);
    seq(|parts|, i requires 0 <= i < |parts| => assert parts[i] in parts; Parsed(parts[i]).value)
  }

  /** Reading a printed header and printing what was read gives the same header, challenge by challenge canonical. */
  lemma HeaderReprints(cs: seq<Challenge>)
    requires forall c <- cs :: Printable(c)
    ensures var header := JoinChallenges(cs);
            && (forall part <- Challenges(header) :: Parsed(part).Some?)
            && var read := ReadAll(header);
               && JoinChallenges(read) == header
               && |read| == |cs|
               && (forall i :: 0 <= i < |read| ==> Printable(read[i]) && Holds(read[i].params, CanonicalValues(read[i].params)))
               && (forall i :: 0 <= i < |read| && Holds(cs[i].params, CanonicalValues(cs[i].params)) ==> read[i].params == cs[i].params)
  {
    hide Printable, Print, Parsed, Challenges, Holds, CanonicalValues;
    ChallengesRoundTrip(cs);
    var parts := Challenges(JoinChallenges(cs));
    forall i | 0 <= i < |cs|
      ensures parts[i] == Print(cs[i])
    {
      ChallengeTexts(cs, i);
    }
    forall part <- parts
      ensures Parsed(part).Some?
    {
      var i :| 0 <= i < |parts| && parts[i] == part;
      ReadBackReprints(cs[i]);
    }
    var read := ReadAll(JoinChallenges(cs));
    forall i | 0 <= i < |read|
      ensures Printable(read[i]) && Print(read[i]) == Print(cs[i]) && Holds(read[i].params, CanonicalValues(read[i].params))
    {
      ReadBackReprints(cs[i]);
    }
    SamePrintsJoinAlike(read, cs);
    forall i | 0 <= i < |read| && Holds(cs[i].params, CanonicalValues(cs[i].params))
      ensures read[i].params == cs[i].params
    {
      CanonicalIsFixed(cs[i]);
    }
  }

  lemma ChallengeTexts(cs: seq<Challenge>, i: nat)
    requires (forall c <- cs :: Printable(c)) && i < |cs|
    ensures |Challenges(JoinChallenges(cs))| == |cs| && Challenges(JoinChallenges(cs))[i] == Print(cs[i])
  {
    hide Printable, Print, Challenges, TextOf, Form, GoodPrinted;
    var ps := Forms(cs);
    forall j | 0 <= j < |cs|
      ensures GoodPrinted(ps[j]) && TextOf(ps[j]) == Print(cs[j])
    {
      FormGood(cs[j]);
    }
    JoinIsHeader(cs);
    SplitHeader(ps);
  }

  lemma {:induction false} SamePrintsJoinAlike(a: seq<Challenge>, b: seq<Challenge>)
    requires |a| == |b| && forall i :: 0 <= i < |a| ==> Print(a[i]) == Print(b[i])
    ensures JoinChallenges(a) == JoinChallenges(b)
  {
    hide Print;
    if |a| > 1 {
      SamePrintsJoinAlike(a[1..], b[1..]);
    }
  }

  /** What comes back, by the parameters as given: realm and nonce trimmed, opaque as it was, the others up to spelling. */
  lemma ValuesComeBack(text: string, c: Challenge)
    requires Printable(c) && ReadsAs(text, c)
    ensures var read := Parsed(text).value.params;
            && Get(read, "realm") == TrimSpace(Get(c.params, "realm")) && Get(read, "nonce") == TrimSpace(Get(c.params, "nonce"))
            && Get(read, "opaque") == Get(c.params, "opaque")
            && ToUpper(Get(read, "algorithm")) == ToUpper(TrimSpace(Get(c.params, "algorithm")))
            && Get(read, "stale") == ToLower(TrimSpace(Get(c.params, "stale")))
            && var qop := Get(c.params, "qop");
               Get(read, "qop") == if "auth" in WordsOf(qop) then "auth" else if "auth-int" in WordsOf(qop) then "auth-int" else ToLower(TrimSpace(qop))
  {
    hide Parsed, Spelling, ToUpper, TrimSpace, ToLower, WordsOf, CanonicalQop, Printable, Print;
    SpellingIsSpelt(ToUpper(TrimSpace(Get(c.params, "algorithm"))));
    QopByWords(Get(c.params, "qop"));
  }
}
