/** Text helpers of Go's `strings` package, on sequences of runes. */
module Text {
  /** The characters that `unicode.IsSpace` reports. */
  predicate IsSpace(c: char) {
    || '\t' <= c <= '\r' || c == ' ' || c == '\U{85}' || c == '\U{A0}' || c == '\U{1680}'
    || '\U{2000}' <= c <= '\U{200A}' || c == '\U{2028}' || c == '\U{2029}' || c == '\U{202F}'
    || c == '\U{205F}' || c == '\U{3000}'
  }

  function TrimLeft(s: string): (t: string)
    ensures t == [] || !IsSpace(t[0])
    ensures s == [] || !IsSpace(s[0]) ==> t == s
  {
    if s != [] && IsSpace(s[0]) then TrimLeft(s[1..]) else s
  }

  function TrimRight(s: string): (t: string)
    ensures t == [] || !IsSpace(t[|t| - 1])
    ensures s == [] || !IsSpace(s[|s| - 1]) ==> t == s
    ensures t != [] ==> s != [] && t[0] == s[0]
  {
    if s != [] && IsSpace(s[|s| - 1]) then TrimRight(s[..|s| - 1]) else s
  }

  function TrimSpace(s: string): (t: string)
    ensures Trimmed(t)
    ensures Trimmed(s) ==> t == s
  {
    TrimRight(TrimLeft(s))
  }

  predicate Trimmed(s: string) {
    s == [] || (!IsSpace(s[0]) && !IsSpace(s[|s| - 1]))
  }

  lemma TrimLeadingSpace(c: char, s: string)
    requires IsSpace(c)
    ensures TrimSpace([c] + s) == TrimSpace(s)
  {
    assert ([c] + s)[1..] == s;
  }

  predicate Ascii(s: string) {
    forall i :: 0 <= i < |s| ==> s[i] <= '\U{7F}'
  }

  /** ASCII letters only: the names this is applied to are tokens. */
  function LowerChar(c: char): char {
    if 'A' <= c <= 'Z' then c - 'A' + 'a' else c
  }

  function ToLower(s: string): (t: string)
    ensures |t| == |s| && forall i :: 0 <= i < |s| ==> t[i] == LowerChar(s[i])
  {
    seq(|s|, i requires 0 <= i < |s| => LowerChar(s[i]))
  }

  predicate LetterOrDigit(c: char) {
    'a' <= c <= 'z' || 'A' <= c <= 'Z' || '0' <= c <= '9'
  }

  /** The first position of a character, or the length. */
  function IndexOf(s: string, c: char): (i: nat)
    ensures i <= |s| && (i < |s| ==> s[i] == c)
  {
    if s == [] || s[0] == c then 0 else 1 + IndexOf(s[1..], c)
  }

  lemma {:induction false} IndexAbsent(s: string, c: char)
    requires c !in s
    ensures IndexOf(s, c) == |s|
  {
    if s != [] {
      assert s[0] in s;
      IndexAbsent(s[1..], c);
    }
  }

  lemma {:induction false} IndexAfter(a: string, c: char, b: string)
    requires c !in a
    ensures IndexOf(a + [c] + b, c) == |a|
  {
    if a != [] {
      assert a[0] in a;
      assert (a + [c] + b)[1..] == a[1..] + [c] + b;
      IndexAfter(a[1..], c, b);
    }
  }

  function Digit(n: nat): char {
    '0' + (n % 10) as char
  }

  function Decimal(n: nat): (s: string)
    ensures s != []
  {
    if n < 10 then [Digit(n)] else Decimal(n / 10) + [Digit(n)]
  }

  predicate AllDigits(s: string) {
    forall i :: 0 <= i < |s| ==> '0' <= s[i] <= '9'
  }

  lemma {:induction false} DecimalDigits(n: nat)
    ensures AllDigits(Decimal(n))
  {
    if n >= 10 {
      DecimalDigits(n / 10);
    }
  }

  lemma {:induction false} DecimalInjective(m: nat, n: nat)
    requires Decimal(m) == Decimal(n)
    ensures m == n
  {
    var d := Decimal(m);
    assert d[|d| - 1] == Digit(m) == Digit(n);
    if m >= 10 && n >= 10 {
      assert Decimal(m / 10) == d[..|d| - 1] == Decimal(n / 10);
      DecimalInjective(m / 10, n / 10);
    }
  }

  lemma Regrouped<T>(a: seq<T>, b: seq<T>, c: seq<T>)
    ensures a + b + c == a + (b + c)
  {
  }

  predicate AllSpace(s: string) {
    forall i :: 0 <= i < |s| ==> IsSpace(s[i])
  }

  lemma {:induction false} TrimLeftCuts(s: string) returns (lead: string)
    ensures s == lead + TrimLeft(s) && AllSpace(lead)
  {
    if s != [] && IsSpace(s[0]) {
      lead := TrimLeftCuts(s[1..]);
      lead := [s[0]] + lead;
    } else {
      lead := [];
    }
  }

  lemma {:induction false} TrimRightCuts(s: string) returns (trail: string)
    ensures s == TrimRight(s) + trail && AllSpace(trail)
  {
    if s != [] && IsSpace(s[|s| - 1]) {
      trail := TrimRightCuts(s[..|s| - 1]);
      trail := trail + [s[|s| - 1]];
    } else {
      trail := [];
    }
  }

  /** Trimming takes away white space at the ends and nothing else. */
  lemma TrimCutsSpace(s: string) returns (lead: string, trail: string)
    ensures s == lead + TrimSpace(s) + trail && AllSpace(lead) && AllSpace(trail)
  {
    hide IsSpace;
    lead := TrimLeftCuts(s);
    trail := TrimRightCuts(TrimLeft(s));
    Regrouped(lead, TrimSpace(s), trail);
  }

  /** The 25 characters with the Unicode property White_Space. */
  lemma WhiteSpace(c: char)
    ensures IsSpace(c) <==>
            c in {'\U{9}', '\U{A}', '\U{B}', '\U{C}', '\U{D}', '\U{20}', '\U{85}', '\U{A0}', '\U{1680}', '\U{2000}', '\U{2001}', '\U{2002}', '\U{2003}',
                  '\U{2004}', '\U{2005}', '\U{2006}', '\U{2007}', '\U{2008}', '\U{2009}', '\U{200A}', '\U{2028}', '\U{2029}', '\U{202F}', '\U{205F}', '\U{3000}'}
  {
  }
}
