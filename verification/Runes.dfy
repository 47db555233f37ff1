/**
 Go strings: byte sequences that a `range` loop reads rune by rune. A rune is represented by the
 bytes that encode it; a byte that starts no valid UTF-8 sequence is a rune of its own.
 */
module Runes {
  type byte = b: int | 0 <= b < 256
  type Rune = seq<byte>

  predicate Continuation(b: byte) {
    0x80 <= b <= 0xBF
  }

  predicate SecondByteAccepted(first: byte, second: byte) {
    if first == 0xE0 then 0xA0 <= second <= 0xBF
    else if first == 0xED then 0x80 <= second <= 0x9F
    else if first == 0xF0 then 0x90 <= second <= 0xBF
    else if first == 0xF4 then 0x80 <= second <= 0x8F
    else Continuation(second)
  }

  /** The width of the first rune, as `utf8.DecodeRuneInString` reports it. */
  function RuneLen(s: seq<byte>): (n: nat)
    requires s != []
    ensures 1 <= n <= 4 && n <= |s|
  {
    var first := s[0];
    if 0xC2 <= first <= 0xDF && |s| >= 2 && SecondByteAccepted(first, s[1]) then 2
    else if 0xE0 <= first <= 0xEF && |s| >= 3 && SecondByteAccepted(first, s[1]) && Continuation(s[2]) then 3
    else if 0xF0 <= first <= 0xF4 && |s| >= 4 && SecondByteAccepted(first, s[1])
            && Continuation(s[2]) && Continuation(s[3]) then 4
    else 1
  }

  function Decode(s: seq<byte>): (rs: seq<Rune>) {
    if s == [] then [] else [s[..RuneLen(s)]] + Decode(s[RuneLen(s)..])
  }

  function Join(rs: seq<Rune>): seq<byte> {
    if rs == [] then [] else rs[0] + Join(rs[1..])
  }

  function Flatten<T>(xss: seq<seq<T>>): seq<T> {
    if xss == [] then [] else xss[0] + Flatten(xss[1..])
  }

  lemma {:induction false} JoinDecode(s: seq<byte>)
    ensures Join(Decode(s)) == s
  {
    if s != [] {
      JoinDecode(s[RuneLen(s)..]);
    }
  }

  lemma {:induction false} DecodedWidths(s: seq<byte>)
    ensures forall r <- Decode(s) :: 1 <= |r| <= 4
  {
    if s != [] {
      DecodedWidths(s[RuneLen(s)..]);
    }
  }

  lemma {:induction false} JoinAppend(a: seq<Rune>, b: seq<Rune>)
    ensures Join(a + b) == Join(a) + Join(b)
  {
    if a == [] {
      assert a + b == b;
    } else {
      assert (a + b)[1..] == a[1..] + b;
      JoinAppend(a[1..], b);
    }
  }

  lemma {:induction false} FlattenAppend<T>(a: seq<seq<T>>, b: seq<seq<T>>)
    ensures Flatten(a + b) == Flatten(a) + Flatten(b)
  {
    if a == [] {
      assert a + b == b;
    } else {
      assert (a + b)[1..] == a[1..] + b;
      FlattenAppend(a[1..], b);
    }
  }

  lemma TruncatedRuneLen(s: seq<byte>, m: nat)
    requires s != [] && RuneLen(s) <= m <= |s|
    ensures RuneLen(s[..m]) == RuneLen(s)
  {
  }

  lemma DecodePrepend(s: seq<byte>, rest: seq<byte>)
    requires s != [] && s[..RuneLen(s)] + rest <= s
    ensures Decode(s[..RuneLen(s)] + rest) == [s[..RuneLen(s)]] + Decode(rest)
  {
    var n := RuneLen(s);
    var t := s[..n] + rest;
    TruncatedRuneLen(s, |t|);
    assert t == s[..|t|];
    assert t[..n] == s[..n] && t[n..] == rest;
  }

  /** Cutting a string between two runes cuts its rune sequence: neither half decodes differently. */
  lemma {:induction false} DecodeCut(s: seq<byte>, a: seq<Rune>, b: seq<Rune>)
    requires Decode(s) == a + b
    ensures s == Join(a) + Join(b) && Decode(Join(a)) == a && Decode(Join(b)) == b
  {
    JoinDecode(s);
    JoinAppend(a, b);
    if a == [] {
      assert a + b == b;
    } else {
      var n := RuneLen(s);
      assert a[1..] + b == (a + b)[1..] == Decode(s[n..]);
      DecodeCut(s[n..], a[1..], b);
      DecodePrepend(s, Join(a[1..]));
    }
  }

  /** The position at which a rune starts. */
  function Start(s: seq<byte>, k: nat): nat
    requires k <= |Decode(s)|
  {
    |Join(Decode(s)[..k])|
  }

  lemma StartBounds(s: seq<byte>, k: nat)
    requires k <= |Decode(s)|
    ensures Start(s, 0) == 0 && Start(s, k) <= |s|
    ensures Start(s, k) == |s| <==> k == |Decode(s)|
  {
    var rs := Decode(s);
    assert rs == rs[..k] + rs[k..];
    DecodeCut(s, rs[..k], rs[k..]);
    if k < |rs| {
      DecodedWidths(s);
      assert rs[k] in rs && Join(rs[k..]) == rs[k] + Join(rs[k..][1..]);
    }
  }

  /** Reads the rune at a rune start, as a `range` loop does. */
  method NextRune(s: seq<byte>, pos: nat, ghost k: nat) returns (r: Rune)
    requires k <= |Decode(s)| && pos == Start(s, k) < |s|
    ensures k < |Decode(s)| && r == Decode(s)[k] && |r| > 0
    ensures pos + |r| == Start(s, k + 1) <= |s|
  {
    RuneAt(s, k);
    hide Decode, Start;
    r := s[pos..pos + RuneLen(s[pos..])];
    hide RuneLen;
    assert r == s[pos..][..|r|];
  }

  lemma RuneAt(s: seq<byte>, k: nat)
    requires k <= |Decode(s)| && Start(s, k) < |s|
    ensures k < |Decode(s)|
    ensures var t, r := s[Start(s, k)..], Decode(s)[k];
            |r| > 0 && |r| == RuneLen(t) && t[..|r|] == r && Start(s, k + 1) == Start(s, k) + |r|
  {
    var rs := Decode(s);
    StartBounds(s, k);
    var a, b := rs[..k], rs[k..];
    assert rs == a + b;
    DecodeCut(s, a, b);
    assert s[Start(s, k)..] == Join(b);
    FirstRune(Join(b), b);
    hide Decode, RuneLen;
    JoinAppend(a, [rs[k]]);
    assert rs[..k + 1] == a + [rs[k]] && Join([rs[k]]) == rs[k];
  }

  lemma FirstRune(s: seq<byte>, rs: seq<Rune>)
    requires s != [] && Decode(s) == rs
    ensures rs != [] && rs[0] == s[..RuneLen(s)]
  {
  }
}
