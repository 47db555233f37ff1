/**
 Turning an IKE address range (section 3.13.1 of RFC 7296) into one CIDR prefix: the range must be
 exactly the addresses that share a prefix.
 */
module PrefixRange {
  import opened Powers

  // ---------- Bits of octets ----------

  /** The bits of an octet, most significant first. */
  predicate OctetBit(b: bv8, j: nat) {
    match j
    case 0 => (b >> 7) & 1 == 1
    case 1 => (b >> 6) & 1 == 1
    case 2 => (b >> 5) & 1 == 1
    case 3 => (b >> 4) & 1 == 1
    case 4 => (b >> 3) & 1 == 1
    case 5 => (b >> 2) & 1 == 1
    case 6 => (b >> 1) & 1 == 1
    case _ => b & 1 == 1
  }

  function LeadingZeros(b: bv8): (n: nat)
    ensures n <= 8
  {
    if b & 0x80 != 0 then 0 else if b & 0x40 != 0 then 1 else if b & 0x20 != 0 then 2 else if b & 0x10 != 0 then 3
    else if b & 0x08 != 0 then 4 else if b & 0x04 != 0 then 5 else if b & 0x02 != 0 then 6 else if b & 0x01 != 0 then 7
    else 8
  }

  /** The exclusive or of two octets begins with as many zeros as the octets have leading bits in common. */
  lemma FirstDifference(a: bv8, b: bv8)
    requires a != b
    ensures LeadingZeros(a ^ b) < 8 && OctetBit(a, LeadingZeros(a ^ b)) != OctetBit(b, LeadingZeros(a ^ b))
    ensures forall j :: 0 <= j < LeadingZeros(a ^ b) ==> OctetBit(a, j) == OctetBit(b, j)
    ensures a > b ==> OctetBit(a, LeadingZeros(a ^ b))
  {
  }

  /** A bit of an address. */
  predicate Bit(ip: seq<bv8>, i: nat)
    requires i < 8 * |ip|
  {
    OctetBit(ip[i / 8], i % 8)
  }

  function Bits(ip: seq<bv8>): (bits: seq<bool>)
    ensures |bits| == 8 * |ip|
  {
    seq(8 * |ip|, i requires 0 <= i < 8 * |ip| => Bit(ip, i))
  }

  // ---------- Bit strings as numbers ----------

  /** The number that a bit string writes, most significant bit first. */
  function Value(bits: seq<bool>): nat {
    if bits == [] then 0 else 2 * Value(bits[..|bits| - 1]) + (if bits[|bits| - 1] then 1 else 0)
  }

  lemma {:induction false} ValueBound(bits: seq<bool>)
    ensures Value(bits) < Pow2(|bits|)
  {
    if bits != [] {
      ValueBound(bits[..|bits| - 1]);
    }
  }

  lemma {:induction false} ValueAppend(a: seq<bool>, b: seq<bool>)
    ensures Value(a + b) == Value(a) * Pow2(|b|) + Value(b)
  {
    if b == [] {
      assert a + b == a;
    } else {
      var front, n := b[..|b| - 1], |b| - 1;
      assert (a + b)[..|a + b| - 1] == a + front;
      ValueAppend(a, front);
      Double(Value(a), Pow2(n));
    }
  }

  lemma Double(a: int, b: int)
    ensures 2 * (a * b) == a * (2 * b)
  {
  }

  lemma {:induction false} ValueInjective(a: seq<bool>, b: seq<bool>)
    requires |a| == |b| && Value(a) == Value(b)
    ensures a == b
  {
    if a != [] {
      ValueInjective(a[..|a| - 1], b[..|b| - 1]);
      assert a == a[..|a| - 1] + [a[|a| - 1]] && b == b[..|b| - 1] + [b[|b| - 1]];
    }
  }

  predicate All(bits: seq<bool>, v: bool) {
    forall i :: 0 <= i < |bits| ==> bits[i] == v
  }

  lemma {:induction false} ValueOfConstant(bits: seq<bool>)
    ensures All(bits, false) <==> Value(bits) == 0
    ensures All(bits, true) <==> Value(bits) == Pow2(|bits|) - 1
  {
    if bits != [] {
      var front := bits[..|bits| - 1];
      ValueOfConstant(front);
      ValueBound(front);
      assert forall v :: All(bits, v) <==> All(front, v) && bits[|bits| - 1] == v;
    }
  }

  // ---------- The range of a prefix ----------

  /** Both ends share their first p bits; the rest is all zeros at the start and all ones at the end. */
  predicate SpansPrefix(start: seq<bool>, end: seq<bool>, p: nat)
    requires |start| == |end| && p <= |start|
  {
    start[..p] == end[..p] && All(start[p..], false) && All(end[p..], true)
  }

  /** The range has as many addresses as the prefix leaves free, and begins at a multiple of that number. */
  predicate AlignedRange(start: seq<bool>, end: seq<bool>, p: nat)
    requires |start| == |end| && p <= |start|
  {
    var size := Pow2(|start| - p);
    Value(end) + 1 == Value(start) + size && Value(start) % size == 0
  }

  lemma Split(bits: seq<bool>, p: nat)
    requires p <= |bits|
    ensures Value(bits) == Value(bits[..p]) * Pow2(|bits| - p) + Value(bits[p..])
    ensures Value(bits[p..]) < Pow2(|bits| - p)
  {
    assert bits == bits[..p] + bits[p..];
    ValueAppend(bits[..p], bits[p..]);
    ValueBound(bits[p..]);
  }

  lemma BlocksApart(a: int, b: int, m: nat)
    ensures a < b ==> a * m + m <= b * m
  {
    if a < b {
      Distribute(a, b, m);
      NotNegative(b - a - 1, m);
    }
  }

  lemma Distribute(a: int, b: int, m: int)
    ensures (b - a - 1) * m == b * m - a * m - m
  {
  }

  lemma NotNegative(a: nat, b: nat)
    ensures a * b >= 0
  {
  }

  lemma SameBlock(a: int, c: int, r: nat, m: nat)
    requires r < m
    ensures a * m <= c * m + r <= a * m + (m - 1) <==> c == a
  {
    BlocksApart(c, a, m);
    BlocksApart(a, c, m);
  }

  lemma QuotientUnique(q: nat, r: nat, m: nat)
    requires r < m
    ensures (q * m + r) / m == q && (q * m + r) % m == r
  {
    var n := q * m + r;
    assert n == (n / m) * m + n % m;
    BlocksApart(n / m, q, m);
    BlocksApart(q, n / m, m);
  }

  /** Spanning a prefix is the same as being an aligned range of its size. */
  lemma SpansIffAligned(start: seq<bool>, end: seq<bool>, p: nat)
    requires |start| == |end| && p <= |start|
    ensures SpansPrefix(start, end, p) <==> AlignedRange(start, end, p)
  {
    var m, a, b := Pow2(|start| - p), Value(start[..p]), Value(end[..p]);
    var r, t := Value(start[p..]), Value(end[p..]);
    Split(start, p);
    Split(end, p);
    ValueOfConstant(start[p..]);
    ValueOfConstant(end[p..]);
    QuotientUnique(a, r, m);
    QuotientUnique(b, t, m);
    hide Value, All;
    if SpansPrefix(start, end, p) {
      assert AlignedRange(start, end, p);
    }
    if AlignedRange(start, end, p) {
      assert r == 0 && b * m + t == a * m + (m - 1);
      QuotientUnique(a, m - 1, m);
      assert t == m - 1 && b == a;
      ValueInjective(start[..p], end[..p]);
    }
  }

  /** The addresses from start to end are exactly those that share start's first p bits. */
  ghost predicate IsPrefixRange(start: seq<bool>, end: seq<bool>, p: nat)
    requires |start| == |end| && p <= |start|
  {
    forall addr: seq<bool> :: |addr| == |start| ==>
      (Value(start) <= Value(addr) <= Value(end) <==> addr[..p] == start[..p])
  }

  lemma SpansMeansRange(start: seq<bool>, end: seq<bool>, p: nat, addr: seq<bool>)
    requires |start| == |end| == |addr| && p <= |start| && SpansPrefix(start, end, p)
    ensures Value(start) <= Value(addr) <= Value(end) <==> addr[..p] == start[..p]
  {
    var m, a, c, r := Pow2(|start| - p), Value(start[..p]), Value(addr[..p]), Value(addr[p..]);
    Split(start, p);
    Split(end, p);
    Split(addr, p);
    ValueOfConstant(start[p..]);
    ValueOfConstant(end[p..]);
    hide Value, All, Pow2;
    SameBlock(a, c, r, m);
    if c == a {
      ValueInjective(addr[..p], start[..p]);
    }
  }

  lemma RangeMeansSpans(start: seq<bool>, end: seq<bool>, p: nat)
    requires |start| == |end| && p <= |start| && IsPrefixRange(start, end, p)
    ensures SpansPrefix(start, end, p)
  {
    var n := |start| - p;
    var low, high := start[..p] + seq(n, _ => false), start[..p] + seq(n, _ => true);
    assert low[..p] == start[..p] && high[..p] == start[..p];
    assert low[p..] == seq(n, _ => false) && high[p..] == seq(n, _ => true);
    assert Value(start) <= Value(start) <= Value(end);
    assert Value(start) <= Value(end) <= Value(end);
    ValueOfConstant(low[p..]);
    ValueOfConstant(high[p..]);
    Split(low, p);
    Split(high, p);
    Split(start, p);
    Split(end, p);
    hide Value;
    assert Value(low) == Value(start) && Value(high) == Value(end);
    ValueInjective(low, start);
    ValueInjective(high, end);
  }

  /** The three descriptions of a prefix range agree. */
  lemma PrefixRangeIff(start: seq<bool>, end: seq<bool>, p: nat)
    requires |start| == |end| && p <= |start|
    ensures IsPrefixRange(start, end, p) <==> AlignedRange(start, end, p)
  {
    SpansIffAligned(start, end, p);
    if SpansPrefix(start, end, p) {
      forall addr: seq<bool> | |addr| == |start|
        ensures Value(start) <= Value(addr) <= Value(end) <==> addr[..p] == start[..p]
      {
        SpansMeansRange(start, end, p, addr);
      }
    }
    if IsPrefixRange(start, end, p) {
      RangeMeansSpans(start, end, p);
    }
  }

  // ---------- The conversion ----------

  /** Byte-wise comparison: the first octet that differs decides. */
  predicate Greater(a: seq<bv8>, b: seq<bv8>)
    requires |a| == |b|
  {
    a != [] && (a[0] > b[0] || (a[0] == b[0] && Greater(a[1..], b[1..])))
  }

  /** The first bit in which two addresses differ, or their length. */
  method CommonBits(start: seq<bv8>, end: seq<bv8>) returns (p: nat)
    requires |start| == |end|
    ensures p <= 8 * |start| && Bits(start)[..p] == Bits(end)[..p]
    ensures p < 8 * |start| ==> Bits(start)[p] != Bits(end)[p]
    ensures p < 8 * |start| && Greater(start, end) ==> Bits(start)[p]
    ensures p == 8 * |start| ==> !Greater(start, end)
  {
    p := 8 * |start|;
    for i := 0 to |start|
      invariant start[..i] == end[..i] && p == 8 * |start|
    {
      var diff := start[i] ^ end[i];
      if diff == 0 {
        continue;
      }
      p := i * 8 + LeadingZeros(diff);
      DifferAt(start, end, i);
      return;
    }
    assert start == start[..|start|] == end[..|end|] == end;
    NotGreaterThanItself(start);
  }

  lemma {:induction false} NotGreaterThanItself(a: seq<bv8>)
    ensures !Greater(a, a)
  {
    if a != [] {
      NotGreaterThanItself(a[1..]);
    }
  }

  lemma BitsAt(ip: seq<bv8>, i: nat, j: nat)
    requires i < |ip| && j < 8
    ensures Bits(ip)[i * 8 + j] == OctetBit(ip[i], j)
  {
    assert (i * 8 + j) / 8 == i && (i * 8 + j) % 8 == j;
  }

  lemma CommonUpTo(a: seq<bv8>, b: seq<bv8>, i: nat, zeros: nat)
    requires |a| == |b| && i < |a| && a[..i] == b[..i] && zeros < 8
    requires forall j :: 0 <= j < zeros ==> OctetBit(a[i], j) == OctetBit(b[i], j)
    ensures Bits(a)[..i * 8 + zeros] == Bits(b)[..i * 8 + zeros]
  {
    hide OctetBit, Bits;
    forall k | 0 <= k < i * 8 + zeros
      ensures Bits(a)[k] == Bits(b)[k]
    {
      var q, j := k / 8, k % 8;
      assert k == q * 8 + j;
      BitsAt(a, q, j);
      BitsAt(b, q, j);
      if q < i {
        assert a[..i][q] == b[..i][q];
      }
    }
  }

  lemma XorZero(a: bv8, b: bv8)
    ensures a ^ b == 0 <==> a == b
  {
  }

  lemma DifferAtBit(start: seq<bv8>, end: seq<bv8>, i: nat, j: nat)
    requires |start| == |end| && i < |start| && start[..i] == end[..i] && start[i] != end[i] && j < 8
    requires OctetBit(start[i], j) != OctetBit(end[i], j) && (start[i] > end[i] ==> OctetBit(start[i], j))
    requires forall l :: 0 <= l < j ==> OctetBit(start[i], l) == OctetBit(end[i], l)
    ensures var p := i * 8 + j;
            && p < 8 * |start| && Bits(start)[..p] == Bits(end)[..p] && Bits(start)[p] != Bits(end)[p]
            && (Greater(start, end) ==> Bits(start)[p])
  {
    hide OctetBit, Bits, Greater;
    GreaterAt(start, end, i);
    BitsAt(start, i, j);
    BitsAt(end, i, j);
    CommonUpTo(start, end, i, j);
  }

  lemma DifferAt(start: seq<bv8>, end: seq<bv8>, i: nat)
    requires |start| == |end| && i < |start| && start[..i] == end[..i] && start[i] ^ end[i] != 0
    ensures var p := i * 8 + LeadingZeros(start[i] ^ end[i]);
            && p < 8 * |start| && Bits(start)[..p] == Bits(end)[..p] && Bits(start)[p] != Bits(end)[p]
            && (Greater(start, end) ==> Bits(start)[p])
  {
    hide OctetBit, LeadingZeros, Bits, Greater;
    var a, b := start[i], end[i];
    XorZero(a, b);
    FirstDifference(a, b);
    DifferAtBit(start, end, i, LeadingZeros(a ^ b));
  }

  lemma {:induction false} GreaterAt(a: seq<bv8>, b: seq<bv8>, i: nat)
    requires |a| == |b| && i < |a| && a[..i] == b[..i] && a[i] != b[i]
    ensures Greater(a, b) <==> a[i] > b[i]
  {
    if i > 0 {
      assert a[..i][0] == b[..i][0];
      assert a[1..][..i - 1] == a[..i][1..] && b[1..][..i - 1] == b[..i][1..];
      GreaterAt(a[1..], b[1..], i - 1);
    }
  }

  /**
   The prefix length of a range, when the range is a prefix: exactly then the size is a power of two
   and the start a multiple of it.
   */
  method SinglePrefixRange(start: seq<bv8>, end: seq<bv8>) returns (p: nat, ok: bool)
    ensures ok ==> |start| == |end| > 0 && p <= 8 * |start| && AlignedRange(Bits(start), Bits(end), p)
    ensures !ok && |start| == |end| > 0 ==> forall q :: 0 <= q <= 8 * |start| ==> !AlignedRange(Bits(start), Bits(end), q)
  {
    if |start| == 0 || |start| != |end| {
      return 0, false;
    }
    p := CommonBits(start, end);
    ghost var s, e := Bits(start), Bits(end);
    if Greater(start, end) {
      NoPrefix(s, e, p, p);
      return 0, false;
    }
    for bit := p to 8 * |start|
      invariant forall k :: p <= k < bit ==> !s[k] && e[k]
    {
      if Bit(start, bit) || !Bit(end, bit) {
        NoPrefix(s, e, p, bit);
        return 0, false;
      }
    }
    SpansIffAligned(s, e, p);
    return p, true;
  }

  /** A bit past the common ones that is not zero at the start or not one at the end rules out every prefix. */
  lemma NoPrefix(s: seq<bool>, e: seq<bool>, p: nat, bit: nat)
    requires |s| == |e| && p <= bit < |s| && s[..p] == e[..p] && s[p] != e[p] && (s[bit] || !e[bit])
    ensures forall q :: 0 <= q <= |s| ==> !AlignedRange(s, e, q)
  {
    forall q | 0 <= q <= |s|
      ensures !AlignedRange(s, e, q)
    {
      SpansIffAligned(s, e, q);
      if q <= bit {
        assert s[q..][bit - q] == s[bit] && e[q..][bit - q] == e[bit];
      } else {
        assert s[..q][p] == s[p] && e[..q][p] == e[p];
      }
    }
  }
}
