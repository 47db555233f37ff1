/**
 Cutting a text into chunks that fit one SMS part: the budgets of the encodings, the chunkers, and
 the optimality of greedy cutting.
 */
module Chunking {
  import opened Runes

  /** GSM 7-bit carries the characters of the selected locking and single shift tables. */
  datatype Encoding = Gsm7(locking: set<Rune>, shifted: set<Rune>) | Ucs2 | Utf8

  // ---------- Budgets ----------

  function PartLimit(enc: Encoding, udh: int): int {
    match enc
    case Gsm7(_, _) => if udh <= 0 then 160 else 160 - (udh * 8 + 6) / 7
    case Utf8 => if udh <= 0 then 140 else 140 - udh
    case Ucs2 => if udh <= 0 then 70 else (140 - udh) / 2
  }

  /** What one rune takes from the budget of a part: octets, UTF-16 units or septets. */
  function Weight(enc: Encoding, r: Rune): nat {
    match enc
    case Gsm7(locking, shifted) => if r !in locking && r in shifted then 2 else 1
    case Utf8 => |r|
    case Ucs2 => if |r| == 4 then 2 else 1
  }

  function Cost(enc: Encoding, rs: seq<Rune>): nat {
    if rs == [] then 0 else Weight(enc, rs[0]) + Cost(enc, rs[1..])
  }

  /** The length the estimate starts from; a text outside the GSM 7-bit tables is counted in runes. */
  function MessageLen(enc: Encoding, text: seq<byte>): nat {
    match enc
    case Gsm7(locking, shifted) =>
      var rs := Decode(text);
      if forall r <- rs :: r in locking || r in shifted then Cost(enc, rs) else |rs|
    case Utf8 => |text|
    case Ucs2 => Cost(enc, Decode(text))
  }

  function CeilDiv(a: nat, b: nat): nat
    requires b > 0
  {
    (a + b - 1) / b
  }

  // ---------- Greedy cutting ----------

  /** How many leading runes fit in a budget. */
  function Fit(enc: Encoding, rs: seq<Rune>, budget: int): (k: nat)
    ensures k <= |rs|
  {
    if rs == [] || Weight(enc, rs[0]) > budget then 0
    else 1 + Fit(enc, rs[1..], budget - Weight(enc, rs[0]))
  }

  /** How many runes a chunk takes: those that fit, and never none. */
  function Take(enc: Encoding, rs: seq<Rune>, limit: int): (k: nat)
    ensures k <= |rs| && (rs != [] ==> k > 0)
  {
    if rs == [] then 0 else if Fit(enc, rs, limit) == 0 then 1 else Fit(enc, rs, limit)
  }

  function Greedy(enc: Encoding, rs: seq<Rune>, limit: int): seq<seq<Rune>> {
    if rs == [] then []
    else var k := Take(enc, rs, limit); [rs[..k]] + Greedy(enc, rs[k..], limit)
  }

  /** How many runes fit in a budget, from a given one on. */
  function FitFrom(enc: Encoding, rs: seq<Rune>, k: nat, left: int): nat
    requires k <= |rs|
  {
    Fit(enc, rs[k..], left)
  }

  /** Advancing over one rune: either it fits what is left of the budget, or the fitting runes end here. */
  lemma FitStep(enc: Encoding, rs: seq<Rune>, k: nat, left: int)
    requires k < |rs|
    ensures Weight(enc, rs[k]) > left ==> FitFrom(enc, rs, k, left) == 0
    ensures Weight(enc, rs[k]) <= left ==>
              FitFrom(enc, rs, k, left) == 1 + FitFrom(enc, rs, k + 1, left - Weight(enc, rs[k]))
  {
    assert rs[k..][1..] == rs[k + 1..];
  }

  lemma FitEnds(enc: Encoding, rs: seq<Rune>, k: nat, left: int)
    requires k <= |rs|
    ensures k == 0 ==> FitFrom(enc, rs, k, left) == Fit(enc, rs, left)
    ensures k == |rs| || (left <= 0 && !enc.Utf8?) || left < 0 ==> FitFrom(enc, rs, k, left) == 0
  {
    assert rs[0..] == rs;
  }

  /** The chunk loop of the UCS-2 and GSM 7-bit encodings. */
  method TakeUnits(text: seq<byte>, enc: Encoding, limit: int) returns (chunk: seq<byte>, rest: seq<byte>)
    requires !enc.Utf8?
    ensures text == [] || limit <= 0 ==> chunk == [] && rest == text
    ensures text != [] && limit > 0 ==> IsCut(text, enc, limit, chunk, rest)
  {
    if text == [] || limit <= 0 {
      return [], text;
    }
    var used, pos := 0, 0;
    ghost var rs, k := Decode(text), 0;
    hide Decode, Start, IsCut, Fit, FitFrom;
    StartBounds(text, 0);
    FitEnds(enc, rs, 0, limit);
    while pos < |text|
      invariant k <= |rs| && pos == Start(text, k) <= |text|
      invariant (k == 0 <==> used == 0) && used < limit
      invariant Fit(enc, rs, limit) == k + FitFrom(enc, rs, k, limit - used)
    {
      var r := NextRune(text, pos, k);
      FitStep(enc, rs, k, limit - used);
      var units := Weight(enc, r);
      assert units > 0;
      if used > 0 && used + units > limit {
        break;
      }
      used, pos, k := used + units, pos + |r|, k + 1;
      if used >= limit {
        break;
      }
    }
    StartBounds(text, k);
    FitEnds(enc, rs, k, limit - used);
    CutAt(text, enc, limit, k);
    return text[..pos], text[pos..];
  }

  /** The chunk loop of the UTF-8 encoding: the last rune start within the limit. */
  method TakeOctets(text: seq<byte>, limit: int) returns (chunk: seq<byte>, rest: seq<byte>)
    ensures IsCut(text, Utf8, limit, chunk, rest)
  {
    ghost var rs, k := Decode(text), 0;
    hide Decode, Start, IsCut, Fit, FitFrom;
    StartBounds(text, |rs|);
    if |text| <= limit {
      WholeFits(text, limit);
      CutAt(text, Utf8, limit, |rs|);
      assert text[..|text|] == text && text[|text|..] == [];
      return text, [];
    }
    var i, pos := 0, 0;
    FitEnds(Utf8, rs, 0, limit);
    while pos < |text|
      invariant k <= |rs| && pos == Start(text, k) <= |text|
      invariant k > 0 ==> i == Start(text, k - 1) <= limit && 0 <= i < pos && (k > 1 ==> i > 0)
      invariant k == 0 ==> i == pos == 0
      invariant pos <= limit ==> Fit(Utf8, rs, limit) == k + FitFrom(Utf8, rs, k, limit - pos)
      invariant pos > limit && k > 0 ==> Fit(Utf8, rs, limit) == k - 1
    {
      if pos > limit {
        break;
      }
      var r := NextRune(text, pos, k);
      FitStep(Utf8, rs, k, limit - pos);
      i, pos, k := pos, pos + |r|, k + 1;
    }
    ghost var n := if k == 0 then 0 else k - 1;
    if i <= 0 && text != [] {
      var r := NextRune(text, 0, 0);
      i, n := |r|, 1;
      FitEnds(Utf8, rs, 0, limit);
      StartBounds(text, n);
    }
    StartBounds(text, 0);
    assert n == Take(Utf8, rs, limit);
    CutAt(text, Utf8, limit, n);
    return text[..i], text[i..];
  }

  /** The chunk is the greedy prefix of the text, in whole runes, and the rest is what follows it. */
  predicate IsCut(text: seq<byte>, enc: Encoding, limit: int, chunk: seq<byte>, rest: seq<byte>) {
    var rs, k := Decode(text), Take(enc, Decode(text), limit);
    chunk + rest == text && chunk == Join(rs[..k]) && Decode(chunk) == rs[..k] && Decode(rest) == rs[k..]
  }

  lemma CutAt(text: seq<byte>, enc: Encoding, limit: int, k: nat)
    requires k == Take(enc, Decode(text), limit)
    ensures Start(text, k) <= |text| && IsCut(text, enc, limit, text[..Start(text, k)], text[Start(text, k)..])
  {
    var rs := Decode(text);
    hide Decode, Take, Join;
    assert rs == rs[..k] + rs[k..];
    DecodeCut(text, rs[..k], rs[k..]);
    assert text[..Start(text, k)] == Join(rs[..k]) && text[Start(text, k)..] == Join(rs[k..]);
  }

  lemma WholeFits(text: seq<byte>, limit: int)
    requires |text| <= limit
    ensures Take(Utf8, Decode(text), limit) == |Decode(text)|
  {
    JoinDecode(text);
    FitAll(Decode(text), limit);
  }

  lemma {:induction false} FitAll(rs: seq<Rune>, limit: int)
    requires |Join(rs)| <= limit
    ensures Fit(Utf8, rs, limit) == |rs|
  {
    if rs != [] {
      FitAll(rs[1..], limit - |rs[0]|);
    }
  }

  // ---------- Greedy cutting is optimal ----------

  /** A split into pieces of whole runes, each within the limit. */
  predicate IsSplit(enc: Encoding, rs: seq<Rune>, limit: int, pieces: seq<seq<Rune>>) {
    Flatten(pieces) == rs && forall p <- pieces :: Cost(enc, p) <= limit
  }

  /** The smallest number of parts that any split can reach. */
  ghost predicate FewestParts(enc: Encoding, rs: seq<Rune>, limit: int, n: nat) {
    && (exists pieces :: IsSplit(enc, rs, limit, pieces) && |pieces| == n)
    && (forall pieces :: IsSplit(enc, rs, limit, pieces) ==> n <= |pieces|)
  }

  /** Every rune has a weight, and none is too heavy for a part. */
  predicate Splittable(enc: Encoding, rs: seq<Rune>, limit: int) {
    forall r <- rs :: 1 <= Weight(enc, r) <= limit
  }

  lemma {:induction false} FitMaximal(enc: Encoding, a: seq<Rune>, b: seq<Rune>, budget: int)
    ensures Cost(enc, a) <= budget ==> |a| <= Fit(enc, a + b, budget)
  {
    if a != [] && Cost(enc, a) <= budget {
      assert (a + b)[1..] == a[1..] + b;
      FitMaximal(enc, a[1..], b, budget - Weight(enc, a[0]));
    }
  }

  lemma {:induction false} FitCost(enc: Encoding, rs: seq<Rune>, budget: int)
    requires budget >= 0
    ensures Cost(enc, rs[..Fit(enc, rs, budget)]) <= budget
  {
    var k := Fit(enc, rs, budget);
    if k > 0 {
      FitCost(enc, rs[1..], budget - Weight(enc, rs[0]));
      assert rs[..k][1..] == rs[1..][..k - 1];
    }
  }

  lemma SplitPrepend(enc: Encoding, first: seq<Rune>, rs: seq<Rune>, limit: int, pieces: seq<seq<Rune>>)
    requires Cost(enc, first) <= limit && IsSplit(enc, rs, limit, pieces)
    ensures IsSplit(enc, first + rs, limit, [first] + pieces)
  {
    assert ([first] + pieces)[1..] == pieces;
  }

  lemma {:induction false} GreedyIsSplit(enc: Encoding, rs: seq<Rune>, limit: int)
    requires limit >= 0 && Splittable(enc, rs, limit)
    ensures IsSplit(enc, rs, limit, Greedy(enc, rs, limit))
  {
    if rs != [] {
      var k := Take(enc, rs, limit);
      FitCost(enc, rs, limit);
      GreedyIsSplit(enc, rs[k..], limit);
      SplitPrepend(enc, rs[..k], rs[k..], limit, Greedy(enc, rs[k..], limit));
      assert rs == rs[..k] + rs[k..];
    }
  }

  /** The chunk taken after dropping some leading runes ends no earlier than the chunk taken before. */
  lemma {:induction false} FitAfterDrop(enc: Encoding, rs: seq<Rune>, p: nat, budget: int)
    requires p <= Fit(enc, rs, budget)
    ensures Fit(enc, rs, budget) <= p + Fit(enc, rs[p..], budget)
  {
    if p == 0 {
      assert rs[0..] == rs;
    } else {
      FitAfterDrop(enc, rs[1..], p - 1, budget - Weight(enc, rs[0]));
      assert rs[1..][p - 1..] == rs[p..];
      FitMonotone(enc, rs[p..], budget - Weight(enc, rs[0]), budget);
    }
  }

  lemma {:induction false} FitMonotone(enc: Encoding, rs: seq<Rune>, low: int, high: int)
    requires low <= high
    ensures Fit(enc, rs, low) <= Fit(enc, rs, high)
  {
    if Fit(enc, rs, low) > 0 {
      FitMonotone(enc, rs[1..], low - Weight(enc, rs[0]), high - Weight(enc, rs[0]));
    }
  }

  lemma {:induction false} GreedyAfterDrop(enc: Encoding, rs: seq<Rune>, p: nat, limit: int)
    requires p <= |rs| && Splittable(enc, rs, limit)
    ensures |Greedy(enc, rs[p..], limit)| <= |Greedy(enc, rs, limit)|
    decreases |rs| - p, |rs|
  {
    hide Weight, Fit;
    if p == 0 {
      assert rs[0..] == rs;
    } else if p < |rs| {
      var k := Take(enc, rs, limit);
      if k <= p {
        assert rs[k..][p - k..] == rs[p..];
        GreedyAfterDrop(enc, rs[k..], p - k, limit);
      } else {
        FitAfterDrop(enc, rs, p, limit);
        var e := Take(enc, rs[p..], limit);
        assert rs[p..][e..] == rs[k..][p + e - k..];
        GreedyAfterDrop(enc, rs[k..], p + e - k, limit);
      }
    }
  }

  /** No split into whole runes within the limit has fewer parts than the greedy one. */
  lemma {:induction false} GreedyIsFewest(enc: Encoding, rs: seq<Rune>, limit: int, pieces: seq<seq<Rune>>)
    requires Splittable(enc, rs, limit) && IsSplit(enc, rs, limit, pieces)
    ensures |Greedy(enc, rs, limit)| <= |pieces|
    decreases |pieces|
  {
    hide Weight, Fit, Cost;
    if pieces != [] && rs != [] {
      var first, k := pieces[0], Take(enc, rs, limit);
      FitMaximal(enc, first, Flatten(pieces[1..]), limit);
      var after := rs[|first|..];
      assert after == Flatten(pieces[1..]);
      GreedyIsFewest(enc, after, limit, pieces[1..]);
      assert after[k - |first|..] == rs[k..];
      GreedyAfterDrop(enc, after, k - |first|, limit);
    }
  }

  lemma GreedyReachesFewest(enc: Encoding, rs: seq<Rune>, limit: int)
    requires limit >= 0 && Splittable(enc, rs, limit)
    ensures FewestParts(enc, rs, limit, |Greedy(enc, rs, limit)|)
  {
    GreedyIsSplit(enc, rs, limit);
    forall pieces | IsSplit(enc, rs, limit, pieces)
      ensures |Greedy(enc, rs, limit)| <= |pieces|
    {
      GreedyIsFewest(enc, rs, limit, pieces);
    }
  }

  lemma {:induction false} CostAppend(enc: Encoding, a: seq<Rune>, b: seq<Rune>)
    ensures Cost(enc, a + b) == Cost(enc, a) + Cost(enc, b)
  {
    if a == [] {
      assert a + b == b;
    } else {
      assert (a + b)[1..] == a[1..] + b;
      CostAppend(enc, a[1..], b);
    }
  }

  lemma OneMore(n: int, limit: int)
    ensures (n + 1) * limit == n * limit + limit
  {
  }

  /** Parts of a split hold at most their limit, so a text needs at least its cost over the limit. */
  lemma {:induction false} SplitCost(enc: Encoding, pieces: seq<seq<Rune>>, limit: int)
    requires forall p <- pieces :: Cost(enc, p) <= limit
    ensures Cost(enc, Flatten(pieces)) <= |pieces| * limit
  {
    if pieces != [] {
      var rest := pieces[1..];
      SplitCost(enc, rest, limit);
      CostAppend(enc, pieces[0], Flatten(rest));
      OneMore(|rest|, limit);
    }
  }

  lemma {:induction false} CostBounds(enc: Encoding, rs: seq<Rune>)
    requires forall r <- rs :: |r| >= 1
    ensures |rs| <= Cost(enc, rs)
    ensures Cost(Utf8, rs) == |Join(rs)|
  {
    if rs != [] {
      CostBounds(enc, rs[1..]);
    }
  }

  // ---------- What a part occupies on the wire ----------

  /** The octets of user data for a header and a payload; septets start on a septet boundary after the header. */
  function WireOctets(enc: Encoding, udh: nat, cost: nat): nat {
    match enc
    case Gsm7(_, _) => (((udh * 8 + 6) / 7 + cost) * 7 + 7) / 8
    case Utf8 => udh + cost
    case Ucs2 => udh + 2 * cost
  }

  /** The limit is exactly the largest payload that fits 140 octets together with its header. */
  lemma LimitIsExact(enc: Encoding, udh: nat, cost: nat)
    requires udh <= 140
    ensures WireOctets(enc, udh, cost) <= 140 <==> cost <= PartLimit(enc, udh)
  {
  }
}
