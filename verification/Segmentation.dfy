/**
 Cutting a text into numbered SMS parts: the estimate of the number of parts, the cutting loop that
 builds each header against that estimate, and the second pass that renumbers the total.
 */
module Segmentation {
  import opened Wrappers
  import opened Runes
  import opened Chunking
  import Udh

  datatype Options = Options(ref: int, refBits: int, destPort: int, sourcePort: int, portBits: int, single: int, locking: int)

  datatype Part = Part(partNo: int, total: int, text: seq<byte>, udh: seq<byte>, ref: int, refBits: int)

  /** The options once validated, with the concatenation reference settled. */
  datatype Setup = Setup(enc: Encoding, single: int, locking: int, ports: Udh.Ports, ref: int, bits: int)
  {
    predicate Valid() {
      Udh.LanguageAccepted(single) && Udh.LanguageAccepted(locking) && Udh.PortsInRange(ports)
      && (bits == 8 || bits == 16) && 0 <= ref < (if bits == 8 then 256 else 65536)
    }

    function SingleLimit(): int {
      PartLimit(enc, Udh.Length(single, locking, ports, None))
    }

    function Limit(): int {
      PartLimit(enc, Udh.Length(single, locking, ports, Some(bits)))
    }

    function Header(total: int, partNo: int): Udh.Header {
      Udh.Header(single, locking, ports, Udh.Concat(ref, bits, total, partNo))
    }

    function HeaderBytes(total: int, partNo: int): seq<byte>
      requires Valid()
    {
      match Udh.Build(Header(total, partNo))
      case Ok(bytes) => bytes
      case Err(_) => []
    }

    function Numbered(chunks: seq<seq<Rune>>): (ps: seq<Part>)
      requires Valid()
      ensures |ps| == |chunks|
    {
      seq(|chunks|, i requires 0 <= i < |chunks| =>
        Part(i + 1, |chunks|, Join(chunks[i]), HeaderBytes(|chunks|, i + 1), ref, bits))
    }
  }

  /** A reference drawn from the process-wide counter when the options give none. */
  function ReferenceFor(ref: int, bits: int, counter: nat): int {
    if ref != 0 then ref else counter % (if bits == 16 then 0xffff else 0xff) + 1
  }

  /** The languages and ports that the options ask for. */
  function SetupSingle(enc: Encoding, opts: Options): (r: Result<Setup, Udh.Error>)
    ensures r.Ok? ==> r.value.Valid() && r.value.enc == enc
  {
    if !Udh.LanguageAccepted(opts.single) || !Udh.LanguageAccepted(opts.locking) then Err(Udh.UnknownLanguage)
    else
      var ports :- Udh.ValidatePorts(opts.destPort, opts.sourcePort, opts.portBits);
      Ok(Setup(enc, opts.single, opts.locking, ports, 0, 8))
  }

  function SetupConcat(s: Setup, opts: Options, counter: nat): (r: Result<Setup, Udh.Error>)
    requires s.Valid()
    ensures r.Ok? ==> r.value.Valid() && r.value == s.(ref := r.value.ref, bits := r.value.bits)
  {
    var bits :- Udh.ValidateConcat(opts.ref, opts.refBits);
    Ok(s.(ref := ReferenceFor(opts.ref, bits, counter), bits := bits))
  }

  /** The outcome of segmentation in terms of the greedy cut. */
  function Segmented(text: seq<byte>, enc: Encoding, opts: Options, counter: nat): Result<seq<Part>, Udh.Error> {
    if text == [] then Ok([])
    else
      var single :- SetupSingle(enc, opts);
      if MessageLen(enc, text) <= single.SingleLimit() then Ok([Part(1, 1, text, single.HeaderBytes(1, 1), 0, 0)])
      else
        var s :- SetupConcat(single, opts, counter);
        LongOutcome(text, s)
  }

  function LongOutcome(text: seq<byte>, s: Setup): Result<seq<Part>, Udh.Error>
    requires s.Valid()
  {
    if s.Limit() <= 0 then Err(Udh.NoRoom)
    else
      var total := CeilDiv(MessageLen(s.enc, text), s.Limit());
      var chunks := Greedy(s.enc, Decode(text), s.Limit());
      if total > 255 then Err(Udh.TooManyParts)
      else if |chunks| > total then Err(Udh.PartOutOfRange)
      else Ok(s.Numbered(chunks))
  }

  // ---------- The two passes ----------

  lemma LimitBounds(s: Setup)
    ensures 4 <= s.Limit() <= s.SingleLimit()
  {
  }

  /** A text over the limit is estimated at two parts or more. */
  lemma EstimateBounds(len: nat, limit: nat)
    requires 0 < limit
    ensures len > limit ==> CeilDiv(len, limit) >= 2
  {
  }

  /** Builds a part's header; the part number must not exceed the total it is built for. */
  method BuildUdh(s: Setup, total: int, partNo: int) returns (udh: Option<seq<byte>>)
    requires s.Valid() && 2 <= total <= 255 && 1 <= partNo
    ensures udh.Some? <==> partNo <= total
    ensures udh.Some? ==> udh.value == s.HeaderBytes(total, partNo)
  {
    Udh.LengthIsExact(s.Header(total, partNo));
    var built := Udh.Build(s.Header(total, partNo));
    udh := if built.Ok? then Some(built.value) else None;
  }

  /** The parts are the chunks, numbered from one; their totals and headers are still to be settled. */
  ghost predicate CutInto(parts: seq<Part>, chunks: seq<seq<Rune>>, s: Setup) {
    && |parts| == |chunks|
    && forall i :: 0 <= i < |parts| ==>
         parts[i].partNo == i + 1 && parts[i].text == Join(chunks[i]) && parts[i].ref == s.ref && parts[i].refBits == s.bits
  }

  method TakeChunk(text: seq<byte>, enc: Encoding, limit: int) returns (chunk: seq<byte>, rest: seq<byte>)
    ensures enc.Utf8? || (text != [] && limit > 0) ==> IsCut(text, enc, limit, chunk, rest)
    ensures !enc.Utf8? && (text == [] || limit <= 0) ==> chunk == [] && rest == text
  {
    if enc.Utf8? {
      chunk, rest := TakeOctets(text, limit);
    } else {
      chunk, rest := TakeUnits(text, enc, limit);
    }
  }

  lemma GreedyStep(text: seq<byte>, enc: Encoding, limit: int, chunk: seq<byte>, rest: seq<byte>) returns (first: seq<Rune>)
    requires text != [] && IsCut(text, enc, limit, chunk, rest)
    ensures chunk == Join(first) && |rest| < |text|
    ensures Greedy(enc, Decode(text), limit) == [first] + Greedy(enc, Decode(rest), limit)
  {
    first := Decode(text)[..Take(enc, Decode(text), limit)];
    assert |rest| < |text| by {
      assert Decode(chunk) != [];
      assert |chunk| + |rest| == |text|;
    }
  }

  /** One turn of the first pass: cuts the next chunk and builds its header against the estimated total. */
  method CutOne(text: seq<byte>, s: Setup, total: int, partNo: int)
    returns (part: Option<Part>, rest: seq<byte>, ghost first: seq<Rune>)
    requires s.Valid() && s.Limit() > 0 && 2 <= total <= 255 && 1 <= partNo && text != []
    ensures part.Some? <==> partNo <= total
    ensures part.Some? ==> part.value.partNo == partNo && CutInto([part.value.(partNo := 1)], [first], s)
    ensures |rest| < |text| && Greedy(s.enc, Decode(text), s.Limit()) == [first] + Greedy(s.enc, Decode(rest), s.Limit())
  {
    var chunk;
    chunk, rest := TakeChunk(text, s.enc, s.Limit());
    first := GreedyStep(text, s.enc, s.Limit(), chunk, rest);
    var udh := BuildUdh(s, total, partNo);
    part := if udh.None? then None else Some(Part(partNo, total, chunk, udh.value, s.ref, s.bits));
  }

  /** The first pass fails as soon as the greedy cut needs more parts than the estimate. */
  method CutParts(text: seq<byte>, s: Setup, total: int) returns (r: Option<seq<Part>>)
    requires s.Valid() && s.Limit() > 0 && 2 <= total <= 255
    ensures r.Some? <==> |Greedy(s.enc, Decode(text), s.Limit())| <= total
    ensures r.Some? ==> CutInto(r.value, Greedy(s.enc, Decode(text), s.Limit()), s)
  {
    var out: seq<Part>, remaining, partNo := [], text, 1;
    ghost var all, done := Greedy(s.enc, Decode(text), s.Limit()), [];
    while remaining != []
      invariant all == done + Greedy(s.enc, Decode(remaining), s.Limit())
      invariant CutInto(out, done, s) && partNo == |done| + 1 <= total + 1
      decreases |remaining|
    {
      var part, rest, first := CutOne(remaining, s, total, partNo);
      if part.None? {
        return None;
      }
      out := out + [part.value];
      done := done + [first];
      remaining, partNo := rest, partNo + 1;
    }
    assert done + [] == done;
    return Some(out);
  }

  /** The second pass: rewrites every part's total and header for the number of parts actually cut. */
  method RenumberTotal(parts: seq<Part>, s: Setup, ghost chunks: seq<seq<Rune>>) returns (out: seq<Part>)
    requires s.Valid() && 2 <= |parts| <= 255 && CutInto(parts, chunks, s)
    ensures out == s.Numbered(chunks)
  {
    out := parts;
    for i := 0 to |out|
      invariant |out| == |parts| && CutInto(out, chunks, s)
      invariant forall j :: 0 <= j < i ==> out[j].total == |out| && out[j].udh == s.HeaderBytes(|out|, j + 1)
    {
      var udh := BuildUdh(s, |out|, out[i].partNo);
      out := out[i := out[i].(total := |out|, udh := udh.value)];
    }
    Settled(out, s, chunks);
  }

  lemma Settled(out: seq<Part>, s: Setup, chunks: seq<seq<Rune>>)
    requires s.Valid() && CutInto(out, chunks, s)
    requires forall j :: 0 <= j < |out| ==> out[j].total == |out| && out[j].udh == s.HeaderBytes(|out|, j + 1)
    ensures out == s.Numbered(chunks)
  {
  }

  /** Both passes, for a text that does not fit one part. */
  method SegmentLong(text: seq<byte>, s: Setup) returns (r: Result<seq<Part>, Udh.Error>)
    requires s.Valid() && MessageLen(s.enc, text) > s.SingleLimit()
    ensures r == LongOutcome(text, s)
  {
    var limit, length := s.Limit(), MessageLen(s.enc, text);
    if limit <= 0 {
      return Err(Udh.NoRoom);
    }
    var total := CeilDiv(length, limit);
    if total > 255 {
      return Err(Udh.TooManyParts);
    }
    LimitBounds(s);
    EstimateBounds(length, limit);
    var cut := CutParts(text, s, total);
    if cut.None? {
      return Err(Udh.PartOutOfRange);
    }
    AtLeastEstimate(text, s.enc, limit);
    var out := RenumberTotal(cut.value, s, Greedy(s.enc, Decode(text), limit));
    return Ok(out);
  }

  /** Segmentation of a text under the given options. */
  method Segment(text: seq<byte>, enc: Encoding, opts: Options, counter: nat) returns (r: Result<seq<Part>, Udh.Error>)
    ensures r == Segmented(text, enc, opts, counter)
  {
    if text == [] {
      return Ok([]);
    }
    var single :- SetupSingle(enc, opts);
    if MessageLen(enc, text) <= single.SingleLimit() {
      return Ok([Part(1, 1, text, single.HeaderBytes(1, 1), 0, 0)]);
    }
    var s :- SetupConcat(single, opts, counter);
    r := SegmentLong(text, s);
  }

  // ---------- When it succeeds ----------

  lemma RunesFit(text: seq<byte>, enc: Encoding, limit: int)
    requires limit >= 4
    ensures Splittable(enc, Decode(text), limit)
  {
    DecodedWidths(text);
  }

  lemma CeilDivBounds(a: nat, b: nat)
    requires b > 0
    ensures CeilDiv(a, b) * b < a + b <= CeilDiv(a, b) * b + b
  {
    var x := a + b - 1;
    assert x == b * (x / b) + x % b;
  }

  lemma Grows(m: int, n: int, b: nat)
    requires m <= n
    ensures m * b <= n * b
  {
    assert (n - m) * b >= 0;
  }

  lemma CeilDivLeast(a: nat, b: nat, n: nat)
    requires b > 0
    ensures CeilDiv(a, b) <= n <==> a <= n * b
  {
    hide *;
    var c := CeilDiv(a, b);
    CeilDivBounds(a, b);
    if n < c {
      Grows(n, c - 1, b);
      OneMore(c - 1, b);
    } else {
      Grows(c, n, b);
    }
  }

  /** The estimate never exceeds the number of parts that greedy cutting takes. */
  lemma AtLeastEstimate(text: seq<byte>, enc: Encoding, limit: int)
    requires limit >= 4
    ensures CeilDiv(MessageLen(enc, text), limit) <= |Greedy(enc, Decode(text), limit)|
  {
    var rs := Decode(text);
    RunesFit(text, enc, limit);
    GreedyIsSplit(enc, rs, limit);
    SplitCost(enc, Greedy(enc, rs, limit), limit);
    DecodedWidths(text);
    CostBounds(enc, rs);
    JoinDecode(text);
    CeilDivLeast(MessageLen(enc, text), limit, |Greedy(enc, rs, limit)|);
  }

  /** A text and options that reach the cutting loop, and the settled options. */
  predicate Long(text: seq<byte>, enc: Encoding, opts: Options, counter: nat, s: Setup) {
    && text != [] && SetupSingle(enc, opts).Ok?
    && MessageLen(enc, text) > SetupSingle(enc, opts).value.SingleLimit()
    && SetupConcat(SetupSingle(enc, opts).value, opts, counter) == Ok(s)
  }

  lemma LongIsLong(text: seq<byte>, enc: Encoding, opts: Options, counter: nat, s: Setup)
    requires Long(text, enc, opts, counter, s)
    ensures s.Valid() && s.enc == enc && MessageLen(enc, text) > s.SingleLimit()
    ensures Segmented(text, enc, opts, counter) == LongOutcome(text, s)
  {
    hide MessageLen, LongOutcome;
  }

  /**
   A text longer than one part is accepted exactly when the fewest parts that any split into whole
   characters can reach is the estimate, and that is at most 255.
   */
  lemma SucceedsIffEstimateIsReached(text: seq<byte>, enc: Encoding, opts: Options, counter: nat, s: Setup, n: nat)
    requires Long(text, enc, opts, counter, s)
    requires FewestParts(enc, Decode(text), s.Limit(), n)
    ensures s.Limit() > 0
    ensures Segmented(text, enc, opts, counter).Ok? <==> n == CeilDiv(MessageLen(enc, text), s.Limit()) && n <= 255
  {
    LongIsLong(text, enc, opts, counter, s);
    hide Setup.Limit, MessageLen, Decode, Segmented, Long, Setup.HeaderBytes;
    LimitBounds(s);
    RunesFit(text, enc, s.Limit());
    GreedyReachesFewest(enc, Decode(text), s.Limit());
    AtLeastEstimate(text, enc, s.Limit());
    assert n == |Greedy(enc, Decode(text), s.Limit())|;
  }

  // ---------- What the parts carry ----------

  function Contents(parts: seq<Part>): seq<byte> {
    if parts == [] then [] else parts[0].text + Contents(parts[1..])
  }

  lemma {:induction false} ContentsOfChunks(parts: seq<Part>, chunks: seq<seq<Rune>>)
    requires |parts| == |chunks| && forall i :: 0 <= i < |parts| ==> parts[i].text == Join(chunks[i])
    ensures Contents(parts) == Join(Flatten(chunks))
  {
    if parts != [] {
      ContentsOfChunks(parts[1..], chunks[1..]);
      JoinAppend(chunks[0], Flatten(chunks[1..]));
    }
  }

  lemma {:induction false} ChunksDecode(text: seq<byte>, chunks: seq<seq<Rune>>)
    requires Decode(text) == Flatten(chunks)
    ensures forall i :: 0 <= i < |chunks| ==> Decode(Join(chunks[i])) == chunks[i]
    decreases |chunks|
  {
    if chunks != [] {
      DecodeCut(text, chunks[0], Flatten(chunks[1..]));
      ChunksDecode(Join(Flatten(chunks[1..])), chunks[1..]);
    }
  }

  lemma SettledHeader(s: Setup, total: int, partNo: int)
    requires s.Valid() && 1 <= partNo <= total && 2 <= total <= 255
    ensures var udh := s.HeaderBytes(total, partNo);
            Udh.Read(udh) == s.Header(total, partNo)
            && |udh| == Udh.Length(s.single, s.locking, s.ports, Some(s.bits)) <= 19
  {
    Udh.LengthIsExact(s.Header(total, partNo));
    Udh.ReadUndoesBuild(s.Header(total, partNo));
  }

  /** One part of a segmentation: its number, its characters, its size on the wire, and what its header reads as. */
  ghost predicate WellFormedPart(p: Part, s: Setup, total: int, partNo: int) {
    && p.partNo == partNo && p.total == total && p.ref == s.ref && p.refBits == s.bits
    && Cost(s.enc, Decode(p.text)) <= s.Limit()
    && WireOctets(s.enc, |p.udh|, Cost(s.enc, Decode(p.text))) <= 140
    && Udh.Read(p.udh) == s.Header(total, partNo)
  }

  lemma LimitOf(s: Setup)
    ensures s.Limit() == PartLimit(s.enc, Udh.Length(s.single, s.locking, s.ports, Some(s.bits)))
  {
  }

  lemma NumberedIsWellFormed(s: Setup, chunks: seq<seq<Rune>>, i: nat)
    requires s.Valid() && 2 <= |chunks| <= 255 && i < |chunks|
    requires Decode(Join(chunks[i])) == chunks[i] && Cost(s.enc, chunks[i]) <= s.Limit()
    ensures WellFormedPart(s.Numbered(chunks)[i], s, |chunks|, i + 1)
  {
    hide Udh.Read, Cost, WireOctets, PartLimit, Decode, Join, Udh.Length, Setup.HeaderBytes, Setup.Limit;
    SettledHeader(s, |chunks|, i + 1);
    LimitOf(s);
    LimitIsExact(s.enc, Udh.Length(s.single, s.locking, s.ports, Some(s.bits)), Cost(s.enc, chunks[i]));
  }

  /**
   An accepted long text is carried whole: the parts are the fewest possible, numbered 1 to n of n,
   each fits 140 octets with its header, and their texts in order are the text.
   */
  lemma PartsCarryTheText(text: seq<byte>, enc: Encoding, opts: Options, counter: nat, s: Setup, parts: seq<Part>)
    requires Long(text, enc, opts, counter, s) && Segmented(text, enc, opts, counter) == Ok(parts)
    ensures 2 <= |parts| <= 255 && FewestParts(enc, Decode(text), s.Limit(), |parts|)
    ensures forall i :: 0 <= i < |parts| ==> WellFormedPart(parts[i], s, |parts|, i + 1)
    ensures Contents(parts) == text
  {
    LongIsLong(text, enc, opts, counter, s);
    hide Setup.Limit, Setup.SingleLimit, MessageLen, Decode, Setup.HeaderBytes, WellFormedPart, Segmented, Long;
    var limit := s.Limit();
    var chunks := Greedy(enc, Decode(text), limit);
    LimitBounds(s);
    EstimateBounds(MessageLen(enc, text), limit);
    AtLeastEstimate(text, enc, limit);
    RunesFit(text, enc, limit);
    GreedyReachesFewest(enc, Decode(text), limit);
    GreedyIsSplit(enc, Decode(text), limit);
    ChunksDecode(text, chunks);
    ContentsOfChunks(parts, chunks);
    JoinDecode(text);
    forall i | 0 <= i < |parts|
      ensures WellFormedPart(parts[i], s, |parts|, i + 1)
    {
      NumberedIsWellFormed(s, chunks, i);
    }
  }

  // ---------- The texts it rejects ----------

  const PLAIN := Options(1, 8, 0, 0, 0, 0, 0)

  function Emojis(n: nat): seq<byte> {
    if n == 0 then [] else [0xF0, 0x9F, 0x98, 0x80] + Emojis(n - 1)
  }

  predicate AllWide(rs: seq<Rune>) {
    forall i :: 0 <= i < |rs| ==> |rs[i]| == 4
  }

  lemma {:induction false} EmojisDecode(n: nat)
    ensures |Decode(Emojis(n))| == n && AllWide(Decode(Emojis(n)))
  {
    if n > 0 {
      EmojisDecode(n - 1);
      var s := Emojis(n);
      assert RuneLen(s) == 4 && s[4..] == Emojis(n - 1);
    }
  }

  lemma {:induction false} WideCost(rs: seq<Rune>)
    requires AllWide(rs)
    ensures Cost(Ucs2, rs) == 2 * |rs|
  {
    if rs != [] {
      WideCost(rs[1..]);
    }
  }

  /** A part of an odd number of units holds one unit less of two-unit characters. */
  lemma {:induction false} WidePieces(pieces: seq<seq<Rune>>, half: int)
    requires AllWide(Flatten(pieces)) && forall p <- pieces :: Cost(Ucs2, p) <= 2 * half + 1
    ensures |Flatten(pieces)| <= |pieces| * half
  {
    if pieces != [] {
      var first, rest := pieces[0], pieces[1..];
      assert Flatten(pieces)[..|first|] == first && Flatten(pieces)[|first|..] == Flatten(rest);
      WidePieces(rest, half);
      WideCost(first);
      OneMore(|rest|, half);
    }
  }

  /**
   A text that three parts would carry and that is rejected: 67 characters outside the Basic
   Multilingual Plane are estimated at two parts of 67 UTF-16 units, but a part holds only 33 of them.
   */
  lemma EmojiTextIsRejected()
    ensures Segmented(Emojis(67), Ucs2, PLAIN, 0) == Err(Udh.PartOutOfRange)
    ensures FewestParts(Ucs2, Decode(Emojis(67)), 67, 3)
  {
    var text, s := Emojis(67), Setup(Ucs2, 0, 0, Udh.NoPorts, 1, 8);
    var rs := Decode(text);
    EmojisDecode(67);
    WideCost(rs);
    RunesFit(text, Ucs2, 67);
    GreedyIsSplit(Ucs2, rs, 67);
    WidePieces(Greedy(Ucs2, rs, 67), 33);
    GreedyReachesFewest(Ucs2, rs, 67);
    ThreePieces(rs);
    RejectedWhenOver(text, s);
  }

  lemma FlattenThree(a: seq<Rune>, b: seq<Rune>, c: seq<Rune>)
    ensures Flatten([a, b, c]) == a + (b + c)
  {
    var one: seq<seq<Rune>> := [c];
    assert one[1..] == [] && Flatten(one) == c;
    assert [b, c][1..] == one && [a, b, c][1..] == [b, c];
  }

  lemma ThreePieces(rs: seq<Rune>)
    requires AllWide(rs) && |rs| == 67 && Splittable(Ucs2, rs, 67)
    ensures |Greedy(Ucs2, rs, 67)| <= 3
  {
    hide Greedy, Cost;
    var pieces: seq<seq<Rune>> := [rs[..33], rs[33..66], rs[66..]];
    WideCost(pieces[0]);
    WideCost(pieces[1]);
    WideCost(pieces[2]);
    FlattenThree(rs[..33], rs[33..66], rs[66..]);
    assert rs[..33] + (rs[33..66] + rs[66..]) == rs;
    GreedyIsFewest(Ucs2, rs, 67, pieces);
  }

  lemma RejectedWhenOver(text: seq<byte>, s: Setup)
    requires s == Setup(Ucs2, 0, 0, Udh.NoPorts, 1, 8) && text != [] && MessageLen(Ucs2, text) == 134
    requires |Greedy(Ucs2, Decode(text), 67)| > 2
    ensures Segmented(text, Ucs2, PLAIN, 0) == Err(Udh.PartOutOfRange)
  {
    assert SetupSingle(Ucs2, PLAIN) == Ok(s.(ref := 0));
    assert SetupConcat(s.(ref := 0), PLAIN, 0) == Ok(s);
    assert s.Limit() == 67 && s.(ref := 0).SingleLimit() == 70;
    assert CeilDiv(134, 67) == 2;
  }

  lemma CeilDivStep(n: nat, limit: nat)
    requires 0 < limit
    ensures n == 0 ==> CeilDiv(n, limit) == 0
    ensures 0 < n <= limit ==> CeilDiv(n, limit) == 1
    ensures n > limit ==> CeilDiv(n, limit) == 1 + CeilDiv(n - limit, limit)
  {
    if n > limit {
      CeilDivLeast(n, limit, 1 + CeilDiv(n - limit, limit));
      CeilDivLeast(n - limit, limit, CeilDiv(n - limit, limit));
      CeilDivLeast(n - limit, limit, CeilDiv(n, limit) - 1);
      CeilDivLeast(n, limit, CeilDiv(n, limit));
      OneMore(CeilDiv(n - limit, limit), limit);
      OneMore(CeilDiv(n, limit) - 1, limit);
    } else {
      CeilDivLeast(n, limit, 1);
      CeilDivLeast(n, limit, 0);
    }
  }

  lemma {:induction false} UnitGreedy(enc: Encoding, rs: seq<Rune>, limit: nat)
    requires limit > 0 && forall r <- rs :: Weight(enc, r) == 1
    ensures |Greedy(enc, rs, limit)| == CeilDiv(|rs|, limit)
  {
    CeilDivStep(|rs|, limit);
    if rs != [] {
      UnitFit(enc, rs, limit);
      UnitGreedy(enc, rs[Take(enc, rs, limit)..], limit);
      CeilDivStep(0, limit);
    }
  }

  lemma {:induction false} UnitFit(enc: Encoding, rs: seq<Rune>, limit: nat)
    requires forall r <- rs :: Weight(enc, r) == 1
    ensures Fit(enc, rs, limit) == (if |rs| <= limit then |rs| else limit) && Cost(enc, rs) == |rs|
  {
    if rs != [] {
      if limit > 0 {
        UnitFit(enc, rs[1..], limit - 1);
      } else {
        UnitFit(enc, rs[1..], 0);
      }
    }
  }

  /** A text whose characters all weigh one unit is rejected only for needing more than 255 parts. */
  lemma UnitTextsAreAccepted(text: seq<byte>, enc: Encoding, opts: Options, counter: nat, s: Setup)
    requires Long(text, enc, opts, counter, s) && forall r <- Decode(text) :: Weight(enc, r) == 1
    ensures s.Limit() > 0
    ensures Segmented(text, enc, opts, counter).Ok? <==> CeilDiv(|Decode(text)|, s.Limit()) <= 255
  {
    LimitBounds(s);
    UnitGreedy(enc, Decode(text), s.Limit());
    UnitFit(enc, Decode(text), 0);
    DecodedWidths(text);
    CostBounds(enc, Decode(text));
    JoinDecode(text);
  }
}
