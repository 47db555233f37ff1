/**
 Segmentation in terms of the octets on the wire and the options as given: when one part is enough, and
 what the headers of all parts carry.
 */
module SegmentLimits {
  import opened Wrappers
  import opened Runes
  import opened Utf8
  import opened Chunking
  import opened Segmentation
  import Udh

  // ---------- What the options ask for ----------

  /** The header has the languages and ports of the options; without a size, the smallest that holds both ports. */
  predicate AsAsked(h: Udh.Header, opts: Options) {
    && h.single == opts.single && h.locking == opts.locking
    && if opts.destPort == 0 && opts.sourcePort == 0 && opts.portBits == 0 then h.ports.NoPorts?
       else
         && h.ports.Ports? && h.ports.dest == opts.destPort && h.ports.source == opts.sourcePort
         && h.ports.bits == (if opts.portBits != 0 then opts.portBits else if opts.destPort <= 255 && opts.sourcePort <= 255 then 8 else 16)
  }

  predicate PortFits(port: int, bits: int) {
    0 <= port < (if bits == 8 then 256 else 65536)
  }

  /** Known languages, and ports that fit the size asked for. */
  predicate Acceptable(opts: Options) {
    && 0 <= opts.single <= 13 && 0 <= opts.locking <= 13
    && opts.portBits in {0, 8, 16} && PortFits(opts.destPort, opts.portBits) && PortFits(opts.sourcePort, opts.portBits)
  }

  /** The header of a part that stands alone. */
  function LoneHeader(s: Setup): Udh.Header {
    Udh.Header(s.single, s.locking, s.ports, Udh.NoConcat)
  }

  lemma SetupIsAsAsked(enc: Encoding, opts: Options)
    ensures SetupSingle(enc, opts).Ok? <==> Acceptable(opts)
    ensures SetupSingle(enc, opts).Ok? ==> AsAsked(LoneHeader(SetupSingle(enc, opts).value), opts)
  {
  }

  /** A reference that is given is used; otherwise the counter gives one from 1 up. */
  predicate ReferenceAsAsked(ref: int, bits: int, opts: Options) {
    && bits == (if opts.refBits != 0 then opts.refBits else if opts.ref > 255 then 16 else 8)
    && (opts.ref != 0 ==> ref == opts.ref)
    && (opts.ref == 0 ==> 1 <= ref <= (if bits == 16 then 65535 else 255))
  }

  lemma ConcatIsAsAsked(s: Setup, opts: Options, counter: nat)
    requires s.Valid()
    ensures SetupConcat(s, opts, counter).Ok? <==> opts.refBits in {0, 8, 16} && PortFits(opts.ref, opts.refBits)
    ensures var r := SetupConcat(s, opts, counter);
            r.Ok? ==> LoneHeader(r.value) == LoneHeader(s) && ReferenceAsAsked(r.value.ref, r.value.bits, opts)
  {
  }

  /** Messages less than a cycle of references apart have different ones. */
  lemma FreshReferencesDiffer(bits: int, m: nat, n: nat)
    requires m < n < m + (if bits == 16 then 65535 else 255)
    ensures ReferenceFor(0, bits, m) != ReferenceFor(0, bits, n)
  {
  }

  // ---------- When one part is enough ----------

  /** For GSM 7-bit, a text that the tables can write. */
  predicate Writable(enc: Encoding, text: seq<byte>) {
    enc.Gsm7? ==> forall r <- Decode(text) :: r in enc.locking || r in enc.shifted
  }

  lemma LengthIsCost(enc: Encoding, text: seq<byte>)
    requires Writable(enc, text)
    ensures MessageLen(enc, text) == Cost(enc, Decode(text))
  {
    DecodedWidths(text);
    CostBounds(enc, Decode(text));
    JoinDecode(text);
  }

  function LoneOctets(s: Setup): seq<byte>
    requires s.Valid()
  {
    match Udh.Build(LoneHeader(s))
    case Ok(bytes) => bytes
    case Err(_) => []
  }

  lemma LoneBytes(s: Setup)
    requires s.Valid()
    ensures s.HeaderBytes(1, 1) == LoneOctets(s) && Udh.Read(LoneOctets(s)) == LoneHeader(s)
    ensures |LoneOctets(s)| == Udh.Length(s.single, s.locking, s.ports, None) <= 19
  {
    hide Udh.Read;
    Udh.LengthIsExact(LoneHeader(s));
    Udh.ReadUndoesBuild(LoneHeader(s));
  }

  /** The octets that the text would take in a single part. */
  function LoneSize(s: Setup, text: seq<byte>): nat
    requires s.Valid()
  {
    WireOctets(s.enc, |LoneOctets(s)|, Cost(s.enc, Decode(text)))
  }

  lemma FitsAlone(s: Setup, text: seq<byte>)
    requires s.Valid() && Writable(s.enc, text)
    ensures MessageLen(s.enc, text) <= s.SingleLimit() <==> LoneSize(s, text) <= 140
  {
    hide Cost, WireOctets, PartLimit, Udh.Length, LoneOctets, MessageLen;
    LengthIsCost(s.enc, text);
    LoneBytes(s);
    LimitIsExact(s.enc, |LoneOctets(s)|, Cost(s.enc, Decode(text)));
  }

  lemma OnePartIsShort(text: seq<byte>, enc: Encoding, opts: Options, counter: nat, p: Part)
    requires text != [] && SetupSingle(enc, opts).Ok? && Segmented(text, enc, opts, counter) == Ok([p])
    ensures MessageLen(enc, text) <= SetupSingle(enc, opts).value.SingleLimit()
  {
    hide LongOutcome, Setup.HeaderBytes, Setup.SingleLimit, Setup.Limit, MessageLen;
    var single := SetupSingle(enc, opts).value;
    if MessageLen(enc, text) > single.SingleLimit() {
      PartsCarryTheText(text, enc, opts, counter, SetupConcat(single, opts, counter).value, [p]);
    }
  }

  /** A text that the encoding can write goes out as one part, under a header without concatenation, exactly when both fit 140 octets. */
  lemma OnePartIff(text: seq<byte>, enc: Encoding, opts: Options, counter: nat)
    requires text != [] && SetupSingle(enc, opts).Ok? && Writable(enc, text)
    ensures var s := SetupSingle(enc, opts).value;
            && ((exists p :: Segmented(text, enc, opts, counter) == Ok([p])) <==> LoneSize(s, text) <= 140)
            && (LoneSize(s, text) <= 140 ==> Segmented(text, enc, opts, counter) == Ok([Part(1, 1, text, LoneOctets(s), 0, 0)]))
            && (LoneSize(s, text) > 140 && SetupConcat(s, opts, counter).Ok? ==> Long(text, enc, opts, counter, SetupConcat(s, opts, counter).value))
  {
    hide LongOutcome, Setup.HeaderBytes, Setup.SingleLimit, Setup.Limit, MessageLen, LoneSize, LoneOctets;
    var s := SetupSingle(enc, opts).value;
    FitsAlone(s, text);
    LoneBytes(s);
    if p :| Segmented(text, enc, opts, counter) == Ok([p]) {
      OnePartIsShort(text, enc, opts, counter, p);
    }
  }

  // ---------- Texts without options ----------

  const NO_OPTIONS := Options(0, 0, 0, 0, 0, 0, 0)

  lemma PlainSetup(enc: Encoding, text: seq<byte>)
    ensures SetupSingle(enc, NO_OPTIONS).Ok? && LoneOctets(SetupSingle(enc, NO_OPTIONS).value) == []
    ensures LoneSize(SetupSingle(enc, NO_OPTIONS).value, text) == WireOctets(enc, 0, Cost(enc, Decode(text)))
  {
  }

  lemma {:induction false} EvenCost(enc: Encoding, rs: seq<Rune>, w: nat)
    requires forall i :: 0 <= i < |rs| ==> Weight(enc, rs[i]) == w
    ensures Cost(enc, rs) == w * |rs|
  {
    if rs != [] {
      EvenCost(enc, rs[1..], w);
      assert w * |rs| == w + w * (|rs| - 1);
    }
  }

  /** The text is one part, sent as it is. */
  predicate GoesWhole(text: seq<byte>, enc: Encoding, counter: nat) {
    Segmented(text, enc, NO_OPTIONS, counter) == Ok([Part(1, 1, text, [], 0, 0)])
  }

  lemma WholeIff(text: seq<byte>, enc: Encoding, counter: nat)
    requires text != [] && Writable(enc, text)
    ensures GoesWhole(text, enc, counter) <==> WireOctets(enc, 0, Cost(enc, Decode(text))) <= 140
  {
    hide Segmented, LoneSize, LoneOctets, SetupSingle, Cost, WireOctets;
    PlainSetup(enc, text);
    OnePartIff(text, enc, NO_OPTIONS, counter);
  }

  /** A plain text goes out whole up to 160 characters of the GSM 7-bit locking table, or 80 of its shift table. */
  lemma WholeGsm7(text: seq<byte>, locking: set<Rune>, shifted: set<Rune>, counter: nat)
    requires text != []
    ensures (forall r <- Decode(text) :: r in locking) ==> (GoesWhole(text, Gsm7(locking, shifted), counter) <==> |Decode(text)| <= 160)
    ensures (forall r <- Decode(text) :: r in shifted && r !in locking) ==> (GoesWhole(text, Gsm7(locking, shifted), counter) <==> |Decode(text)| <= 80)
  {
    hide GoesWhole, Decode, Cost;
    var rs, gsm := Decode(text), Gsm7(locking, shifted);
    if forall r <- rs :: r in locking {
      EvenCost(gsm, rs, 1);
      WholeIff(text, gsm, counter);
    }
    if forall r <- rs :: r in shifted && r !in locking {
      EvenCost(gsm, rs, 2);
      WholeIff(text, gsm, counter);
    }
  }

  /** In UCS-2 it goes out whole up to 70 characters of one UTF-16 unit, or 35 of two. */
  lemma WholeUcs2(text: seq<byte>, counter: nat)
    requires text != []
    ensures (forall r <- Decode(text) :: Utf16Length(CodePoint(r)) == 1) ==> (GoesWhole(text, Ucs2, counter) <==> |Decode(text)| <= 70)
    ensures (forall r <- Decode(text) :: Utf16Length(CodePoint(r)) == 2) ==> (GoesWhole(text, Ucs2, counter) <==> |Decode(text)| <= 35)
  {
    hide GoesWhole, Decode, CodePoint, Utf16Length, Cost, Weight;
    var rs := Decode(text);
    UnitsAreUtf16(text);
    WholeIff(text, Ucs2, counter);
    if forall r <- rs :: Utf16Length(CodePoint(r)) == 1 {
      EvenCost(Ucs2, rs, 1);
    }
    if forall r <- rs :: Utf16Length(CodePoint(r)) == 2 {
      EvenCost(Ucs2, rs, 2);
    }
  }

  /** In UTF-8 it goes out whole up to 140 octets. */
  lemma WholeUtf8(text: seq<byte>, counter: nat)
    requires text != []
    ensures GoesWhole(text, Utf8, counter) <==> |text| <= 140
  {
    hide GoesWhole, Decode, Cost;
    DecodedWidths(text);
    CostBounds(Utf8, Decode(text));
    JoinDecode(text);
    WholeIff(text, Utf8, counter);
  }

  // ---------- What a UCS-2 character weighs ----------

  /** Code points above the Basic Multilingual Plane take a surrogate pair. */
  function Utf16Length(codePoint: int): nat {
    if codePoint >= 0x10000 then 2 else 1
  }

  lemma FirstUnits(s: seq<byte>)
    requires s != []
    ensures Weight(Ucs2, s[..RuneLen(s)]) == Utf16Length(CodePoint(s[..RuneLen(s)]))
  {
  }

  lemma {:induction false} UnitsAreUtf16(s: seq<byte>)
    ensures forall i :: 0 <= i < |Decode(s)| ==> Weight(Ucs2, Decode(s)[i]) == Utf16Length(CodePoint(Decode(s)[i]))
  {
    hide Weight, CodePoint, Utf16Length, RuneLen;
    if s != [] {
      FirstUnits(s);
      UnitsAreUtf16(s[RuneLen(s)..]);
    }
  }

  // ---------- What the headers carry ----------

  /** Every part's header has the languages and ports asked for; of several parts also the reference, the total and its own number. */
  lemma HeadersAreAsAsked(text: seq<byte>, enc: Encoding, opts: Options, counter: nat, parts: seq<Part>, i: nat)
    requires Segmented(text, enc, opts, counter) == Ok(parts) && i < |parts|
    ensures var h := Udh.Read(parts[i].udh);
            && AsAsked(h, opts)
            && (|parts| == 1 ==> h.concat == Udh.NoConcat)
            && (|parts| > 1 ==>
                  && h.concat.Concat? && h.concat.total == |parts| && h.concat.seqNo == i + 1
                  && ReferenceAsAsked(h.concat.ref, h.concat.bits, opts))
  {
    hide LongOutcome, Setup.HeaderBytes, Setup.SingleLimit, Setup.Limit, MessageLen, Udh.Read, AsAsked, ReferenceAsAsked, LoneOctets;
    SetupIsAsAsked(enc, opts);
    var single := SetupSingle(enc, opts).value;
    LoneBytes(single);
    if MessageLen(enc, text) > single.SingleLimit() {
      ConcatIsAsAsked(single, opts, counter);
      var s := SetupConcat(single, opts, counter).value;
      PartsCarryTheText(text, enc, opts, counter, s, parts);
      assert WellFormedPart(parts[i], s, |parts|, i + 1);
      ConcatApart(s, opts, |parts|, i + 1);
    }
  }

  lemma ConcatApart(s: Setup, opts: Options, total: int, partNo: int)
    requires AsAsked(LoneHeader(s), opts)
    ensures AsAsked(s.Header(total, partNo), opts)
  {
  }

  /** An empty text is no part at all, whatever the options. */
  lemma EmptyTextIsNothing(enc: Encoding, opts: Options, counter: nat)
    ensures Segmented([], enc, opts, counter) == Ok([])
  {
  }
}
