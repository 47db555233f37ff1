/**
 The SMS user data header of section 9.2.3.24 of 3GPP TS 23.040: option validation, the predicted
 length, the builder and the reader.
 */
module Udh {
  import opened Wrappers
  import opened Runes

  datatype Error =
    | UnknownLanguage
    | PortOutOfRange
    | PortSize
    | ReferenceOutOfRange
    | ReferenceSize
    | TotalOutOfRange
    | PartOutOfRange
    | NoRoom
    | TooManyParts

  const SINGLE_SHIFT: byte := 0x24
  const LOCKING_SHIFT: byte := 0x25

  datatype Ports = NoPorts | Ports(dest: int, source: int, bits: int)
  datatype Concat = NoConcat | Concat(ref: int, bits: int, total: int, seqNo: int)
  datatype Header = Header(single: int, locking: int, ports: Ports, concat: Concat)

  predicate LanguageAccepted(lang: int) {
    lang == 0 || 1 <= lang <= 13
  }

  /** Port options as given; zero bits asks for the smallest size that holds both ports. */
  function ValidatePorts(dest: int, source: int, bits: int): (r: Result<Ports, Error>)
    ensures r.Ok? && r.value.Ports? ==> PortsInRange(r.value) && r.value.dest == dest && r.value.source == source
    ensures r.Ok? && r.value.NoPorts? <==> dest == source == bits == 0
    ensures r.Ok? && bits != 0 ==> r.value.bits == bits
    ensures r.Ok? <==> 0 <= dest && 0 <= source && (bits == 8 || bits == 16 || bits == 0)
                       && dest < (if bits == 8 then 256 else 65536) && source < (if bits == 8 then 256 else 65536)
  {
    if dest == 0 && source == 0 && bits == 0 then Ok(NoPorts)
    else if dest < 0 || source < 0 then Err(PortOutOfRange)
    else if bits != 0 && bits != 8 && bits != 16 then Err(PortSize)
    else
      var size := if bits != 0 then bits else if dest <= 0xff && source <= 0xff then 8 else 16;
      var limit := if size == 8 then 0xff else 0xffff;
      if dest > limit || source > limit then Err(PortOutOfRange)
      else Ok(Ports(dest, source, size))
  }

  predicate PortsInRange(p: Ports) {
    p.Ports? ==>
      var limit := if p.bits == 8 then 0xff else 0xffff;
      (p.bits == 8 || p.bits == 16) && 0 <= p.dest <= limit && 0 <= p.source <= limit
  }

  /** The reference size in bits that a reference and a requested size lead to. */
  function ValidateConcat(ref: int, bits: int): (r: Result<int, Error>)
    ensures r.Ok? ==> (r.value == 8 || r.value == 16) && 0 <= ref < (if r.value == 8 then 0x100 else 0x10000)
    ensures r.Ok? <==> 0 <= ref && (bits == 8 || bits == 16 || bits == 0) && ref < (if bits == 8 then 256 else 65536)
    ensures r.Ok? && bits != 0 ==> r.value == bits
  {
    var size := if bits == 0 then (if ref > 0xff then 16 else 8) else bits;
    if ref < 0 then Err(ReferenceOutOfRange)
    else if size == 8 then if ref > 0xff then Err(ReferenceOutOfRange) else Ok(8)
    else if size == 16 then if ref > 0xffff then Err(ReferenceOutOfRange) else Ok(16)
    else Err(ReferenceSize)
  }

  /** The predicted header length: zero when there is nothing to carry. */
  function Length(single: int, locking: int, ports: Ports, concatBits: Option<int>): nat {
    var body := (if single != 0 then 3 else 0) + (if locking != 0 then 3 else 0)
                + (if ports.NoPorts? then 0 else if ports.bits == 8 then 4 else 6)
                + (if concatBits.None? then 0 else if concatBits.value == 16 then 6 else 5);
    if body == 0 then 0 else 1 + body
  }

  /** The two octets of a 16-bit value, and the value of two octets. */
  function High(v: int): (b: byte)
    requires 0 <= v < 65536
  {
    v / 256
  }

  function Low(v: int): (b: byte)
    requires 0 <= v < 65536
  {
    v % 256
  }

  function Word(high: byte, low: byte): int {
    256 * (high as int) + low
  }

  lemma WordOfOctets(v: int)
    requires 0 <= v < 65536
    ensures Word(High(v), Low(v)) == v
  {
  }

  predicate ConcatInRange(c: Concat)
    requires c.Concat?
  {
    && 2 <= c.total <= 255 && 1 <= c.seqNo <= c.total
    && (c.bits == 8 || c.bits == 16) && 0 <= c.ref < (if c.bits == 8 then 256 else 65536)
  }

  function ConcatOctets(c: Concat): seq<byte>
    requires c.Concat? && ConcatInRange(c)
  {
    if c.bits == 8 then [0x00, 0x03, c.ref, c.total, c.seqNo]
    else [0x08, 0x04, High(c.ref), Low(c.ref), c.total, c.seqNo]
  }

  function ConcatElement(c: Concat): Result<seq<byte>, Error> {
    if c.NoConcat? || c.total <= 1 then Ok([])
    else if c.total > 255 then Err(TotalOutOfRange)
    else if c.seqNo <= 0 || c.seqNo > c.total then Err(PartOutOfRange)
    else if c.bits != 8 && c.bits != 16 then Err(ReferenceSize)
    else if c.ref < 0 || c.ref > (if c.bits == 8 then 0xff else 0xffff) then Err(ReferenceOutOfRange)
    else Ok(ConcatOctets(c))
  }

  function PortsElement(p: Ports): seq<byte>
    requires PortsInRange(p)
  {
    if p.NoPorts? then []
    else if p.bits == 8 then [0x04, 0x02, p.dest, p.source]
    else [0x05, 0x04, High(p.dest), Low(p.dest), High(p.source), Low(p.source)]
  }

  function LanguageElement(iei: byte, lang: int): seq<byte>
    requires LanguageAccepted(lang)
  {
    if lang == 0 then [] else [iei, 0x01, lang]
  }

  /** The header bytes: the languages, the ports and the concatenation element, after their total length. */
  function Build(h: Header): Result<seq<byte>, Error>
    requires PortsInRange(h.ports)
  {
    if !LanguageAccepted(h.single) || !LanguageAccepted(h.locking) then Err(UnknownLanguage)
    else
      var concat :- ConcatElement(h.concat);
      Ok(WithLength(Elements(h, concat)))
  }

  function Elements(h: Header, concat: seq<byte>): seq<byte>
    requires LanguageAccepted(h.single) && LanguageAccepted(h.locking) && PortsInRange(h.ports)
  {
    LanguageElement(SINGLE_SHIFT, h.single)
    + (LanguageElement(LOCKING_SHIFT, h.locking) + (PortsElement(h.ports) + concat))
  }

  function WithLength(body: seq<byte>): seq<byte> {
    if body == [] then [] else [|body| % 256] + body
  }

  // ---------- The reader ----------

  const EMPTY := Header(0, 0, NoPorts, NoConcat)

  /** What one information element adds to the header read so far. */
  function Absorb(h: Header, iei: byte, data: seq<byte>): Header {
    if iei == 0x00 && |data| == 3 && data[1] > 1 then h.(concat := Concat(data[0], 8, data[1], data[2]))
    else if iei == 0x08 && |data| == 4 && data[2] > 1 then
      h.(concat := Concat(Word(data[0], data[1]), 16, data[2], data[3]))
    else if iei == 0x04 && |data| == 2 then h.(ports := Ports(data[0], data[1], 8))
    else if iei == 0x05 && |data| == 4 then
      h.(ports := Ports(Word(data[0], data[1]), Word(data[2], data[3]), 16))
    else if iei == SINGLE_SHIFT && |data| == 1 && 1 <= data[0] <= 13 then h.(single := data[0])
    else if iei == LOCKING_SHIFT && |data| == 1 && 1 <= data[0] <= 13 then h.(locking := data[0])
    else h
  }

  function ReadElements(s: seq<byte>, h: Header): Header {
    if |s| < 2 || 2 + s[1] > |s| then h
    else ReadElements(s[2 + s[1]..], Absorb(h, s[0], s[2..2 + s[1]]))
  }

  function Read(udh: seq<byte>): Header {
    if |udh| < 2 then EMPTY else ReadElements(udh[1..], EMPTY)
  }

  method Parse(udh: seq<byte>) returns (h: Header)
    ensures h == Read(udh)
  {
    h := EMPTY;
    if |udh| < 2 {
      return;
    }
    var i := 1;
    while i + 1 < |udh|
      invariant 1 <= i <= |udh|
      invariant ReadElements(udh[i..], h) == ReadElements(udh[1..], EMPTY)
    {
      var iei, size := udh[i], udh[i + 1];
      assert udh[i..][0] == iei && udh[i..][1] == size;
      if i + 2 + size > |udh| {
        return;
      }
      assert udh[i..][2..2 + size] == udh[i + 2..i + 2 + size];
      assert udh[i..][2 + size..] == udh[i + 2 + size..];
      h := Absorb(h, iei, udh[i + 2..i + 2 + size]);
      i := i + 2 + size;
    }
  }

  // ---------- Properties ----------

  predicate Accepted(h: Header) {
    && LanguageAccepted(h.single) && LanguageAccepted(h.locking) && PortsInRange(h.ports)
    && (h.concat.Concat? ==> ConcatInRange(h.concat))
  }

  function ConcatBits(c: Concat): Option<int> {
    if c.NoConcat? then None else Some(c.bits)
  }

  /** A header builds exactly when its values are in range, and then has the predicted length. */
  lemma LengthIsExact(h: Header)
    requires PortsInRange(h.ports) && (h.concat.Concat? ==> h.concat.total > 1)
    ensures Build(h).Ok? <==> Accepted(h)
    ensures Accepted(h) ==> |Build(h).value| == Length(h.single, h.locking, h.ports, ConcatBits(h.concat))
    ensures Accepted(h) ==> |Build(h).value| <= 19
  {
  }

  lemma ReadOne(iei: byte, data: seq<byte>, rest: seq<byte>, h: Header)
    requires |data| < 256
    ensures ReadElements([iei, |data|] + data + rest, h) == ReadElements(rest, Absorb(h, iei, data))
  {
    var s := [iei, |data|] + data + rest;
    assert s[2..2 + |data|] == data && s[2 + |data|..] == rest;
  }

  lemma ReadSingle(lang: int, rest: seq<byte>, h: Header)
    requires LanguageAccepted(lang) && h.single == 0
    ensures ReadElements(LanguageElement(SINGLE_SHIFT, lang) + rest, h) == ReadElements(rest, h.(single := lang))
  {
    if lang == 0 {
      assert LanguageElement(SINGLE_SHIFT, lang) + rest == rest;
    } else {
      ReadOne(SINGLE_SHIFT, [lang], rest, h);
    }
  }

  lemma ReadLocking(lang: int, rest: seq<byte>, h: Header)
    requires LanguageAccepted(lang) && h.locking == 0
    ensures ReadElements(LanguageElement(LOCKING_SHIFT, lang) + rest, h) == ReadElements(rest, h.(locking := lang))
  {
    if lang == 0 {
      assert LanguageElement(LOCKING_SHIFT, lang) + rest == rest;
    } else {
      ReadOne(LOCKING_SHIFT, [lang], rest, h);
    }
  }

  lemma ReadPorts(p: Ports, rest: seq<byte>, h: Header)
    requires PortsInRange(p) && h.ports.NoPorts?
    ensures ReadElements(PortsElement(p) + rest, h) == ReadElements(rest, h.(ports := p))
  {
    var e := PortsElement(p);
    if p.NoPorts? {
      assert e + rest == rest;
    } else {
      if p.bits == 16 {
        WordOfOctets(p.dest);
        WordOfOctets(p.source);
      }
      assert e == [e[0], |e[2..]|] + e[2..];
      ReadOne(e[0], e[2..], rest, h);
    }
  }

  lemma ReadConcat(c: Concat, h: Header)
    requires (c.Concat? ==> ConcatInRange(c)) && h.concat.NoConcat?
    ensures ConcatElement(c).Ok? && ReadElements(ConcatElement(c).value, h) == h.(concat := c)
  {
    if c.Concat? {
      var e := ConcatOctets(c);
      if c.bits == 16 {
        WordOfOctets(c.ref);
      }
      assert e + [] == e == [e[0], |e[2..]|] + e[2..];
      ReadOne(e[0], e[2..], [], h);
    }
  }

  lemma ReadAll(h: Header, concat: seq<byte>)
    requires Accepted(h) && ConcatElement(h.concat) == Ok(concat)
    ensures ReadElements(Elements(h, concat), EMPTY) == h
  {
    var ports := PortsElement(h.ports) + concat;
    ReadSingle(h.single, LanguageElement(LOCKING_SHIFT, h.locking) + ports, EMPTY);
    ReadLocking(h.locking, ports, EMPTY.(single := h.single));
    ReadPorts(h.ports, concat, Header(h.single, h.locking, NoPorts, NoConcat));
    ReadConcat(h.concat, Header(h.single, h.locking, h.ports, NoConcat));
  }

  /** Reading a built header gives back the languages, ports and concatenation values it was built from. */
  lemma ReadUndoesBuild(h: Header)
    requires Accepted(h)
    ensures Build(h).Ok? && Read(Build(h).value) == h
  {
    ReadConcat(h.concat, EMPTY);
    var concat := ConcatElement(h.concat).value;
    ReadAll(h, concat);
    if h == EMPTY {
      assert Elements(h, concat) == [];
    } else {
      LengthIsExact(h);
      assert WithLength(Elements(h, concat))[1..] == Elements(h, concat);
    }
  }

  /** The octets of section 9.2.3.24: a length, then elements 24 and 25 for languages, 04 or 05 for ports, 00 or 08 for concatenation. */
  lemma WireForm(h: Header)
    requires Accepted(h) && h.single != 0 && h.locking != 0 && h.ports.Ports? && h.concat.Concat?
    ensures Build(h).Ok? && Build(h).value ==
            [|Build(h).value| - 1] + [0x24, 1, h.single] + [0x25, 1, h.locking]
            + (if h.ports.bits == 8 then [0x04, 2, h.ports.dest, h.ports.source]
               else [0x05, 4, h.ports.dest / 256, h.ports.dest % 256, h.ports.source / 256, h.ports.source % 256])
            + (if h.concat.bits == 8 then [0x00, 3, h.concat.ref, h.concat.total, h.concat.seqNo]
               else [0x08, 4, h.concat.ref / 256, h.concat.ref % 256, h.concat.total, h.concat.seqNo])
  {
    LengthIsExact(h);
  }
}
