/**
 The emergency multipart body of an SDP and a PIDF-LO part, per section 5.1.1 of RFC 2046: choosing a
 boundary, building the body, and what a reader that splits at the delimiters recovers. Octets are
 modelled as characters.
 */
module Multipart {
  import opened Wrappers
  import opened Text
  import opened Finite

  const CRLF := ['\r', '\n']
  const BLANK := ['\r', '\n', '\r', '\n']

  datatype Error = NoLocation | BadContentId | SameContentId | BadBoundary | BoundaryCollides

  // ---------- Boundaries ----------

  const DEFAULT_BOUNDARY := "e911-pidf-lo"

  function Candidate(i: nat): string {
    if i == 0 then DEFAULT_BOUNDARY else DEFAULT_BOUNDARY + ['-'] + Decimal(i)
  }

  function Delimiter(boundary: string): string {
    ['-', '-'] + boundary
  }

  predicate OccursAt(s: string, marker: string, k: int) {
    0 <= k && k + |marker| <= |s| && s[k..k + |marker|] == marker
  }

  predicate Contains(s: string, marker: string) {
    exists k :: 0 <= k <= |s| && OccursAt(s, marker, k)
  }

  predicate Collides(boundary: string, sdp: string, location: string) {
    Contains(sdp, Delimiter(boundary)) || Contains(location, Delimiter(boundary))
  }

  function Pow10(n: nat): nat {
    if n == 0 then 1 else 10 * Pow10(n - 1)
  }

  // Distinct numbered candidates end at distinct positions, so no more of them collide than there are positions.

  function TrailingDigits(s: string): nat {
    if s != [] && '0' <= s[|s| - 1] <= '9' then 1 + TrailingDigits(s[..|s| - 1]) else 0
  }

  lemma {:induction false} TrailingAfterHyphen(x: string, a: string)
    requires AllDigits(a)
    ensures TrailingDigits(x + ['-'] + a) == |a|
  {
    var t := x + ['-'] + a;
    if a == [] {
      assert t[|t| - 1] == '-';
    } else {
      assert t[|t| - 1] == a[|a| - 1];
      assert t[..|t| - 1] == x + ['-'] + a[..|a| - 1];
      TrailingAfterHyphen(x, a[..|a| - 1]);
    }
  }

  /** The digits after the last hyphen determine a numbered candidate. */
  lemma LastDigits(x: string, a: string, y: string, b: string)
    requires x + ['-'] + a == y + ['-'] + b && AllDigits(a) && AllDigits(b)
    ensures a == b
  {
    var t := x + ['-'] + a;
    TrailingAfterHyphen(x, a);
    TrailingAfterHyphen(y, b);
    assert a == t[|t| - |a|..] && b == t[|t| - |b|..];
  }

  predicate EndsAt(s: string, i: nat, e: int) {
    e <= |s| && OccursAt(s, Delimiter(Candidate(i)), e - |Delimiter(Candidate(i))|)
  }

  lemma PrefixRegrouped(a: string, b: string, c: string, d: string)
    ensures a + (b + c + d) == a + b + c + d
  {
  }

  lemma DelimiterEnd(s: string, i: nat, e: int) returns (x: string)
    requires i > 0 && EndsAt(s, i, e)
    ensures 0 < e <= |s| && s[..e] == x + ['-'] + Decimal(i)
  {
    hide Decimal;
    var d := Delimiter(Candidate(i));
    var k := e - |d|;
    var head := ['-', '-'] + DEFAULT_BOUNDARY;
    assert d == head + ['-'] + Decimal(i);
    x := s[..k] + head;
    assert s[..e] == s[..k] + d;
    PrefixRegrouped(s[..k], head, ['-'], Decimal(i));
  }

  lemma EndsDiffer(s: string, i: nat, j: nat, e: int)
    requires i > 0 && j > 0 && EndsAt(s, i, e) && EndsAt(s, j, e)
    ensures i == j
  {
    hide Decimal, EndsAt;
    var x := DelimiterEnd(s, i, e);
    var y := DelimiterEnd(s, j, e);
    DecimalDigits(i);
    DecimalDigits(j);
    LastDigits(x, Decimal(i), y, Decimal(j));
    DecimalInjective(i, j);
  }

  ghost predicate Ends(s: string, i: nat) {
    exists e :: EndsAt(s, i, e)
  }

  lemma {:induction false} EndPositions(s: string, n: nat) returns (ends: set<int>)
    requires forall i :: 1 <= i <= n ==> Ends(s, i)
    ensures |ends| == n
    ensures forall e <- ends :: 1 <= e <= |s| && exists i :: 1 <= i <= n && EndsAt(s, i, e)
  {
    hide EndsAt;
    if n == 0 {
      ends := {};
    } else {
      var before := EndPositions(s, n - 1);
      assert Ends(s, n);
      var e :| EndsAt(s, n, e);
      var _ := DelimiterEnd(s, n, e);
      if e in before {
        var i :| 1 <= i <= n - 1 && EndsAt(s, i, e);
        EndsDiffer(s, i, n, e);
      }
      ends := before + {e};
    }
  }

  lemma CollisionEnds(i: nat, sdp: string, location: string)
    requires Collides(Candidate(i), sdp, location)
    ensures Ends(sdp + location, i)
  {
    hide Candidate;
    var d, s := Delimiter(Candidate(i)), sdp + location;
    if Contains(sdp, d) {
      var k :| 0 <= k <= |sdp| && OccursAt(sdp, d, k);
      assert s[k..k + |d|] == sdp[k..k + |d|];
      assert EndsAt(s, i, k + |d|);
    } else {
      var k :| 0 <= k <= |location| && OccursAt(location, d, k);
      assert s[|sdp| + k..|sdp| + k + |d|] == location[k..k + |d|];
      assert EndsAt(s, i, |sdp| + k + |d|);
    }
  }

  /** If the first n numbered candidates all collide, the bodies are at least n long. */
  lemma CollisionBound(n: nat, sdp: string, location: string)
    requires forall i :: 1 <= i <= n ==> Collides(Candidate(i), sdp, location)
    ensures n <= |sdp| + |location|
  {
    hide Collides, Ends, Candidate;
    forall i | 1 <= i <= n
      ensures Ends(sdp + location, i)
    {
      CollisionEnds(i, sdp, location);
    }
    var ends := EndPositions(sdp + location, n);
    SubsetSize(ends, Range(|sdp + location|));
  }

  /** The search ends for all bodies, at the first candidate that collides with neither, whose number their length bounds. */
  method ChooseBoundary(sdp: string, location: string) returns (boundary: string, ghost n: nat)
    ensures boundary == Candidate(n) && !Collides(boundary, sdp, location)
    ensures forall j :: 0 <= j < n ==> Collides(Candidate(j), sdp, location)
    ensures n <= |sdp| + |location| + 1
  {
    hide Collides;
    boundary, n := DEFAULT_BOUNDARY, 0;
    var i := 1;
    while Collides(boundary, sdp, location)
      invariant i == n + 1 && boundary == Candidate(n) && n <= |sdp| + |location| + 1
      invariant forall j :: 0 <= j < n ==> Collides(Candidate(j), sdp, location)
      decreases |sdp| + |location| + 1 - n
    {
      CollisionBound(n, sdp, location);
      boundary := DEFAULT_BOUNDARY + ['-'] + Decimal(i);
      i, n := i + 1, n + 1;
    }
  }

  predicate BoundaryChar(c: char) {
    LetterOrDigit(c) || c in {'\'', '(', ')', '+', '_', ',', '-', '.', '/', ':', '=', '?'}
  }

  predicate ValidBoundary(b: string) {
    0 < |b| <= 70 && forall c <- b :: BoundaryChar(c)
  }

  // A candidate leaves 57 of the 70 characters for its number.

  const ROOM: nat := 57

  lemma {:induction false} DecimalLength(n: nat, k: nat)
    requires k > 0 && n < Pow10(k)
    ensures |Decimal(n)| <= k
  {
    if n >= 10 {
      assert Pow10(1) == 10;
      DecimalLength(n / 10, k - 1);
    }
  }

  lemma DefaultIsValid()
    ensures |DEFAULT_BOUNDARY| == 12 && forall c <- DEFAULT_BOUNDARY :: BoundaryChar(c)
  {
  }

  lemma CandidateIsValid(n: nat)
    requires n < Pow10(ROOM)
    ensures ValidBoundary(Candidate(n))
  {
    hide Decimal, Pow10;
    DefaultIsValid();
    DecimalDigits(n);
    DecimalLength(n, ROOM);
  }

  // ---------- Building ----------

  function StripCid(value: string): string {
    if |value| >= 4 && ToLower(value[..4]) == "cid:" then TrimSpace(value[4..]) else value
  }

  predicate ContentId(value: string) {
    value != [] && forall c <- value :: c !in {'\r', '\n', '<', '>', ' ', '\t'}
  }

  function NormalizeContentId(text: string, fallback: string): (r: Result<string, Error>)
    ensures r.Ok? ==> ContentId(r.value)
  {
    var value := StripCid(TrimSpace(text));
    var angled := value != [] && (value[0] == '<' || value[|value| - 1] == '>');
    if angled && (|value| < 2 || value[0] != '<' || value[|value| - 1] != '>') then Err(BadContentId)
    else
      var inner := if angled then TrimSpace(value[1..|value| - 1]) else value;
      var id := if inner == [] then fallback else inner;
      if ContentId(id) then Ok(id) else Err(BadContentId)
  }

  function HeaderLines(contentType: string, contentId: string, disposition: string): seq<string> {
    ["Content-Type: " + contentType, "Content-ID: <" + contentId + ">", "Content-Disposition: " + disposition]
  }

  /** Header lines, each begun by a line break, and the blank line that ends them. */
  function Block(lines: seq<string>): string {
    if lines == [] then BLANK else CRLF + lines[0] + Block(lines[1..])
  }

  function Section(boundary: string, lines: seq<string>, body: string): string {
    Delimiter(boundary) + Block(lines) + body + CRLF
  }

  function Closing(boundary: string): string {
    Delimiter(boundary) + ['-', '-'] + CRLF
  }

  const SDP_DISPOSITION := "session;" + "handling=required"
  const LOCATION_DISPOSITION := "by-reference;" + "handling=optional"

  function SdpLines(id: string): seq<string> {
    HeaderLines("application/sdp", id, SDP_DISPOSITION)
  }

  function LocationLines(id: string): seq<string> {
    HeaderLines("application/pidf+xml", id, LOCATION_DISPOSITION)
  }

  function Body(boundary: string, sdpId: string, locationId: string, sdp: string, location: string): string {
    Section(boundary, SdpLines(sdpId), sdp) + (Section(boundary, LocationLines(locationId), location) + Closing(boundary))
  }

  datatype Config = Config(sdpId: string, locationId: string, boundary: string)

  datatype Message = Message(boundary: string, start: string, body: string)

  /** The configured boundary, or the first numbered candidate that collides with neither body. */
  ghost predicate Chosen(cfg: Config, sdp: string, location: string, b: string) {
    if TrimSpace(cfg.boundary) != [] then b == TrimSpace(cfg.boundary)
    else exists n: nat :: b == Candidate(n) && !Collides(b, sdp, location)
                          && forall j :: 0 <= j < n ==> Collides(Candidate(j), sdp, location)
  }

  /** The identifiers are usable and differ. */
  predicate UsableIds(cfg: Config) {
    var sdpId, locationId := NormalizeContentId(cfg.sdpId, "sdp"), NormalizeContentId(cfg.locationId, "location-1");
    sdpId.Ok? && locationId.Ok? && ToLower(sdpId.value) != ToLower(locationId.value)
  }

  // ---------- Reading ----------

  /** The delimiter begins a line here. */
  predicate DelimiterAt(msg: string, boundary: string, k: int) {
    OccursAt(msg, Delimiter(boundary), k) && (k == 0 || OccursAt(msg, CRLF, k - 2))
  }

  /** The first delimiter at or after a position, or the length. */
  function NextDelimiter(msg: string, boundary: string, k: nat): (n: nat)
    requires k <= |msg|
    ensures k <= n <= |msg|
    decreases |msg| - k
  {
    if k == |msg| || DelimiterAt(msg, boundary, k) then k else NextDelimiter(msg, boundary, k + 1)
  }

  /** The first blank line, or the length. */
  function BlankLine(s: string): (n: nat)
    ensures n <= |s|
  {
    if s == [] || OccursAt(s, BLANK, 0) then 0 else 1 + BlankLine(s[1..])
  }

  /** A part as a reader finds it: its header lines and its payload. */
  datatype ReadPart = ReadPart(lines: seq<string>, payload: string)

  /** Lines that each follow a line break. */
  function LinesOf(text: string): seq<string>
    decreases |text|
  {
    if |text| < 2 || text[..2] != CRLF then []
    else
      var rest := text[2..];
      var n := IndexOf(rest, '\r');
      [rest[..n]] + LinesOf(rest[n..])
  }

  /** What comes before and what follows the blank line. */
  function ReadOne(part: string): ReadPart {
    var n := BlankLine(part);
    ReadPart(LinesOf(part[..n]), if n + 4 <= |part| then part[n + 4..] else [])
  }

  /** The parts between delimiters, up to the closing one; a line break before a delimiter belongs to it. */
  function ReadParts(msg: string, boundary: string): seq<ReadPart>
    decreases |msg|
  {
    var d := |Delimiter(boundary)|;
    if !DelimiterAt(msg, boundary, 0) || OccursAt(msg, ['-', '-'], d) then []
    else
      var next := NextDelimiter(msg, boundary, 1);
      if next < d + 2 then []
      else [ReadOne(msg[d..next - 2])] + ReadParts(msg[next..], boundary)
  }

  // ---------- Content identifiers ----------

  /** An identifier that is not itself written in angles or after `cid:`. */
  predicate BareId(id: string) {
    ContentId(id) && Trimmed(id) && !(|id| >= 4 && ToLower(id[..4]) == "cid:")
  }

  /** Given bare, in angles, or after `cid:`, an identifier is the same; a blank one is the fallback. */
  lemma ContentIdForms(id: string, fallback: string)
    requires BareId(id) && ContentId(fallback)
    ensures NormalizeContentId(id, fallback) == Ok(id) && NormalizeContentId(['<'] + id + ['>'], fallback) == Ok(id)
    ensures NormalizeContentId("cid:" + id, fallback) == Ok(id) && NormalizeContentId("cid:" + (['<'] + id + ['>']), fallback) == Ok(id)
    ensures NormalizeContentId([], fallback) == Ok(fallback)
  {
    hide StripCid, NormalizeContentId, TrimSpace;
    PlainForm(id);
    AngledForm(id);
    CidStripped(id);
    CidStripped(['<'] + id + ['>']);
    BareNormal(id, id, fallback);
    AngledNormal(['<'] + id + ['>'], id, fallback);
    BareNormal("cid:" + id, id, fallback);
    AngledNormal("cid:" + (['<'] + id + ['>']), id, fallback);
    BlankNormal(fallback);
  }

  lemma BareNormal(text: string, id: string, fallback: string)
    requires BareId(id) && StripCid(TrimSpace(text)) == id
    ensures NormalizeContentId(text, fallback) == Ok(id)
  {
    hide StripCid, TrimSpace;
    assert id[0] in id && id[|id| - 1] in id;
  }

  lemma AngledNormal(text: string, id: string, fallback: string)
    requires BareId(id) && StripCid(TrimSpace(text)) == ['<'] + id + ['>']
    ensures NormalizeContentId(text, fallback) == Ok(id)
  {
    hide StripCid, TrimSpace;
    var angled := ['<'] + id + ['>'];
    assert angled[1..|angled| - 1] == id && angled[0] == '<' && angled[|angled| - 1] == '>';
  }

  lemma BlankNormal(fallback: string)
    requires ContentId(fallback)
    ensures NormalizeContentId([], fallback) == Ok(fallback)
  {
  }

  lemma CidStripped(value: string)
    requires value != [] && Trimmed(value)
    ensures var text := "cid:" + value; Trimmed(text) && TrimSpace(text) == text && StripCid(text) == value
  {
    var text := "cid:" + value;
    assert text[..4] == "cid:" && text[4..] == value;
    assert ToLower("cid:") == "cid:";
    assert text[|text| - 1] == value[|value| - 1] && text[0] == 'c';
  }

  lemma PlainForm(id: string)
    requires BareId(id)
    ensures StripCid(TrimSpace(id)) == id
  {
  }

  lemma AngledForm(id: string)
    requires BareId(id)
    ensures var angled := ['<'] + id + ['>']; Trimmed(angled) && StripCid(TrimSpace(angled)) == angled
  {
    var angled := ['<'] + id + ['>'];
    assert angled[0] == '<' && angled[|angled| - 1] == '>' && Trimmed(angled);
    assert |angled| >= 4 ==> ToLower(angled[..4])[0] == '<';
  }

  /** Two identifiers can stand together exactly when they differ in more than case. */
  lemma IdsMustDiffer(sdpId: string, locationId: string, boundary: string)
    requires BareId(sdpId) && BareId(locationId)
    ensures UsableIds(Config(sdpId, locationId, boundary)) <==> ToLower(sdpId) != ToLower(locationId)
  {
    hide NormalizeContentId, ToLower;
    assert ContentId("sdp") && ContentId("location-1") by {
      Fallbacks();
    }
    ContentIdForms(sdpId, "sdp");
    ContentIdForms(locationId, "location-1");
  }

  lemma Fallbacks()
    ensures ContentId("sdp") && ContentId("location-1")
  {
  }

  // ---------- Delimiters occur only where they are meant to ----------

  predicate NoBreak(s: string) {
    '\r' !in s && '\n' !in s
  }

  /** A header line: no line break inside, and not begun like a delimiter. */
  predicate GoodLine(line: string) {
    line != [] && line[0] != '-' && NoBreak(line)
  }

  lemma BoundaryHasNoBreak(b: string)
    requires ValidBoundary(b)
    ensures NoBreak(Delimiter(b))
  {
  }

  lemma LinesGood(contentType: string, contentId: string, disposition: string)
    requires NoBreak(contentType) && ContentId(contentId) && NoBreak(disposition)
    ensures forall line <- HeaderLines(contentType, contentId, disposition) :: GoodLine(line)
  {
  }

  /** Inside a header block a line never begins with a hyphen, and the block ends in a line break. */
  predicate QuietBlock(h: string) {
    && |h| >= 4 && h[0] == '\r' && h[|h| - 4..] == BLANK
    && (forall c :: 0 <= c && c + 2 < |h| && h[c] == '\r' && h[c + 1] == '\n' ==> h[c + 2] != '-')
    && (forall c :: 0 <= c < |h| - 4 ==> !OccursAt(h, BLANK, c))
  }

  lemma CharAt(line: string, rest: string, c: int)
    requires 0 <= c < 2 + |line| + |rest|
    ensures (CRLF + line + rest)[c] == if c < 2 then CRLF[c] else if c < 2 + |line| then line[c - 2] else rest[c - 2 - |line|]
  {
  }

  lemma QuietLines(line: string, rest: string, c: int)
    requires GoodLine(line) && QuietBlock(rest)
    requires var h := CRLF + line + rest; 0 <= c && c + 2 < |h| && h[c] == '\r' && h[c + 1] == '\n'
    ensures (CRLF + line + rest)[c + 2] != '-'
  {
    CharAt(line, rest, c);
    CharAt(line, rest, c + 1);
    CharAt(line, rest, c + 2);
    var n := 2 + |line|;
    assert forall l <- line :: l != '\r';
    assert c >= n ==> rest[c - n] == '\r' && rest[c - n + 1] == '\n';
  }

  lemma OccursMeans(s: string, marker: string, k: int)
    ensures OccursAt(s, marker, k) <==>
              0 <= k && k + |marker| <= |s| && forall i :: 0 <= i < |marker| ==> s[k + i] == marker[i]
  {
    if 0 <= k && k + |marker| <= |s| {
      var part := s[k..k + |marker|];
      assert forall i :: 0 <= i < |part| ==> part[i] == s[k + i];
    }
  }

  lemma OccursChar(s: string, marker: string, k: int, i: nat)
    requires i < |marker|
    ensures OccursAt(s, marker, k) ==> 0 <= k && k + i < |s| && s[k + i] == marker[i]
  {
    if OccursAt(s, marker, k) {
      assert s[k..k + |marker|][i] == s[k + i];
    }
  }

  lemma QuietInside(h: string, c: int)
    requires QuietBlock(h) && 0 <= c < |h| - 4
    ensures !OccursAt(h, BLANK, c)
  {
  }

  lemma NotBlankYet(line: string, rest: string, c: int)
    requires GoodLine(line) && QuietBlock(rest) && 0 <= c < 2 + |line| + |rest| - 4
    ensures !OccursAt(CRLF + line + rest, BLANK, c)
  {
    hide QuietBlock, OccursAt;
    var h, n := CRLF + line + rest, 2 + |line|;
    OccursMeans(h, BLANK, c);
    if c == 0 {
      CharAt(line, rest, 2);
      assert line[0] in line && h[c + 2] != BLANK[2];
    } else if c < n {
      CharAt(line, rest, c);
      assert c >= 2 ==> line[c - 2] in line;
      assert h[c + 0] != BLANK[0];
    } else {
      QuietInside(rest, c - n);
      OccursMeans(rest, BLANK, c - n);
      var i :| 0 <= i < 4 && rest[c - n + i] != BLANK[i];
      CharAt(line, rest, c + i);
    }
  }

  lemma QuietStep(line: string, rest: string)
    requires GoodLine(line) && QuietBlock(rest)
    ensures QuietBlock(CRLF + line + rest)
  {
    var h := CRLF + line + rest;
    assert h[|h| - 4..] == rest[|rest| - 4..];
    forall c | 0 <= c && c + 2 < |h| && h[c] == '\r' && h[c + 1] == '\n'
      ensures h[c + 2] != '-'
    {
      QuietLines(line, rest, c);
    }
    forall c | 0 <= c < |h| - 4
      ensures !OccursAt(h, BLANK, c)
    {
      NotBlankYet(line, rest, c);
    }
  }

  lemma BlankIsQuiet()
    ensures QuietBlock(BLANK)
  {
  }

  lemma {:induction false} BlockIsQuiet(lines: seq<string>)
    requires forall line <- lines :: GoodLine(line)
    ensures QuietBlock(Block(lines))
  {
    hide QuietBlock;
    if lines == [] {
      BlankIsQuiet();
    } else {
      BlockIsQuiet(lines[1..]);
      QuietStep(lines[0], Block(lines[1..]));
    }
  }

  /** From the start of the body to the end of its section, no delimiter occurs at all. */
  lemma NoDelimiterInBody(d: string, head: string, body: string, rest: string, k: int)
    requires NoBreak(d) && d != [] && d[0] == '-' && !Contains(body, d)
    requires |head| <= k < |head| + |body| + 2
    ensures !OccursAt(head + body + CRLF + rest, d, k)
  {
    var msg, at := head + body + CRLF + rest, k - |head|;
    OccursMeans(msg, d, k);
    if at >= |body| {
      assert msg[k + 0] == CRLF[at - |body|];
    } else if at + |d| <= |body| {
      assert !OccursAt(body, d, at);
      assert msg[k..k + |d|] == body[at..at + |d|];
    } else {
      var i := |body| - at;
      assert msg[k + i] == '\r' && d[i] in d;
    }
  }

  /** Before the body, no line after the first begins with a delimiter. */
  lemma NoDelimiterInHead(d: string, block: string, rest: string, k: int)
    requires NoBreak(d) && |d| >= 2 && d[0] == '-' && QuietBlock(block)
    requires 0 < k < |d| + |block|
    ensures !(OccursAt(d + block + rest, d, k) && OccursAt(d + block + rest, CRLF, k - 2))
  {
    hide OccursAt;
    var msg, c := d + block + rest, k - 2 - |d|;
    OccursChar(msg, d, k, 0);
    OccursChar(msg, CRLF, k - 2, 0);
    OccursChar(msg, CRLF, k - 2, 1);
    if c < 0 {
      assert k >= 2 ==> msg[k - 2] == d[k - 2] && d[k - 2] in d;
    } else {
      assert msg[k - 2] == block[c] && msg[k - 1] == block[c + 1] && msg[k] == block[c + 2];
    }
  }

  predicate GoodSection(boundary: string, lines: seq<string>, body: string) {
    ValidBoundary(boundary) && (forall line <- lines :: GoodLine(line)) && !Contains(body, Delimiter(boundary))
  }

  lemma SectionRegrouped(d: string, block: string, body: string, end: string, rest: string)
    ensures d + block + body + end + rest == d + block + (body + end + rest)
  {
  }

  lemma OnlyAtStart(boundary: string, lines: seq<string>, body: string, rest: string, k: int)
    requires GoodSection(boundary, lines, body) && 0 < k < |Section(boundary, lines, body)|
    ensures !DelimiterAt(Section(boundary, lines, body) + rest, boundary, k)
  {
    hide QuietBlock, Block, Contains, ValidBoundary, OccursAt, NoBreak, GoodLine;
    var d, block := Delimiter(boundary), Block(lines);
    BoundaryHasNoBreak(boundary);
    BlockIsQuiet(lines);
    if k < |d| + |block| {
      NoDelimiterInHead(d, block, body + CRLF + rest, k);
      SectionRegrouped(d, block, body, CRLF, rest);
    } else {
      NoDelimiterInBody(d, d + block, body, rest, k);
    }
  }

  lemma OccursShift(a: string, b: string, marker: string, k: nat)
    ensures OccursAt(a + b, marker, |a| + k) <==> OccursAt(b, marker, k)
  {
    if k + |marker| <= |b| {
      assert (a + b)[|a| + k..|a| + k + |marker|] == b[k..k + |marker|];
    }
  }

  lemma BreakAtJoint(section: string, rest: string)
    requires |section| >= 2 && section[|section| - 2..] == CRLF && rest != [] && rest[0] == '-'
    ensures OccursAt(section + rest, CRLF, |section| - 2) && !OccursAt(section + rest, CRLF, |section| - 1)
  {
    var msg, n := section + rest, |section|;
    assert msg[n - 2..n] == section[n - 2..];
    OccursChar(msg, CRLF, n - 1, 1);
    assert msg[n] == '-';
  }

  /** After a section the delimiters are those of what follows it. */
  lemma Shift(section: string, rest: string, boundary: string, k: nat)
    requires |section| >= 2 && section[|section| - 2..] == CRLF && rest != [] && rest[0] == '-'
    ensures DelimiterAt(section + rest, boundary, |section| + k) <==> DelimiterAt(rest, boundary, k)
  {
    OccursShift(section, rest, Delimiter(boundary), k);
    BreakAtJoint(section, rest);
    if k >= 2 {
      OccursShift(section, rest, CRLF, k - 2);
    } else if k == 1 {
      assert !OccursAt(rest, CRLF, -1);
    }
    hide OccursAt;
  }

  // ---------- The built body ----------

  lemma SectionEnds(boundary: string, lines: seq<string>, body: string)
    ensures var s := Section(boundary, lines, body);
            |s| >= |Delimiter(boundary)| + 2 && s[|s| - 2..] == CRLF && s[0] == '-' && DelimiterAt(s, boundary, 0)
  {
    var s, d := Section(boundary, lines, body), Delimiter(boundary);
    assert s == d + (Block(lines) + body + CRLF);
    assert s[0..|d|] == d;
  }

  lemma ClosingDelimiters(boundary: string, k: nat)
    requires ValidBoundary(boundary)
    ensures DelimiterAt(Closing(boundary), boundary, k) <==> k == 0
    ensures OccursAt(Closing(boundary), ['-', '-'], |Delimiter(boundary)|)
  {
    var msg, d := Closing(boundary), Delimiter(boundary);
    BoundaryHasNoBreak(boundary);
    assert |d| >= 3;
    hide ValidBoundary, Delimiter;
    assert msg[0..|d|] == d && msg[|d|..|d| + 2] == ['-', '-'];
    if 2 <= k <= 4 {
      assert msg[k - 2..k][0] == d[k - 2] && d[k - 2] in d;
    }
  }

  /** A section followed by more: its own delimiter at the start, then those of what follows. */
  lemma SectionDelimiters(boundary: string, lines: seq<string>, body: string, rest: string, k: nat)
    requires GoodSection(boundary, lines, body) && rest != [] && rest[0] == '-'
    ensures var n := |Section(boundary, lines, body)|;
            DelimiterAt(Section(boundary, lines, body) + rest, boundary, k)
            <==> k == 0 || (k >= n && DelimiterAt(rest, boundary, k - n))
  {
    var s := Section(boundary, lines, body);
    SectionEnds(boundary, lines, body);
    hide Section, DelimiterAt, GoodSection;
    if k == 0 {
      FirstStays(s, rest, boundary);
    } else if k < |s| {
      OnlyAtStart(boundary, lines, body, rest, k);
    } else {
      Shift(s, rest, boundary, k - |s|);
    }
  }

  lemma FirstStays(s: string, rest: string, boundary: string)
    requires DelimiterAt(s, boundary, 0)
    ensures DelimiterAt(s + rest, boundary, 0)
  {
    var d := Delimiter(boundary);
    assert (s + rest)[0..|d|] == s[0..|d|];
  }

  /** The lines and bodies that the builder puts together. */
  predicate GoodParts(boundary: string, sdpId: string, locationId: string, sdp: string, location: string) {
    ValidBoundary(boundary) && ContentId(sdpId) && ContentId(locationId) && !Collides(boundary, sdp, location)
  }

  lemma SdpText()
    ensures NoBreak("application/sdp") && NoBreak(SDP_DISPOSITION)
  {
    Joined("session;", "handling=required");
  }

  lemma LocationText()
    ensures NoBreak("application/pidf+xml") && NoBreak(LOCATION_DISPOSITION)
  {
    Joined("by-reference;", "handling=optional");
  }

  lemma Joined(a: string, b: string)
    requires NoBreak(a) && NoBreak(b)
    ensures NoBreak(a + b)
  {
  }

  lemma PartsAreGood(boundary: string, sdpId: string, locationId: string, sdp: string, location: string)
    requires GoodParts(boundary, sdpId, locationId, sdp, location)
    ensures GoodSection(boundary, SdpLines(sdpId), sdp) && GoodSection(boundary, LocationLines(locationId), location)
  {
    SdpText();
    LocationText();
    hide HeaderLines, NoBreak, ContentId;
    LinesGood("application/sdp", sdpId, SDP_DISPOSITION);
    LinesGood("application/pidf+xml", locationId, LOCATION_DISPOSITION);
  }

  /** In a built body the delimiter begins a line exactly three times. */
  lemma ThreeDelimiters(boundary: string, sdpId: string, locationId: string, sdp: string, location: string, k: nat)
    requires GoodParts(boundary, sdpId, locationId, sdp, location)
    ensures var second := |Section(boundary, SdpLines(sdpId), sdp)|;
            var third := second + |Section(boundary, LocationLines(locationId), location)|;
            0 < second < third
            && (DelimiterAt(Body(boundary, sdpId, locationId, sdp, location), boundary, k) <==> k in {0, second, third})
  {
    var first, middle := Section(boundary, SdpLines(sdpId), sdp), Section(boundary, LocationLines(locationId), location);
    PartsAreGood(boundary, sdpId, locationId, sdp, location);
    SectionEnds(boundary, SdpLines(sdpId), sdp);
    SectionEnds(boundary, LocationLines(locationId), location);
    hide Section, DelimiterAt, GoodSection, SdpLines, LocationLines, ValidBoundary;
    SectionDelimiters(boundary, SdpLines(sdpId), sdp, middle + Closing(boundary), k);
    if k >= |first| {
      SectionDelimiters(boundary, LocationLines(locationId), location, Closing(boundary), k - |first|);
      if k - |first| >= |middle| {
        ClosingDelimiters(boundary, k - |first| - |middle|);
      }
    }
  }

  // ---------- Reading recovers the bodies ----------

  lemma {:induction false} NextIs(msg: string, boundary: string, k: nat, n: nat)
    requires k <= n <= |msg| && (n < |msg| ==> DelimiterAt(msg, boundary, n))
    requires forall j :: k <= j < n ==> !DelimiterAt(msg, boundary, j)
    ensures NextDelimiter(msg, boundary, k) == n
    decreases n - k
  {
    if k < n {
      NextIs(msg, boundary, k + 1, n);
    }
  }

  lemma {:induction false} BlankLineAt(s: string, n: nat)
    requires OccursAt(s, BLANK, n) && forall c :: 0 <= c < n ==> !OccursAt(s, BLANK, c)
    ensures BlankLine(s) == n
  {
    if n > 0 {
      var blank, t := BLANK, s[1..];
      assert t[n - 1..n + 3] == s[n..n + 4];
      forall c | 0 <= c < n - 1
        ensures !OccursAt(t, blank, c)
      {
        assert !OccursAt(s, blank, c + 1);
        assert t[c..c + 4] == s[c + 1..c + 5];
      }
      assert !OccursAt(s, blank, 0);
      BlankLineAt(t, n - 1);
    } else {
      assert s != [];
    }
  }

  lemma BlankLineOfBlock(h: string, body: string)
    requires QuietBlock(h)
    ensures BlankLine(h + body) == |h| - 4
  {
    var s, n := h + body, |h| - 4;
    assert s[n..n + 4] == h[n..];
    forall c | 0 <= c < n
      ensures !OccursAt(s, BLANK, c)
    {
      assert !OccursAt(h, BLANK, c);
      assert s[c..c + 4] == h[c..c + 4];
    }
    BlankLineAt(s, n);
  }

  function Front(lines: seq<string>): string {
    if lines == [] then [] else CRLF + lines[0] + Front(lines[1..])
  }

  lemma {:induction false} BlockIsFront(lines: seq<string>)
    ensures Block(lines) == Front(lines) + BLANK
  {
    if lines != [] {
      BlockIsFront(lines[1..]);
    }
  }

  lemma LineEnds(line: string, rest: string)
    requires GoodLine(line) && (rest == [] || rest[0] == '\r')
    ensures IndexOf(line + rest, '\r') == |line| && (line + rest)[..|line|] == line && (line + rest)[|line|..] == rest
  {
    if rest == [] {
      IndexAbsent(line, '\r');
      assert line + rest == line;
    } else {
      IndexAfter(line, '\r', rest[1..]);
      assert line + ['\r'] + rest[1..] == line + rest;
    }
  }

  lemma {:induction false} LinesRead(lines: seq<string>)
    requires forall line <- lines :: GoodLine(line)
    ensures LinesOf(Front(lines)) == lines
  {
    hide GoodLine, IndexOf;
    if lines != [] {
      assert lines[0] in lines;
      var rest := Front(lines[1..]);
      LineEnds(lines[0], rest);
      assert Front(lines)[..2] == CRLF && Front(lines)[2..] == lines[0] + rest;
      LinesRead(lines[1..]);
    }
  }

  /** A header block followed by a body reads as its lines and the body. */
  lemma ReadsAsWritten(lines: seq<string>, body: string)
    requires forall line <- lines :: GoodLine(line)
    ensures ReadOne(Block(lines) + body) == ReadPart(lines, body)
  {
    hide Block, GoodLine, BlankLine, LinesOf;
    BlockIsQuiet(lines);
    BlankLineOfBlock(Block(lines), body);
    BlockIsFront(lines);
    LinesRead(lines);
    assert (Block(lines) + body)[|Block(lines)|..] == body;
    assert (Block(lines) + body)[..|Front(lines)|] == Front(lines);
  }

  lemma Slices(d: string, h: string, body: string, end: string, rest: string)
    requires h != []
    ensures var msg := d + h + body + end + rest;
            && msg[|d|..|d| + |h| + |body|] == h + body && msg[|d| + |h| + |body| + |end|..] == rest && msg[|d|] == h[0]
  {
    var msg := d + h + body + end + rest;
    assert msg == d + ((h + body) + (end + rest));
    assert msg[|d|..] == (h + body) + (end + rest);
    assert msg[|d|..][..|h + body|] == h + body;
  }

  lemma BlockStarts(lines: seq<string>)
    ensures Block(lines) != [] && Block(lines)[0] == '\r'
  {
  }

  lemma SectionSlices(boundary: string, lines: seq<string>, body: string, rest: string)
    ensures var s, d := Section(boundary, lines, body), |Delimiter(boundary)|;
            |s| >= d + 2 && (s + rest)[d..|s| - 2] == Block(lines) + body && (s + rest)[|s|..] == rest && (s + rest)[d] == '\r'
  {
    hide Block, Delimiter;
    BlockStarts(lines);
    Slices(Delimiter(boundary), Block(lines), body, CRLF, rest);
  }

  /** The delimiters of a section are followed by its header block, and end where the next part begins. */
  lemma SectionExtent(boundary: string, lines: seq<string>, body: string, rest: string)
    requires GoodSection(boundary, lines, body) && rest != [] && DelimiterAt(rest, boundary, 0)
    ensures var msg, n, d := Section(boundary, lines, body) + rest, |Section(boundary, lines, body)|, |Delimiter(boundary)|;
            && DelimiterAt(msg, boundary, 0) && NextDelimiter(msg, boundary, 1) == n
            && !OccursAt(msg, ['-', '-'], d) && n >= d + 2
            && msg[d..n - 2] == Block(lines) + body && msg[n..] == rest
  {
    var s, d := Section(boundary, lines, body), Delimiter(boundary);
    var msg, n := s + rest, |s|;
    SectionSlices(boundary, lines, body, rest);
    hide Section, QuietBlock, Block, GoodSection;
    OccursMeans(msg, ['-', '-'], |d|);
    assert rest[0] == '-' by {
      OccursMeans(rest, d, 0);
    }
    hide DelimiterAt, Delimiter;
    forall k: nat
      ensures DelimiterAt(msg, boundary, k) <==> k == 0 || (k >= n && DelimiterAt(rest, boundary, k - n))
    {
      SectionDelimiters(boundary, lines, body, rest, k);
    }
    NextIs(msg, boundary, 1, n);
  }

  lemma Unfolded(msg: string, boundary: string, next: nat)
    requires DelimiterAt(msg, boundary, 0) && !OccursAt(msg, ['-', '-'], |Delimiter(boundary)|) && 1 <= |msg|
    requires NextDelimiter(msg, boundary, 1) == next >= |Delimiter(boundary)| + 2
    ensures ReadParts(msg, boundary) == [ReadOne(msg[|Delimiter(boundary)|..next - 2])] + ReadParts(msg[next..], boundary)
  {
    hide DelimiterAt, ReadOne, Delimiter, NextDelimiter, OccursAt;
  }

  /** Reading a section and what follows gives its lines and body first. */
  lemma ReadSection(boundary: string, lines: seq<string>, body: string, rest: string)
    requires GoodSection(boundary, lines, body) && rest != [] && DelimiterAt(rest, boundary, 0)
    ensures ReadParts(Section(boundary, lines, body) + rest, boundary) == [ReadPart(lines, body)] + ReadParts(rest, boundary)
  {
    hide Section, DelimiterAt, Block, ReadOne, Delimiter, NextDelimiter, OccursAt, GoodLine, ValidBoundary, Contains;
    SectionExtent(boundary, lines, body, rest);
    ReadsAsWritten(lines, body);
    Unfolded(Section(boundary, lines, body) + rest, boundary, |Section(boundary, lines, body)|);
  }

  /** What a reader is to find: the SDP and the location, each under its type, identifier and disposition. */
  function Expected(sdpId: string, locationId: string, sdp: string, location: string): seq<ReadPart> {
    [ReadPart(["Content-Type: " + "application/sdp", "Content-ID: <" + sdpId + ">", "Content-Disposition: " + ("session;" + "handling=required")], sdp),
     ReadPart(["Content-Type: " + "application/pidf+xml", "Content-ID: <" + locationId + ">", "Content-Disposition: " + ("by-reference;" + "handling=optional")], location)]
  }

  lemma LinesAsExpected(sdpId: string, locationId: string, sdp: string, location: string)
    ensures Expected(sdpId, locationId, sdp, location) == [ReadPart(SdpLines(sdpId), sdp), ReadPart(LocationLines(locationId), location)]
  {
  }

  /** Splitting a built body at its delimiters recovers both parts, with their types and identifiers, unchanged. */
  lemma ReadUndoesBuild(boundary: string, sdpId: string, locationId: string, sdp: string, location: string)
    requires GoodParts(boundary, sdpId, locationId, sdp, location)
    ensures ReadParts(Body(boundary, sdpId, locationId, sdp, location), boundary) == Expected(sdpId, locationId, sdp, location)
  {
    PartsAreGood(boundary, sdpId, locationId, sdp, location);
    SectionEnds(boundary, LocationLines(locationId), location);
    ClosingDelimiters(boundary, 0);
    hide Section, DelimiterAt, GoodSection, SdpLines, LocationLines, ValidBoundary, Closing;
    var middle := Section(boundary, LocationLines(locationId), location);
    FirstStays(middle, Closing(boundary), boundary);
    ReadSection(boundary, SdpLines(sdpId), sdp, middle + Closing(boundary));
    ClosingNotEmpty(boundary);
    ReadSection(boundary, LocationLines(locationId), location, Closing(boundary));
    assert ReadParts(Closing(boundary), boundary) == [];
    LinesAsExpected(sdpId, locationId, sdp, location);
    hide Expected;
    var a, b := ReadPart(SdpLines(sdpId), sdp), ReadPart(LocationLines(locationId), location);
    assert [a] + ([b] + []) == [a, b];
  }

  lemma ClosingNotEmpty(boundary: string)
    ensures Closing(boundary) != [] && Closing(boundary)[0] == '-'
  {
  }

  // ---------- Building ----------

  method BoundaryFor(cfg: Config, sdp: string, location: string) returns (boundary: string)
    ensures Chosen(cfg, sdp, location, boundary)
    ensures TrimSpace(cfg.boundary) == [] ==> !Collides(boundary, sdp, location)
    ensures TrimSpace(cfg.boundary) == [] && |sdp| + |location| + 1 < Pow10(ROOM) ==> ValidBoundary(boundary)
  {
    boundary := TrimSpace(cfg.boundary);
    if boundary == [] {
      hide Collides, Pow10, Candidate, ValidBoundary;
      ghost var n;
      boundary, n := ChooseBoundary(sdp, location);
      if n < Pow10(ROOM) {
        CandidateIsValid(n);
      }
    }
  }

  lemma ChosenIsUnique(cfg: Config, sdp: string, location: string, b: string, c: string)
    requires Chosen(cfg, sdp, location, b) && Chosen(cfg, sdp, location, c)
    ensures b == c
  {
    hide Collides, Candidate, TrimSpace;
  }

  /** The message's boundary is the chosen one, and its body has both parts under their identifiers. */
  ghost predicate IsMessage(m: Message, sdp: string, location: string, cfg: Config) {
    && UsableIds(cfg) && Chosen(cfg, sdp, location, m.boundary)
    && m.start == NormalizeContentId(cfg.sdpId, "sdp").value
    && m.body == Body(m.boundary, m.start, NormalizeContentId(cfg.locationId, "location-1").value, sdp, location)
  }

  /** Exactly when the body can be built, and that a reader then recovers both payloads from it. */
  method Build(sdp: string, location: string, cfg: Config) returns (r: Result<Message, Error>)
    ensures forall b :: Chosen(cfg, sdp, location, b) ==>
              (r.Ok? <==> location != [] && UsableIds(cfg) && ValidBoundary(b) && !Collides(b, sdp, location))
    ensures TrimSpace(cfg.boundary) == [] && |sdp| + |location| + 1 < Pow10(ROOM) ==> (r.Ok? <==> location != [] && UsableIds(cfg))
    ensures r.Ok? ==> IsMessage(r.value, sdp, location, cfg)
    ensures r.Ok? ==> ReadParts(r.value.body, r.value.boundary) == Expected(r.value.start, NormalizeContentId(cfg.locationId, "location-1").value, sdp, location)
  {
    hide Chosen, Collides, ValidBoundary, ReadParts, Expected, Section, Closing, NormalizeContentId, Pow10, TrimSpace, ToLower;
    if location == [] {
      return Err(NoLocation);
    }
    var sdpId := NormalizeContentId(cfg.sdpId, "sdp");
    var locationId := NormalizeContentId(cfg.locationId, "location-1");
    if sdpId.Err? || locationId.Err? {
      return Err(BadContentId);
    }
    if ToLower(sdpId.value) == ToLower(locationId.value) {
      return Err(SameContentId);
    }
    var boundary := BoundaryFor(cfg, sdp, location);
    forall b | Chosen(cfg, sdp, location, b)
      ensures b == boundary
    {
      ChosenIsUnique(cfg, sdp, location, b, boundary);
    }
    if !ValidBoundary(boundary) {
      return Err(BadBoundary);
    }
    if Collides(boundary, sdp, location) {
      return Err(BoundaryCollides);
    }
    var body := Section(boundary, SdpLines(sdpId.value), sdp);
    body := body + (Section(boundary, LocationLines(locationId.value), location) + Closing(boundary));
    ReadUndoesBuild(boundary, sdpId.value, locationId.value, sdp, location);
    return Ok(Message(boundary, sdpId.value, body));
  }
}
