/**
 Collecting the parts of concatenated messages in a bounded table whose sets expire, and assembling
 a message once its last missing part arrives.
 */
module Reassembly {
  import opened Wrappers
  import opened Runes
  import opened Text
  import opened Finite

  const TTL := 600_000_000_000
  const MAX_SETS := 64

  /** Nanoseconds; zero is the zero time, which stands for "not set". */
  type Time = int

  datatype Info = Info(isConcat: bool, ref: int, refBits: int, total: int, seqNo: int)

  datatype Key = Key(sender: string, recipient: string, ref: int, refBits: int, total: int)

  /** The TPDU fields that are copied together from one part. */
  datatype Fields = Fields(protocolId: byte, dataCodingScheme: byte, userDataHeader: bool, headerInfo: seq<byte>,
                           moreMessages: bool, statusReport: bool, replyPath: bool)

  datatype Message = Message(sender: string, recipient: string, content: seq<byte>, timestamp: Time, fields: Fields)

  datatype PartSet = PartSet(parts: map<int, seq<byte>>, timestamp: Time, fields: Fields, firstSeen: Time, updatedAt: Time)

  type Table = map<Key, PartSet>

  predicate ValidInfo(c: Info) {
    c.isConcat && c.total > 1 && 1 <= c.seqNo <= c.total && (c.refBits == 8 || c.refBits == 16)
  }

  function KeyFor(m: Message, c: Info): Key {
    Key(TrimSpace(m.sender), TrimSpace(m.recipient), c.ref, c.refBits, c.total)
  }

  // ---------- One delivery, as a relation between tables ----------

  function LastTouched(s: PartSet): Time {
    if s.updatedAt == 0 then s.firstSeen else s.updatedAt
  }

  predicate Expired(s: PartSet, now: Time) {
    LastTouched(s) == 0 || now - LastTouched(s) > TTL
  }

  function Live(t: Table, now: Time): Table {
    map k | k in t && !Expired(t[k], now) :: t[k]
  }

  predicate Oldest(t: Table, k: Key) {
    k in t && forall other <- t :: LastTouched(t[k]) <= LastTouched(t[other])
  }

  /** Room for the key: a full table gives up one of its least recently touched sets. */
  predicate MakesRoom(t: Table, key: Key, t': Table) {
    if key in t || |t| < MAX_SETS then t' == t
    else exists victim <- t :: Oldest(t, victim) && t' == t - {victim}
  }

  function Absorb(s: PartSet, m: Message, seqNo: int, now: Time): PartSet {
    PartSet(
      if seqNo in s.parts then s.parts else s.parts[seqNo := m.content],
      if m.timestamp != 0 && (s.timestamp == 0 || seqNo == 1) then m.timestamp else s.timestamp,
      if seqNo == 1 || s.parts == map[] then m.fields else s.fields,
      s.firstSeen,
      now)
  }

  function Touched(t: Table, key: Key, m: Message, c: Info, now: Time): PartSet {
    var s := if key in t then t[key] else PartSet(map[], 0, m.fields, now, 0);
    Absorb(s, m, c.seqNo, now)
  }

  /** The parts from one number to the last, in order. */
  function Assembled(parts: map<int, seq<byte>>, from: int, total: int): seq<byte>
    requires forall i :: from <= i <= total ==> i in parts
    decreases total - from
  {
    if from > total then [] else parts[from] + Assembled(parts, from + 1, total)
  }

  predicate Complete(parts: map<int, seq<byte>>, total: int) {
    forall i :: 1 <= i <= total ==> i in parts
  }

  function Ready(m: Message, s: PartSet, total: int): Message
    requires Complete(s.parts, total)
  {
    m.(content := Assembled(s.parts, 1, total),
       timestamp := if s.timestamp != 0 then s.timestamp else m.timestamp,
       fields := s.fields)
  }

  predicate Stored(t: Table, key: Key, m: Message, c: Info, now: Time, t': Table, out: Option<Message>) {
    var s := Touched(t, key, m, c, now);
    if |s.parts| < c.total then t' == t[key := s] && out == None
    else Complete(s.parts, c.total) && t' == t - {key} && out == Some(Ready(m, s, c.total))
  }

  /** One call for the set of the given key: expired sets go, room is made, and the part is stored or completes its set. */
  ghost predicate Step(t: Table, key: Key, m: Message, c: Info, now: Time, t': Table, out: Option<Message>) {
    if !ValidInfo(c) then t' == t && out == Some(m)
    else exists roomy :: MakesRoom(Live(t, now), key, roomy) && Stored(roomy, key, m, c, now, t', out)
  }

  // ---------- What every reachable table satisfies ----------

  /** A set's part numbers lie in 1..total, and at least one part is still missing. */
  predicate ValidSet(k: Key, s: PartSet) {
    && 1 < k.total && s.updatedAt != 0
    && (forall i <- s.parts :: 1 <= i <= k.total)
    && 0 < |s.parts| < k.total
  }

  predicate ValidTable(t: Table) {
    |t| <= MAX_SETS && forall k <- t :: ValidSet(k, t[k])
  }

  /** As many parts as the total, all within 1..total, are all of them. */
  lemma AllPresent(parts: map<int, seq<byte>>, total: nat)
    requires forall i <- parts :: 1 <= i <= total
    ensures |parts| <= total
    ensures |parts| == total <==> Complete(parts, total)
    ensures parts.Keys == Range(total) <==> Complete(parts, total)
  {
    var keys, all := parts.Keys, Range(total);
    assert |parts| == |keys|;
    SubsetSize(keys, all);
    if Complete(parts, total) {
      assert keys == all;
      assert |keys| == |all|;
    }
  }

  /** A part that has come already keeps its text: a later copy changes nothing but the time of the set. */
  lemma FirstCopyStays(t: Table, key: Key, m: Message, c: Info, now: Time, i: int)
    requires key in t && i in t[key].parts
    ensures var s := Touched(t, key, m, c, now); i in s.parts && s.parts[i] == t[key].parts[i] && s.updatedAt == now
  {
  }

  lemma LiveIsValid(t: Table, now: Time)
    requires ValidTable(t)
    ensures ValidTable(Live(t, now))
  {
    assert Live(t, now).Keys <= t.Keys;
    SubsetSize(Live(t, now).Keys, t.Keys);
  }

  lemma RemoveSize(t: Table, k: Key)
    ensures |t - {k}| == if k in t then |t| - 1 else |t|
  {
    assert (t - {k}).Keys == t.Keys - {k};
  }

  lemma RoomIsValid(t: Table, key: Key, t': Table)
    requires ValidTable(t) && MakesRoom(t, key, t')
    ensures ValidTable(t') && (key in t' || |t'| < MAX_SETS) && (key in t <==> key in t')
  {
    if key !in t && |t| >= MAX_SETS {
      var victim :| victim in t && Oldest(t, victim) && t' == t - {victim};
      RemoveSize(t, victim);
    }
  }

  lemma TouchedIsValid(t: Table, key: Key, m: Message, c: Info, now: Time)
    requires ValidTable(t) && ValidInfo(c) && now != 0 && key.total == c.total
    ensures var s := Touched(t, key, m, c, now);
            (forall i <- s.parts :: 1 <= i <= c.total) && 0 < |s.parts| <= c.total && s.updatedAt != 0
            && (|s.parts| == c.total <==> Complete(s.parts, c.total))
  {
    AllPresent(Touched(t, key, m, c, now).parts, c.total);
  }

  lemma StoredIsValid(t: Table, key: Key, m: Message, c: Info, now: Time, t': Table, out: Option<Message>)
    requires ValidTable(t) && ValidInfo(c) && now != 0 && key.total == c.total && (key in t || |t| < MAX_SETS)
    requires Stored(t, key, m, c, now, t', out)
    ensures ValidTable(t')
  {
    TouchedIsValid(t, key, m, c, now);
    RemoveSize(t, key);
    assert t[key := Touched(t, key, m, c, now)].Keys == t.Keys + {key};
  }

  /** Every delivery keeps the table bounded and its sets incomplete. */
  lemma StepKeepsTableValid(t: Table, m: Message, c: Info, now: Time, t': Table, out: Option<Message>)
    requires ValidTable(t) && now != 0 && Step(t, KeyFor(m, c), m, c, now, t', out)
    ensures ValidTable(t') && |t'| <= 64
  {
    if ValidInfo(c) {
      var key := KeyFor(m, c);
      LiveIsValid(t, now);
      var roomy :| MakesRoom(Live(t, now), key, roomy) && Stored(roomy, key, m, c, now, t', out);
      RoomIsValid(Live(t, now), key, roomy);
      StoredIsValid(roomy, key, m, c, now, t', out);
    }
  }

  // ---------- The service ----------

  class Service {
    var smsConcat: Table

    constructor ()
      ensures smsConcat == map[] && ValidTable(smsConcat)
    {
      smsConcat := map[];
    }

    method CleanupExpired(now: Time)
      modifies this
      ensures smsConcat == Live(old(smsConcat), now)
    {
      var pending := smsConcat.Keys;
      while pending != {}
        invariant pending <= old(smsConcat).Keys
        invariant smsConcat == map k | k in old(smsConcat) && (k in pending || !Expired(old(smsConcat)[k], now)) :: old(smsConcat)[k]
        decreases |pending|
      {
        var k :| k in pending;
        pending := pending - {k};
        if Expired(smsConcat[k], now) {
          smsConcat := smsConcat - {k};
        }
      }
    }

    method EvictOldest()
      requires smsConcat != map[]
      modifies this
      ensures exists victim <- old(smsConcat) :: Oldest(old(smsConcat), victim) && smsConcat == old(smsConcat) - {victim}
    {
      var pending := smsConcat.Keys;
      var oldest: Option<Key> := None;
      while pending != {}
        invariant pending <= smsConcat.Keys && smsConcat == old(smsConcat)
        invariant oldest.None? ==> pending == smsConcat.Keys
        invariant oldest.Some? ==> oldest.value in smsConcat
        invariant oldest.Some? ==>
                    forall k <- smsConcat.Keys - pending :: LastTouched(smsConcat[oldest.value]) <= LastTouched(smsConcat[k])
        decreases |pending|
      {
        var k :| k in pending;
        pending := pending - {k};
        if oldest.None? || LastTouched(smsConcat[k]) < LastTouched(smsConcat[oldest.value]) {
          oldest := Some(k);
        }
      }
      assert smsConcat.Keys - pending == smsConcat.Keys;
      assert Oldest(smsConcat, oldest.value);
      smsConcat := smsConcat - {oldest.value};
    }

    /** Stores one part, or returns the assembled message when the part completes its set. */
    method Collect(m: Message, c: Info, now: Time) returns (out: Option<Message>)
      requires ValidTable(smsConcat) && now != 0
      modifies this
      ensures ValidTable(smsConcat)
      ensures Step(old(smsConcat), KeyFor(m, c), m, c, now, smsConcat, out)
    {
      if !ValidInfo(c) {
        return Some(m);
      }
      var key := KeyFor(m, c);
      CleanupExpired(now);
      LiveIsValid(old(smsConcat), now);
      ghost var live := smsConcat;
      if key !in smsConcat && |smsConcat| >= MAX_SETS {
        EvictOldest();
      }
      ghost var roomy := smsConcat;
      assert MakesRoom(live, key, roomy);
      RoomIsValid(live, key, roomy);
      out := Store(key, m, c, now);
      StoredIsValid(roomy, key, m, c, now, smsConcat, out);
    }

    method Store(key: Key, m: Message, c: Info, now: Time) returns (out: Option<Message>)
      requires ValidTable(smsConcat) && ValidInfo(c) && now != 0 && key.total == c.total
      modifies this
      ensures Stored(old(smsConcat), key, m, c, now, smsConcat, out)
    {
      TouchedIsValid(smsConcat, key, m, c, now);
      var s := if key in smsConcat then smsConcat[key] else PartSet(map[], 0, m.fields, now, 0);
      s := Absorb(s, m, c.seqNo, now);
      smsConcat := smsConcat[key := s];
      if |s.parts| < c.total {
        return None;
      }
      var content := AssembleParts(s.parts, c.total);
      smsConcat := smsConcat - {key};
      assert smsConcat == old(smsConcat) - {key};
      return Some(m.(content := content, timestamp := if s.timestamp != 0 then s.timestamp else m.timestamp, fields := s.fields));
    }
  }

  /** The assembly loop; by the table invariant no part is missing when it runs. */
  method AssembleParts(parts: map<int, seq<byte>>, total: int) returns (content: seq<byte>)
    requires total >= 1 && Complete(parts, total)
    ensures content == Assembled(parts, 1, total)
  {
    content := [];
    for seqNo := 1 to total + 1
      invariant content + Assembled(parts, seqNo, total) == Assembled(parts, 1, total)
    {
      content := content + parts[seqNo];
    }
  }
}
