/**
 Segmentation followed by reassembly: whatever the order, duplication and interleaving of the
 deliveries, the message comes back exactly when its last missing part arrives.
 */
module SmsRoundTrip {
  import opened Wrappers
  import opened Runes
  import opened Reassembly
  import opened Finite
  import Segmentation
  import Chunking
  import Udh

  /** A delivered part, with the key of the set it belongs to. */
  datatype Event = Event(key: Key, m: Message, c: Info, now: Time)

  ghost predicate EventStep(t: Table, e: Event, t': Table, out: Option<Message>) {
    Step(t, e.key, e.m, e.c, e.now, t', out)
  }

  /** A whole run: the table before each delivery and after the last, and what each delivery returned. */
  ghost predicate IsRun(tables: seq<Table>, events: seq<Event>, outs: seq<Option<Message>>) {
    && |tables| == |events| + 1 && |outs| == |events|
    && forall i :: 0 <= i < |events| ==> EventStep(tables[i], events[i], tables[i + 1], outs[i])
  }

  ghost predicate Keyed(events: seq<Event>) {
    forall e <- events :: e.key == KeyFor(e.m, e.c)
  }

  predicate Concerns(e: Event, key: Key) {
    ValidInfo(e.c) && e.key == key
  }

  predicate FirstPart(e: Event, key: Key) {
    Concerns(e, key) && e.c.seqNo == 1
  }

  predicate StampedFirstPart(e: Event, key: Key) {
    FirstPart(e, key) && e.m.timestamp != 0
  }

  /** The part numbers of one set that have been delivered. */
  function Seen(events: seq<Event>, key: Key): set<int> {
    if events == [] then {}
    else
      var e := events[|events| - 1];
      Seen(events[..|events| - 1], key) + (if Concerns(e, key) then {e.c.seqNo} else {})
  }

  /** The latest copy of part one, and the latest one that carries a time. */
  function LatestFirst(events: seq<Event>, key: Key): Option<Message> {
    if events == [] then None
    else if FirstPart(events[|events| - 1], key) then Some(events[|events| - 1].m)
    else LatestFirst(events[..|events| - 1], key)
  }

  function LatestStamped(events: seq<Event>, key: Key): Option<Message> {
    if events == [] then None
    else if StampedFirstPart(events[|events| - 1], key) then Some(events[|events| - 1].m)
    else LatestStamped(events[..|events| - 1], key)
  }

  /** The first delivery of the set that carries a time. */
  function FirstStamped(events: seq<Event>, key: Key): Option<Message> {
    if events == [] then None
    else
      var e, before := events[|events| - 1], FirstStamped(events[..|events| - 1], key);
      if before.Some? then before else if Concerns(e, key) && e.m.timestamp != 0 then Some(e.m) else None
  }

  /** The time of the latest stamped copy of part one, else of the first stamped part, else none. */
  function HeadTime(events: seq<Event>, key: Key): Time {
    if LatestStamped(events, key).Some? then LatestStamped(events, key).value.timestamp
    else if FirstStamped(events, key).Some? then FirstStamped(events, key).value.timestamp
    else 0
  }

  /** The set has not expired, and the table has room for the set the delivery belongs to. */
  predicate Undisturbed(t: Table, e: Event, key: Key) {
    && (key in t ==> !Expired(t[key], e.now))
    && (ValidInfo(e.c) ==> e.key in Live(t, e.now) || |Live(t, e.now)| < MAX_SETS)
  }

  predicate Copy(e: Event, contents: seq<seq<byte>>)
    requires ValidInfo(e.c)
  {
    e.c.total == |contents| && e.m.content == contents[e.c.seqNo - 1]
  }

  /** Deliveries of the set are copies of its parts. */
  predicate Copies(events: seq<Event>, key: Key, contents: seq<seq<byte>>) {
    |contents| == key.total && forall e <- events :: Concerns(e, key) ==> Copy(e, contents)
  }

  /** Fields and time are those of the latest copy of part one, if one has come; failing that, the time is the first that came. */
  predicate HeadedByFirst(fields: Fields, timestamp: Time, events: seq<Event>, key: Key) {
    var first := LatestFirst(events, key);
    (first.Some? ==> fields == first.value.fields) && timestamp == HeadTime(events, key)
  }

  /** A set holds exactly the parts delivered so far, under the header of part one. */
  predicate Holds(s: PartSet, events: seq<Event>, key: Key, contents: seq<seq<byte>>) {
    && s.parts.Keys == Seen(events, key)
    && (forall i <- s.parts :: 1 <= i <= |contents| && s.parts[i] == contents[i - 1])
    && HeadedByFirst(s.fields, s.timestamp, events, key)
  }

  /** The table holds, for the set, exactly the parts delivered so far. */
  predicate Gathered(t: Table, events: seq<Event>, key: Key, contents: seq<seq<byte>>) {
    && (key in t <==> Seen(events, key) != {})
    && (key in t ==> Holds(t[key], events, key, contents))
  }

  /** What the completing delivery returns. */
  predicate IsWhole(out: Option<Message>, events: seq<Event>, key: Key, contents: seq<seq<byte>>) {
    && out.Some? && out.value.content == Flatten(contents) && HeadedByFirst(out.value.fields, out.value.timestamp, events, key)
    && events != [] && out.value.sender == events[|events| - 1].m.sender && out.value.recipient == events[|events| - 1].m.recipient
  }

  lemma Grows(events: seq<Event>, e: Event, key: Key)
    ensures Seen(events + [e], key) == Seen(events, key) + (if Concerns(e, key) then {e.c.seqNo} else {})
    ensures LatestFirst(events + [e], key) == if FirstPart(e, key) then Some(e.m) else LatestFirst(events, key)
    ensures LatestStamped(events + [e], key) == if StampedFirstPart(e, key) then Some(e.m) else LatestStamped(events, key)
    ensures FirstStamped(events + [e], key)
            == if FirstStamped(events, key).Some? then FirstStamped(events, key)
               else if Concerns(e, key) && e.m.timestamp != 0 then Some(e.m) else None
  {
    assert (events + [e])[..|events|] == events;
  }

  lemma {:induction false} StampsAreSet(events: seq<Event>, key: Key)
    ensures LatestStamped(events, key).Some? ==> LatestStamped(events, key).value.timestamp != 0
    ensures FirstStamped(events, key).Some? ==> FirstStamped(events, key).value.timestamp != 0
    ensures LatestStamped(events, key).Some? ==> FirstStamped(events, key).Some?
  {
    if events != [] {
      StampsAreSet(events[..|events| - 1], key);
    }
  }

  /** A set that has all its parts keeps them. */
  lemma NotFullBefore(events: seq<Event>, e: Event, key: Key)
    requires key.total >= 0 && (Concerns(e, key) ==> e.c.total == key.total)
    requires Seen(events + [e], key) != Range(key.total)
    ensures Seen(events, key) != Range(key.total)
  {
    Grows(events, e, key);
  }

  lemma {:induction false} NothingFirst(events: seq<Event>, key: Key)
    requires Seen(events, key) == {}
    ensures LatestFirst(events, key) == None && LatestStamped(events, key) == None && FirstStamped(events, key) == None
  {
    if events != [] {
      var e := events[|events| - 1];
      assert Concerns(e, key) ==> e.c.seqNo in Seen(events, key);
      NothingFirst(events[..|events| - 1], key);
    }
  }

  lemma {:induction false} AssembledIsFlat(parts: map<int, seq<byte>>, from: int, contents: seq<seq<byte>>)
    requires 1 <= from <= |contents| + 1
    requires forall i :: from <= i <= |contents| ==> i in parts && parts[i] == contents[i - 1]
    ensures Assembled(parts, from, |contents|) == Flatten(contents[from - 1..])
    decreases |contents| - from
  {
    if from <= |contents| {
      AssembledIsFlat(parts, from + 1, contents);
      assert contents[from - 1..][1..] == contents[from..];
    }
  }

  lemma OthersLeave(events: seq<Event>, e: Event, key: Key)
    requires !Concerns(e, key)
    ensures Seen(events + [e], key) == Seen(events, key) && LatestFirst(events + [e], key) == LatestFirst(events, key)
    ensures HeadTime(events + [e], key) == HeadTime(events, key)
  {
    hide Seen, LatestFirst, LatestStamped, FirstStamped;
    Grows(events, e, key);
  }

  lemma OtherKeyStays(t: Table, e: Event, t': Table, out: Option<Message>, key: Key)
    requires EventStep(t, e, t', out) && !Concerns(e, key) && Undisturbed(t, e, key)
    ensures (key in t <==> key in t') && (key in t ==> t'[key] == t[key])
  {
    var live := Live(t, e.now);
    assert key in t <==> key in live;
    assert key in t ==> live[key] == t[key];
  }

  /** A delivery to another set leaves this one as it is. */
  lemma OtherDelivery(t: Table, events: seq<Event>, e: Event, t': Table, out: Option<Message>, key: Key, contents: seq<seq<byte>>)
    requires Gathered(t, events, key, contents) && Undisturbed(t, e, key)
    requires EventStep(t, e, t', out) && !Concerns(e, key)
    ensures Gathered(t', events + [e], key, contents)
  {
    hide Seen, LatestFirst, HeadTime, EventStep, Undisturbed, Concerns;
    OthersLeave(events, e, key);
    OtherKeyStays(t, e, t', out, key);
  }

  lemma AbsorbGathers(t: Table, events: seq<Event>, e: Event, key: Key, contents: seq<seq<byte>>)
    requires Gathered(t, events, key, contents) && Concerns(e, key)
    requires |contents| == key.total && Copy(e, contents)
    ensures Holds(Touched(t, key, e.m, e.c, e.now), events + [e], key, contents)
  {
    Grows(events, e, key);
    StampsAreSet(events, key);
    if key !in t {
      NothingFirst(events, key);
    }
  }

  /** A delivery to the set adds its part, and returns the whole message exactly when none is missing any more. */
  lemma OwnDelivery(t: Table, events: seq<Event>, e: Event, t': Table, out: Option<Message>, key: Key, contents: seq<seq<byte>>)
    requires Gathered(t, events, key, contents) && Undisturbed(t, e, key)
    requires EventStep(t, e, t', out) && Concerns(e, key)
    requires |contents| == key.total && Copy(e, contents)
    ensures if Seen(events + [e], key) == Range(key.total)
            then IsWhole(out, events + [e], key, contents) && key !in t'
            else out == None && Gathered(t', events + [e], key, contents)
  {
    var live := Live(t, e.now);
    assert key in t <==> key in live;
    assert key in t ==> live[key] == t[key];
    AbsorbGathers(live, events, e, key, contents);
    if Seen(events + [e], key) == Range(key.total) {
      StoreCompletes(live, events + [e], e, t', out, key, contents);
    } else {
      StoreKeeps(live, events + [e], e, t', out, key, contents);
    }
  }

  lemma NoTimeAtAll(events: seq<Event>, e: Event, key: Key)
    requires events != [] && events[|events| - 1] == e && Concerns(e, key)
    ensures HeadTime(events, key) == 0 ==> e.m.timestamp == 0
  {
    hide Seen, LatestFirst;
    StampsAreSet(events, key);
  }

  lemma StoreCompletes(t: Table, events: seq<Event>, e: Event, t': Table, out: Option<Message>, key: Key, contents: seq<seq<byte>>)
    requires Holds(Touched(t, key, e.m, e.c, e.now), events, key, contents) && Seen(events, key) == Range(|contents|)
    requires events != [] && events[|events| - 1] == e && Concerns(e, key)
    requires Stored(t, key, e.m, e.c, e.now, t', out) && |contents| == e.c.total
    ensures IsWhole(out, events, key, contents) && key !in t'
  {
    hide Seen, LatestFirst, HeadTime, Touched;
    var s := Touched(t, key, e.m, e.c, e.now);
    AllPresent(s.parts, |contents|);
    AssembledIsFlat(s.parts, 1, contents);
    assert contents[0..] == contents;
    NoTimeAtAll(events, e, key);
  }

  lemma StoreKeeps(t: Table, events: seq<Event>, e: Event, t': Table, out: Option<Message>, key: Key, contents: seq<seq<byte>>)
    requires Holds(Touched(t, key, e.m, e.c, e.now), events, key, contents) && Seen(events, key) != Range(|contents|)
    requires Stored(t, key, e.m, e.c, e.now, t', out) && |contents| == e.c.total
    ensures out == None && Gathered(t', events, key, contents)
  {
    var s := Touched(t, key, e.m, e.c, e.now);
    AllPresent(s.parts, |contents|);
    assert e.c.seqNo in s.parts;
  }

  lemma NothingGathered(t: Table, key: Key, contents: seq<seq<byte>>)
    requires key !in t
    ensures Gathered(t, [], key, contents)
  {
  }

  lemma {:induction false} GatheredAlongRun(tables: seq<Table>, events: seq<Event>, outs: seq<Option<Message>>, key: Key, contents: seq<seq<byte>>, n: nat)
    requires IsRun(tables, events, outs) && n <= |events| && key !in tables[0]
    requires Copies(events, key, contents)
    requires forall i :: 0 <= i < n ==> Undisturbed(tables[i], events[i], key)
    requires Seen(events[..n], key) != Range(key.total)
    ensures Gathered(tables[n], events[..n], key, contents)
    ensures forall i :: 0 <= i < n && Concerns(events[i], key) ==> outs[i] == None
  {
    hide EventStep, Gathered, Undisturbed, Seen;
    if n == 0 {
      NothingGathered(tables[0], key, contents);
    } else {
      var e := events[n - 1];
      assert events[..n] == events[..n - 1] + [e];
      assert e in events;
      NotFullBefore(events[..n - 1], e, key);
      GatheredAlongRun(tables, events, outs, key, contents, n - 1);
      assert EventStep(tables[n - 1], events[n - 1], tables[n], outs[n - 1]);
      if Concerns(e, key) {
        OwnDelivery(tables[n - 1], events[..n - 1], e, tables[n], outs[n - 1], key, contents);
      } else {
        OtherDelivery(tables[n - 1], events[..n - 1], e, tables[n], outs[n - 1], key, contents);
      }
    }
  }

  /**
   Every delivery of the set before delivery `last` returns nothing; delivery `last`, the first after
   which all parts have come, returns the contents in order and removes the set.
   */
  lemma CompletesExactlyOnLastPart(tables: seq<Table>, events: seq<Event>, outs: seq<Option<Message>>, key: Key, contents: seq<seq<byte>>, last: nat)
    requires IsRun(tables, events, outs) && last < |events| && key !in tables[0]
    requires Copies(events, key, contents)
    requires forall i :: 0 <= i <= last ==> Undisturbed(tables[i], events[i], key)
    requires Seen(events[..last], key) != Range(key.total) && Seen(events[..last + 1], key) == Range(key.total)
    ensures forall i :: 0 <= i < last && Concerns(events[i], key) ==> outs[i] == None
    ensures Concerns(events[last], key) && IsWhole(outs[last], events[..last + 1], key, contents) && key !in tables[last + 1]
  {
    var e := events[last];
    assert events[..last + 1] == events[..last] + [e];
    Grows(events[..last], e, key);
    GatheredAlongRun(tables, events, outs, key, contents, last);
    assert EventStep(tables[last], events[last], tables[last + 1], outs[last]);
    OwnDelivery(tables[last], events[..last], e, tables[last + 1], outs[last], key, contents);
  }

  // ---------- With the parts of a segmentation ----------

  function InfoOf(h: Udh.Header): Info {
    if h.concat.NoConcat? then Info(false, 0, 0, 0, 0)
    else Info(true, h.concat.ref, h.concat.bits, h.concat.total, h.concat.seqNo)
  }

  /** A delivery that carries the text and the user data header of a part. */
  predicate Delivers(e: Event, p: Segmentation.Part) {
    e.m.content == p.text && e.c == InfoOf(Udh.Read(p.udh))
  }

  function Texts(parts: seq<Segmentation.Part>): seq<seq<byte>> {
    seq(|parts|, i requires 0 <= i < |parts| => parts[i].text)
  }

  lemma {:induction false} TextsFlatten(parts: seq<Segmentation.Part>)
    ensures Flatten(Texts(parts)) == Segmentation.Contents(parts)
  {
    if parts != [] {
      TextsFlatten(parts[1..]);
      assert Texts(parts)[1..] == Texts(parts[1..]);
    }
  }

  /** The set that the deliveries of a segmentation between two parties belong to. */
  function SetKey(sender: string, recipient: string, s: Segmentation.Setup, n: int): Key {
    Key(sender, recipient, s.ref, s.bits, n)
  }

  lemma DeliveredCopy(e: Event, s: Segmentation.Setup, parts: seq<Segmentation.Part>)
    requires ValidInfo(e.c) && exists p <- parts :: Delivers(e, p)
    requires forall i :: 0 <= i < |parts| ==> Segmentation.WellFormedPart(parts[i], s, |parts|, i + 1)
    ensures Copy(e, Texts(parts))
  {
    hide Segmentation.Setup.Limit, Chunking.WireOctets, Chunking.Cost, Decode, Udh.Read;
    var p :| p in parts && Delivers(e, p);
    var i :| 0 <= i < |parts| && parts[i] == p;
    assert Segmentation.WellFormedPart(parts[i], s, |parts|, i + 1);
  }

  /**
   Segment, deliver in any order with duplicates and other traffic in between, reassemble: the first
   delivery after which all parts have come returns the original text, and the set is gone.
   */
  lemma UndisturbedRoundTrip(text: seq<byte>, enc: Chunking.Encoding, opts: Segmentation.Options, counter: nat, s: Segmentation.Setup,
                             parts: seq<Segmentation.Part>, sender: string, recipient: string,
                             tables: seq<Table>, events: seq<Event>, outs: seq<Option<Message>>, last: nat)
    requires Segmentation.Long(text, enc, opts, counter, s) && Segmentation.Segmented(text, enc, opts, counter) == Ok(parts)
    requires IsRun(tables, events, outs) && Keyed(events) && last < |events|
    requires var key := SetKey(sender, recipient, s, |parts|);
             && key !in tables[0]
             && (forall e <- events :: Concerns(e, key) ==> exists p <- parts :: Delivers(e, p))
             && (forall i :: 0 <= i <= last ==> Undisturbed(tables[i], events[i], key))
             && Seen(events[..last], key) != Range(|parts|) && Seen(events[..last + 1], key) == Range(|parts|)
    ensures var key := SetKey(sender, recipient, s, |parts|);
            && (forall i :: 0 <= i < last && Concerns(events[i], key) ==> outs[i] == None)
            && outs[last].Some? && outs[last].value.content == text && key !in tables[last + 1]
            && HeadedByFirst(outs[last].value.fields, outs[last].value.timestamp, events[..last + 1], key)
            && outs[last].value.sender == events[last].m.sender && outs[last].value.recipient == events[last].m.recipient
  {
    var key, contents := SetKey(sender, recipient, s, |parts|), Texts(parts);
    Segmentation.PartsCarryTheText(text, enc, opts, counter, s, parts);
    TextsFlatten(parts);
    forall e <- events | Concerns(e, key)
      ensures Copy(e, contents)
    {
      DeliveredCopy(e, s, parts);
    }
    CompletesExactlyOnLastPart(tables, events, outs, key, contents, last);
  }

  lemma SingleHeaderReads(s: Segmentation.Setup)
    requires s.Valid()
    ensures Udh.Read(s.HeaderBytes(1, 1)) == Udh.Header(s.single, s.locking, s.ports, Udh.NoConcat)
  {
    hide Udh.Read;
    Udh.ReadUndoesBuild(Udh.Header(s.single, s.locking, s.ports, Udh.NoConcat));
  }

  lemma OnePartMeansShort(text: seq<byte>, enc: Chunking.Encoding, opts: Segmentation.Options, counter: nat, part: Segmentation.Part)
    requires Segmentation.Segmented(text, enc, opts, counter) == Ok([part])
    ensures Segmentation.SetupSingle(enc, opts).Ok?
    ensures part.text == text && part.udh == Segmentation.SetupSingle(enc, opts).value.HeaderBytes(1, 1)
  {
    hide Segmentation.LongOutcome, Segmentation.Setup.HeaderBytes, Segmentation.Setup.SingleLimit, Segmentation.Setup.Limit, Chunking.MessageLen;
    var single := Segmentation.SetupSingle(enc, opts).value;
    if Chunking.MessageLen(enc, text) > single.SingleLimit() {
      var s := Segmentation.SetupConcat(single, opts, counter).value;
      Segmentation.PartsCarryTheText(text, enc, opts, counter, s, [part]);
    }
  }

  /** A text that fits one part comes back at once, whatever the table holds, and leaves no trace in it. */
  lemma SinglePartRoundTrip(text: seq<byte>, enc: Chunking.Encoding, opts: Segmentation.Options, counter: nat,
                            part: Segmentation.Part, e: Event, t: Table, t': Table, out: Option<Message>)
    requires Segmentation.Segmented(text, enc, opts, counter) == Ok([part])
    requires Delivers(e, part) && EventStep(t, e, t', out)
    ensures out.Some? && out.value.content == text && t' == t
  {
    hide Udh.Read, Segmentation.Segmented, Segmentation.Setup.HeaderBytes;
    OnePartMeansShort(text, enc, opts, counter, part);
    SingleHeaderReads(Segmentation.SetupSingle(enc, opts).value);
  }
}
