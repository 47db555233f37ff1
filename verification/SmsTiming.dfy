/**
 Reassembly in terms of when deliveries come: which sets a run of the service still holds, which it gives
 up, and the round trip from the delivery times alone.
 */
module SmsTiming {
  import opened Wrappers
  import opened Runes
  import opened Text
  import opened Finite
  import opened Reassembly
  import opened SmsRoundTrip
  import Segmentation
  import Chunking
  import Udh

  const TEN_MINUTES := 600_000_000_000

  // ---------- Runs of the service ----------

  /** Times are set, and the clock does not run backwards. */
  predicate Clocked(events: seq<Event>) {
    && (forall i :: 0 <= i < |events| ==> events[i].now > 0)
    && (forall i, j :: 0 <= i < j < |events| ==> events[i].now <= events[j].now)
  }

  /** A run from the empty table, each delivery under the key of its own fields. */
  ghost predicate ServiceRun(tables: seq<Table>, events: seq<Event>, outs: seq<Option<Message>>) {
    IsRun(tables, events, outs) && tables[0] == map[] && Keyed(events) && Clocked(events)
  }

  /** When the set had its latest delivery. */
  function LatestDelivery(events: seq<Event>, key: Key): Option<Time> {
    if events == [] then None
    else if Concerns(events[|events| - 1], key) then Some(events[|events| - 1].now)
    else LatestDelivery(events[..|events| - 1], key)
  }

  lemma DeliveryGrows(events: seq<Event>, e: Event, key: Key)
    ensures LatestDelivery(events + [e], key) == if Concerns(e, key) then Some(e.now) else LatestDelivery(events, key)
  {
    assert (events + [e])[..|events|] == events;
  }

  /** Every set of the table was last touched by its latest delivery. */
  ghost predicate Remembers(t: Table, events: seq<Event>) {
    forall k <- t :: LatestDelivery(events, k) == Some(LastTouched(t[k])) && LastTouched(t[k]) > 0
  }

  /** Sets other than the delivered one are kept as they are or dropped; the delivered one is touched now. */
  lemma StepTouches(t: Table, e: Event, t': Table, out: Option<Message>, k: Key)
    requires EventStep(t, e, t', out) && e.now > 0 && k in t'
    ensures if Concerns(e, k) then LastTouched(t'[k]) == e.now else k in t && t'[k] == t[k]
  {
  }

  lemma StepRemembers(t: Table, events: seq<Event>, e: Event, t': Table, out: Option<Message>)
    requires Remembers(t, events) && EventStep(t, e, t', out) && e.now > 0
    ensures Remembers(t', events + [e])
  {
    hide EventStep, LatestDelivery, LastTouched, Concerns;
    forall k <- t'
      ensures LatestDelivery(events + [e], k) == Some(LastTouched(t'[k])) && LastTouched(t'[k]) > 0
    {
      StepTouches(t, e, t', out, k);
      DeliveryGrows(events, e, k);
    }
  }

  lemma {:induction false} RemembersAlongRun(tables: seq<Table>, events: seq<Event>, outs: seq<Option<Message>>, n: nat)
    requires ServiceRun(tables, events, outs) && n <= |events|
    ensures Remembers(tables[n], events[..n])
  {
    hide EventStep, LatestDelivery;
    if n > 0 {
      RemembersAlongRun(tables, events, outs, n - 1);
      assert EventStep(tables[n - 1], events[n - 1], tables[n], outs[n - 1]);
      assert events[..n] == events[..n - 1] + [events[n - 1]];
      StepRemembers(tables[n - 1], events[..n - 1], events[n - 1], tables[n], outs[n - 1]);
    }
  }

  // ---------- Which sets a delivery finds ----------

  /** The set's latest delivery is at most ten minutes ago. */
  predicate Recent(events: seq<Event>, now: Time, key: Key) {
    LatestDelivery(events, key).Some? && now - LatestDelivery(events, key).value <= TEN_MINUTES
  }

  /** A set outlives the cleanup exactly when its latest delivery is at most ten minutes ago. */
  lemma LiveIffRecent(t: Table, events: seq<Event>, now: Time, k: Key)
    requires Remembers(t, events) && k in t
    ensures k in Live(t, now) <==> Recent(events, now, k)
    ensures k in Live(t, now) ==> Live(t, now)[k] == t[k]
  {
  }

  /** The sets that had a delivery in the last ten minutes. */
  function RecentSets(events: seq<Event>, now: Time): set<Key> {
    set e | e in events && ValidInfo(e.c) && now - e.now <= TEN_MINUTES :: e.key
  }

  lemma {:induction false} LatestIsDelivery(events: seq<Event>, key: Key)
    ensures LatestDelivery(events, key).Some? ==>
              exists i :: 0 <= i < |events| && Concerns(events[i], key) && events[i].now == LatestDelivery(events, key).value
                          && forall j :: i < j < |events| ==> !Concerns(events[j], key)
  {
    if events != [] && !Concerns(events[|events| - 1], key) {
      LatestIsDelivery(events[..|events| - 1], key);
    }
  }

  lemma LiveAreRecentSets(t: Table, events: seq<Event>, now: Time)
    requires Remembers(t, events)
    ensures Live(t, now).Keys <= RecentSets(events, now)
  {
    hide Remembers, LatestDelivery;
    forall k <- Live(t, now).Keys
      ensures k in RecentSets(events, now)
    {
      LiveIffRecent(t, events, now, k);
      LatestIsDelivery(events, k);
    }
  }

  /** Fewer than 64 other sets had a delivery in the ten minutes before. */
  predicate Uncrowded(events: seq<Event>, i: nat)
    requires i < |events|
  {
    ValidInfo(events[i].c) ==> |RecentSets(events[..i], events[i].now) - {events[i].key}| < 64
  }

  lemma RoomInTime(t: Table, events: seq<Event>, i: nat)
    requires i < |events| && Remembers(t, events[..i]) && Uncrowded(events, i) && ValidInfo(events[i].c)
    ensures events[i].key in Live(t, events[i].now) || |Live(t, events[i].now)| < MAX_SETS
  {
    hide Remembers, RecentSets, Live;
    LiveAreRecentSets(t, events[..i], events[i].now);
    var live := Live(t, events[i].now);
    if events[i].key !in live {
      SubsetSize(live.Keys, RecentSets(events[..i], events[i].now) - {events[i].key});
    }
  }

  // ---------- From delivery times to an undisturbed set ----------

  /** Neighbouring deliveries of the set are at most ten minutes apart. */
  predicate Timely(events: seq<Event>, key: Key, first: nat, last: nat)
    requires last < |events|
  {
    forall a, b :: first <= a < b <= last && Concerns(events[a], key) && Concerns(events[b], key)
                   && (forall c :: a < c < b ==> !Concerns(events[c], key)) ==>
      events[b].now - events[a].now <= TEN_MINUTES
  }

  lemma StaysOut(t: Table, e: Event, t': Table, out: Option<Message>, key: Key)
    requires EventStep(t, e, t', out) && key !in t && !Concerns(e, key)
    ensures key !in t'
  {
  }

  lemma {:induction false} OutUntilDelivered(tables: seq<Table>, events: seq<Event>, outs: seq<Option<Message>>, key: Key, first: nat, i: nat)
    requires IsRun(tables, events, outs) && first <= i <= |events| && key !in tables[first]
    requires forall j :: first <= j < i ==> !Concerns(events[j], key)
    ensures key !in tables[i]
    decreases i
  {
    hide EventStep;
    if i > first {
      OutUntilDelivered(tables, events, outs, key, first, i - 1);
      assert EventStep(tables[i - 1], events[i - 1], tables[i], outs[i - 1]);
      StaysOut(tables[i - 1], events[i - 1], tables[i], outs[i - 1], key);
    }
  }

  lemma {:induction false} NextDelivery(events: seq<Event>, key: Key, i: nat, last: nat) returns (b: nat)
    requires i <= last < |events| && Concerns(events[last], key)
    ensures i <= b <= last && Concerns(events[b], key) && forall c :: i <= c < b ==> !Concerns(events[c], key)
    decreases last - i
  {
    if Concerns(events[i], key) {
      b := i;
    } else {
      b := NextDelivery(events, key, i + 1, last);
    }
  }

  lemma LatestAt(events: seq<Event>, i: nat, key: Key) returns (a: nat)
    requires i <= |events| && LatestDelivery(events[..i], key).Some?
    ensures a < i && Concerns(events[a], key) && events[a].now == LatestDelivery(events[..i], key).value
    ensures forall j :: a < j < i ==> !Concerns(events[j], key)
  {
    hide LatestDelivery, Concerns;
    LatestIsDelivery(events[..i], key);
    a :| a < i && Concerns(events[..i][a], key) && events[..i][a].now == LatestDelivery(events[..i], key).value
         && forall j :: a < j < i ==> !Concerns(events[..i][j], key);
    forall j | a < j < i
      ensures !Concerns(events[j], key)
    {
      assert events[..i][j] == events[j];
    }
  }

  /** No delivery up to the last finds the set expired: its next one comes in time. */
  lemma WithinTime(events: seq<Event>, key: Key, first: nat, a: nat, i: nat, last: nat)
    requires Clocked(events) && first <= a < i <= last < |events| && Timely(events, key, first, last)
    requires Concerns(events[a], key) && Concerns(events[last], key) && forall j :: a < j < i ==> !Concerns(events[j], key)
    ensures events[i].now - events[a].now <= TEN_MINUTES
  {
    hide Concerns;
    var b := NextDelivery(events, key, i, last);
    assert forall c :: a < c < b ==> !Concerns(events[c], key);
    assert events[i].now <= events[b].now;
  }

  lemma NotExpired(tables: seq<Table>, events: seq<Event>, outs: seq<Option<Message>>, key: Key, first: nat, i: nat, last: nat)
    requires ServiceRun(tables, events, outs) && first <= i <= last < |events| && key !in tables[first]
    requires Concerns(events[last], key) && Timely(events, key, first, last) && key in tables[i]
    ensures !Expired(tables[i][key], events[i].now)
  {
    hide EventStep, LatestDelivery, Concerns, Timely, Keyed;
    RemembersAlongRun(tables, events, outs, i);
    var a := LatestAt(events, i, key);
    if a < first {
      OutUntilDelivered(tables, events, outs, key, first, i);
    }
    WithinTime(events, key, first, a, i, last);
  }

  lemma UndisturbedInTime(tables: seq<Table>, events: seq<Event>, outs: seq<Option<Message>>, key: Key, first: nat, i: nat, last: nat)
    requires ServiceRun(tables, events, outs) && first <= i <= last < |events| && key !in tables[first]
    requires Concerns(events[last], key) && Timely(events, key, first, last) && Uncrowded(events, i)
    ensures Undisturbed(tables[i], events[i], key)
  {
    hide EventStep, Uncrowded, Timely, Concerns, Live;
    RemembersAlongRun(tables, events, outs, i);
    if key in tables[i] {
      NotExpired(tables, events, outs, key, first, i, last);
    }
    if ValidInfo(events[i].c) {
      RoomInTime(tables[i], events, i);
    }
  }

  lemma PartOfRun(tables: seq<Table>, events: seq<Event>, outs: seq<Option<Message>>, first: nat, last: nat)
    requires IsRun(tables, events, outs) && first <= last < |events|
    ensures IsRun(tables[first..last + 2], events[first..last + 1], outs[first..last + 1])
  {
    hide EventStep;
    var ts, es, os := tables[first..last + 2], events[first..last + 1], outs[first..last + 1];
    forall i | 0 <= i < |es|
      ensures EventStep(ts[i], es[i], ts[i + 1], os[i])
    {
      assert EventStep(tables[first + i], events[first + i], tables[first + i + 1], outs[first + i]);
    }
  }

  // ---------- The round trip ----------

  /** The delivery is from the sender to the recipient, with the reference and total of the segmentation. */
  predicate Mine(e: Event, sender: string, recipient: string, s: Segmentation.Setup, n: int) {
    && TrimSpace(e.m.sender) == sender && TrimSpace(e.m.recipient) == recipient
    && e.c.isConcat && e.c.ref == s.ref && e.c.refBits == s.bits && e.c.total == n
  }

  /** The part numbers that have come. */
  function Arrived(events: seq<Event>, sender: string, recipient: string, s: Segmentation.Setup, n: int): set<int> {
    set e | e in events && Mine(e, sender, recipient, s, n) :: e.c.seqNo
  }

  lemma MineIsConcerned(e: Event, sender: string, recipient: string, s: Segmentation.Setup, parts: seq<Segmentation.Part>)
    requires e.key == KeyFor(e.m, e.c) && s.Valid() && 2 <= |parts|
    requires Mine(e, sender, recipient, s, |parts|) ==> exists p <- parts :: Delivers(e, p)
    requires forall i :: 0 <= i < |parts| ==> Segmentation.WellFormedPart(parts[i], s, |parts|, i + 1)
    ensures Mine(e, sender, recipient, s, |parts|) <==> Concerns(e, SetKey(sender, recipient, s, |parts|))
  {
    hide Segmentation.Setup.Limit, Chunking.WireOctets, Chunking.Cost, Decode, Udh.Read;
    if Mine(e, sender, recipient, s, |parts|) {
      var p :| p in parts && Delivers(e, p);
      var i :| 0 <= i < |parts| && parts[i] == p;
      assert Segmentation.WellFormedPart(parts[i], s, |parts|, i + 1);
    }
  }

  lemma {:induction false} ArrivedIsSeen(events: seq<Event>, sender: string, recipient: string, s: Segmentation.Setup, n: int)
    requires forall e <- events :: Mine(e, sender, recipient, s, n) <==> Concerns(e, SetKey(sender, recipient, s, n))
    ensures Arrived(events, sender, recipient, s, n) == Seen(events, SetKey(sender, recipient, s, n))
  {
    hide Mine, Concerns, SetKey;
    if events != [] {
      var front, e := events[..|events| - 1], events[|events| - 1];
      assert events == front + [e];
      ArrivedIsSeen(front, sender, recipient, s, n);
      assert Arrived(events, sender, recipient, s, n)
          == Arrived(front, sender, recipient, s, n) + (if Mine(e, sender, recipient, s, n) then {e.c.seqNo} else {});
    }
  }

  /** What the deliveries from one point of a run to another have to do with a segmentation. */
  ghost predicate Carried(tables: seq<Table>, events: seq<Event>, outs: seq<Option<Message>>, first: nat, last: nat,
                          sender: string, recipient: string, s: Segmentation.Setup, parts: seq<Segmentation.Part>) {
    && ServiceRun(tables, events, outs) && first <= last < |events|
    && SetKey(sender, recipient, s, |parts|) !in tables[first]
    && (forall i :: first <= i <= last && Mine(events[i], sender, recipient, s, |parts|) ==> exists p <- parts :: Delivers(events[i], p))
    && Arrived(events[first..last], sender, recipient, s, |parts|) != Range(|parts|)
    && Arrived(events[first..last + 1], sender, recipient, s, |parts|) == Range(|parts|)
  }

  /** Neighbouring deliveries of the message are at most ten minutes apart, and at none of the deliveries is the table crowded. */
  predicate InTime(events: seq<Event>, first: nat, last: nat, sender: string, recipient: string, s: Segmentation.Setup, n: int)
    requires first <= last < |events|
  {
    && (forall a, b :: first <= a < b <= last && Mine(events[a], sender, recipient, s, n) && Mine(events[b], sender, recipient, s, n)
                       && (forall c :: a < c < b ==> !Mine(events[c], sender, recipient, s, n)) ==>
          events[b].now - events[a].now <= TEN_MINUTES)
    && Roomy(events, first, last)
  }

  predicate Roomy(events: seq<Event>, first: nat, last: nat)
    requires first <= last < |events|
  {
    forall i :: first <= i <= last ==> Uncrowded(events, i)
  }

  /**
   Segment, deliver in any order with duplicates and other traffic in between, neighbouring parts at most
   ten minutes apart and fewer than 64 other sets active: nothing is returned until the last missing part,
   which returns the original text, and the set is gone.
   */
  lemma RoundTrip(text: seq<byte>, enc: Chunking.Encoding, opts: Segmentation.Options, counter: nat, s: Segmentation.Setup,
                  parts: seq<Segmentation.Part>, sender: string, recipient: string,
                  tables: seq<Table>, events: seq<Event>, outs: seq<Option<Message>>, first: nat, last: nat)
    requires Segmentation.Long(text, enc, opts, counter, s) && Segmentation.Segmented(text, enc, opts, counter) == Ok(parts)
    requires Carried(tables, events, outs, first, last, sender, recipient, s, parts)
    requires InTime(events, first, last, sender, recipient, s, |parts|)
    ensures forall i :: first <= i < last && Mine(events[i], sender, recipient, s, |parts|) ==> outs[i] == None
    ensures outs[last].Some? && outs[last].value.content == text
    ensures outs[last].value.sender == events[last].m.sender && outs[last].value.recipient == events[last].m.recipient
    ensures SetKey(sender, recipient, s, |parts|) !in tables[last + 1]
    ensures HeadedByFirst(outs[last].value.fields, outs[last].value.timestamp, events[first..last + 1], SetKey(sender, recipient, s, |parts|))
  {
    hide Segmentation.Segmented, EventStep, Delivers, Mine, Arrived, Concerns, Seen, HeadedByFirst, Uncrowded, Undisturbed, Segmentation.Long, IsRun, Clocked, Timely, InTime, Roomy, Keyed, Segmentation.WellFormedPart;
    RunLengths(tables, events, outs);
    var key, k := SetKey(sender, recipient, s, |parts|), last - first;
    var ts, es, os := tables[first..last + 2], events[first..last + 1], outs[first..last + 1];
    SegmentationFacts(text, enc, opts, counter, s, parts);
    MineMatches(tables, events, outs, first, last, sender, recipient, s, parts);
    SliceMatches(events, first, last, sender, recipient, s, |parts|);
    LastConcerns(events, first, last, key, |parts|);
    TimelyFromMine(events, first, last, sender, recipient, s, |parts|);
    SliceUndisturbed(tables, events, outs, first, last, key, ts, es, os);
    SliceDelivers(events, first, last, sender, recipient, s, parts);
    assert es[..k] == events[first..last] && es[..k + 1] == es;
    UndisturbedRoundTrip(text, enc, opts, counter, s, parts, sender, recipient, ts, es, os, k);
    SliceSilence(events, outs, first, last, sender, recipient, s, |parts|, es, os);
  }

  lemma MineMatches(tables: seq<Table>, events: seq<Event>, outs: seq<Option<Message>>, first: nat, last: nat,
                    sender: string, recipient: string, s: Segmentation.Setup, parts: seq<Segmentation.Part>)
    requires Carried(tables, events, outs, first, last, sender, recipient, s, parts) && s.Valid() && 2 <= |parts|
    requires forall i :: 0 <= i < |parts| ==> Segmentation.WellFormedPart(parts[i], s, |parts|, i + 1)
    ensures forall i :: first <= i <= last ==>
              (Mine(events[i], sender, recipient, s, |parts|) <==> Concerns(events[i], SetKey(sender, recipient, s, |parts|)))
  {
    hide EventStep, Delivers, Mine, Arrived, Concerns, SetKey, Clocked, KeyFor, Segmentation.WellFormedPart, IsRun;
    forall i | first <= i <= last
      ensures Mine(events[i], sender, recipient, s, |parts|) <==> Concerns(events[i], SetKey(sender, recipient, s, |parts|))
    {
      assert events[i] in events;
      MineIsConcerned(events[i], sender, recipient, s, parts);
    }
  }

  lemma RunLengths(tables: seq<Table>, events: seq<Event>, outs: seq<Option<Message>>)
    requires IsRun(tables, events, outs)
    ensures |tables| == |events| + 1 && |outs| == |events|
  {
  }

  /** The part of the run from first to last is one that nothing disturbs. */
  lemma SliceUndisturbed(tables: seq<Table>, events: seq<Event>, outs: seq<Option<Message>>, first: nat, last: nat, key: Key,
                         ts: seq<Table>, es: seq<Event>, os: seq<Option<Message>>)
    requires ServiceRun(tables, events, outs) && first <= last < |events| && key !in tables[first]
    requires Concerns(events[last], key) && Timely(events, key, first, last) && Roomy(events, first, last)
    requires ts == tables[first..last + 2] && es == events[first..last + 1] && os == outs[first..last + 1]
    ensures IsRun(ts, es, os) && Keyed(es) && key !in ts[0]
    ensures forall i :: 0 <= i < |es| ==> Undisturbed(ts[i], es[i], key)
  {
    hide EventStep, Undisturbed, Concerns, Timely, Uncrowded, Clocked, KeyFor;
    PartOfRun(tables, events, outs, first, last);
    forall i | 0 <= i < |es|
      ensures Undisturbed(ts[i], es[i], key)
    {
      UndisturbedInTime(tables, events, outs, key, first, first + i, last);
    }
    forall e <- es
      ensures e.key == KeyFor(e.m, e.c)
    {
      assert e in events;
    }
  }

  lemma SliceDelivers(events: seq<Event>, first: nat, last: nat, sender: string, recipient: string, s: Segmentation.Setup, parts: seq<Segmentation.Part>)
    requires first <= last < |events|
    requires forall i :: first <= i <= last && Mine(events[i], sender, recipient, s, |parts|) ==> exists p <- parts :: Delivers(events[i], p)
    requires forall i :: first <= i <= last ==>
               (Mine(events[i], sender, recipient, s, |parts|) <==> Concerns(events[i], SetKey(sender, recipient, s, |parts|)))
    ensures forall e <- events[first..last + 1] :: Concerns(e, SetKey(sender, recipient, s, |parts|)) ==> exists p <- parts :: Delivers(e, p)
  {
    hide Delivers, Mine, Concerns, SetKey;
    var es := events[first..last + 1];
    forall e <- es | Concerns(e, SetKey(sender, recipient, s, |parts|))
      ensures exists p <- parts :: Delivers(e, p)
    {
      var i :| 0 <= i < |es| && es[i] == e;
      assert es[i] == events[first + i];
    }
  }

  lemma SliceSilence(events: seq<Event>, outs: seq<Option<Message>>, first: nat, last: nat, sender: string, recipient: string, s: Segmentation.Setup, n: int,
                     es: seq<Event>, os: seq<Option<Message>>)
    requires first <= last < |events| == |outs| && es == events[first..last + 1] && os == outs[first..last + 1]
    requires forall i :: first <= i <= last ==> (Mine(events[i], sender, recipient, s, n) <==> Concerns(events[i], SetKey(sender, recipient, s, n)))
    requires forall i :: 0 <= i < last - first && Concerns(es[i], SetKey(sender, recipient, s, n)) ==> os[i] == None
    ensures forall i :: first <= i < last && Mine(events[i], sender, recipient, s, n) ==> outs[i] == None
    ensures os[last - first] == outs[last] && es[last - first] == events[last]
  {
    hide Mine, Concerns, SetKey;
    forall i | first <= i < last && Mine(events[i], sender, recipient, s, n)
      ensures outs[i] == None
    {
      assert es[i - first] == events[i] && os[i - first] == outs[i];
    }
  }

  lemma SegmentationFacts(text: seq<byte>, enc: Chunking.Encoding, opts: Segmentation.Options, counter: nat, s: Segmentation.Setup, parts: seq<Segmentation.Part>)
    requires Segmentation.Long(text, enc, opts, counter, s) && Segmentation.Segmented(text, enc, opts, counter) == Ok(parts)
    ensures s.Valid() && 2 <= |parts|
    ensures forall i :: 0 <= i < |parts| ==> Segmentation.WellFormedPart(parts[i], s, |parts|, i + 1)
  {
    hide Segmentation.Segmented, Segmentation.WellFormedPart;
    Segmentation.PartsCarryTheText(text, enc, opts, counter, s, parts);
    Segmentation.LongIsLong(text, enc, opts, counter, s);
  }

  lemma SliceMatches(events: seq<Event>, first: nat, last: nat, sender: string, recipient: string, s: Segmentation.Setup, n: int)
    requires first <= last < |events|
    requires forall i :: first <= i <= last ==> (Mine(events[i], sender, recipient, s, n) <==> Concerns(events[i], SetKey(sender, recipient, s, n)))
    ensures Arrived(events[first..last], sender, recipient, s, n) == Seen(events[first..last], SetKey(sender, recipient, s, n))
    ensures Arrived(events[first..last + 1], sender, recipient, s, n) == Seen(events[first..last + 1], SetKey(sender, recipient, s, n))
  {
    hide Mine, Arrived, Concerns, Seen, SetKey;
    ArrivedIsSeen(events[first..last], sender, recipient, s, n);
    ArrivedIsSeen(events[first..last + 1], sender, recipient, s, n);
  }

  lemma LastConcerns(events: seq<Event>, first: nat, last: nat, key: Key, n: nat)
    requires first <= last < |events|
    requires Seen(events[first..last], key) != Range(n) && Seen(events[first..last + 1], key) == Range(n)
    ensures Concerns(events[last], key)
  {
    hide Concerns, Seen;
    assert events[first..last + 1] == events[first..last] + [events[last]];
    Grows(events[first..last], events[last], key);
  }

  lemma TimelyFromMine(events: seq<Event>, first: nat, last: nat, sender: string, recipient: string, s: Segmentation.Setup, n: int)
    requires first <= last < |events| && InTime(events, first, last, sender, recipient, s, n)
    requires forall i :: first <= i <= last ==> (Mine(events[i], sender, recipient, s, n) <==> Concerns(events[i], SetKey(sender, recipient, s, n)))
    ensures Timely(events, SetKey(sender, recipient, s, n), first, last) && Roomy(events, first, last)
  {
    hide Mine, Concerns, SetKey, Uncrowded;
    var key := SetKey(sender, recipient, s, n);
    forall a, b | first <= a < b <= last && Concerns(events[a], key) && Concerns(events[b], key)
                  && (forall c :: a < c < b ==> !Concerns(events[c], key))
      ensures events[b].now - events[a].now <= TEN_MINUTES
    {
      assert Mine(events[a], sender, recipient, s, n) && Mine(events[b], sender, recipient, s, n);
    }
  }

  // ---------- Sets that are given up ----------

  /** A set whose latest delivery is more than ten minutes ago contributes nothing: a delivery to it starts afresh. */
  lemma ExpiredContributesNothing(tables: seq<Table>, events: seq<Event>, outs: seq<Option<Message>>, n: nat, key: Key)
    requires ServiceRun(tables, events, outs) && n < |events| && ValidInfo(events[n].c)
    requires LatestDelivery(events[..n], key).Some? && events[n].now - LatestDelivery(events[..n], key).value > TEN_MINUTES
    ensures EventStep(tables[n] - {key}, events[n], tables[n + 1], outs[n])
    ensures Concerns(events[n], key) ==>
              outs[n] == None && key in tables[n + 1] && tables[n + 1][key].parts == map[events[n].c.seqNo := events[n].m.content]
  {
    hide LatestDelivery, EventStep, Live, Concerns, Clocked, Keyed;
    RemembersAlongRun(tables, events, outs, n);
    var t, e := tables[n], events[n];
    assert EventStep(t, e, tables[n + 1], outs[n]);
    ExpiredIsGone(t, events[..n], e.now, key);
    StepWithout(t, e, tables[n + 1], outs[n], key);
    StartsAfresh(t, e, tables[n + 1], outs[n], key);
  }

  lemma ExpiredIsGone(t: Table, events: seq<Event>, now: Time, key: Key)
    requires Remembers(t, events) && !Recent(events, now, key)
    ensures key !in Live(t, now)
  {
    hide Remembers, Recent;
    if key in t {
      LiveIffRecent(t, events, now, key);
    }
  }

  lemma StepWithout(t: Table, e: Event, t': Table, out: Option<Message>, key: Key)
    requires EventStep(t, e, t', out) && ValidInfo(e.c) && key !in Live(t, e.now)
    ensures EventStep(t - {key}, e, t', out)
  {
    hide Stored, MakesRoom;
    assert Live(t - {key}, e.now) == Live(t, e.now);
  }

  lemma StartsAfresh(t: Table, e: Event, t': Table, out: Option<Message>, key: Key)
    requires EventStep(t, e, t', out) && key !in Live(t, e.now)
    ensures Concerns(e, key) ==> out == None && key in t' && t'[key].parts == map[e.c.seqNo := e.m.content]
  {
    if Concerns(e, key) {
      var roomy :| MakesRoom(Live(t, e.now), key, roomy) && Stored(roomy, key, e.m, e.c, e.now, t', out);
      assert key !in roomy;
      var s := Touched(roomy, key, e.m, e.c, e.now);
      assert s.parts == map[e.c.seqNo := e.m.content];
      assert |s.parts| == 1;
    }
  }

  /**
   A set that a delivery drops although its latest delivery is at most ten minutes ago was dropped for want of
   room, by a delivery to a new set; it is the one whose latest delivery is earliest, and the only one.
   */
  lemma EvictedIsEarliest(tables: seq<Table>, events: seq<Event>, outs: seq<Option<Message>>, n: nat, gone: Key)
    requires ServiceRun(tables, events, outs) && n < |events| && gone in tables[n] && gone !in tables[n + 1] && gone != events[n].key
    requires Recent(events[..n], events[n].now, gone)
    ensures ValidInfo(events[n].c) && !(events[n].key in tables[n] && Recent(events[..n], events[n].now, events[n].key))
    ensures forall k <- tables[n] :: k != events[n].key && Recent(events[..n], events[n].now, k) ==>
              LatestDelivery(events[..n], gone).value <= LatestDelivery(events[..n], k).value && (k != gone ==> k in tables[n + 1])
    ensures |set k | k in tables[n] && Recent(events[..n], events[n].now, k)| >= 64
  {
    hide LatestDelivery;
    RemembersAlongRun(tables, events, outs, n);
    var t, e := tables[n], events[n];
    assert EventStep(t, e, tables[n + 1], outs[n]);
    var live := Live(t, e.now);
    forall k <- t
      ensures k in live <==> Recent(events[..n], e.now, k)
      ensures LatestDelivery(events[..n], k) == Some(LastTouched(t[k]))
    {
      LiveIffRecent(t, events[..n], e.now, k);
    }
    assert live.Keys == set k | k in t && Recent(events[..n], e.now, k);
    hide Recent;
    Evicts(t, e, tables[n + 1], outs[n], gone);
  }

  lemma Evicts(t: Table, e: Event, t': Table, out: Option<Message>, gone: Key)
    requires EventStep(t, e, t', out) && gone in Live(t, e.now) && gone !in t' && gone != e.key
    ensures var live := Live(t, e.now);
            && ValidInfo(e.c) && e.key !in live && |live| >= MAX_SETS && Oldest(live, gone)
            && forall k <- live :: k != gone && k != e.key ==> k in t'
  {
    assert ValidInfo(e.c);
    var live := Live(t, e.now);
    var roomy :| MakesRoom(live, e.key, roomy) && Stored(roomy, e.key, e.m, e.c, e.now, t', out);
    assert gone !in roomy;
  }
}
