/**
 Runs of the service over the whole retry store: first sends, replays and deletions of many requests in
 any order. A drain may replay any copy that it read earlier, so two drains may hold the same record.
 */
module RetryRuns {
  import opened Wrappers
  import opened Text
  import opened RetryQueue
  import opened RetryChain

  /** Since a slot's latest first send: the sends, the writes refused, and the replays of what the store no longer held. */
  datatype Tally = Tally(sent: nat, refused: nat, stale: nat)

  /** The store, every envelope it has held, and the tally of every slot. */
  datatype State = State(store: Retries, copies: set<Envelope>, tally: map<Slot, Tally>)

  /** `accepted` says whether the store takes the write that follows the send. */
  datatype Step =
    | Send(request: Request, now: int, answer: Answer, accepted: bool)
    | Replay(copy: Envelope, now: int, answer: Answer, accepted: bool)
    | Forget(operation: string, key: string)

  function TallyOf(st: State, slot: Slot): Tally {
    if slot in st.tally then st.tally[slot] else Tally(0, 0, 0)
  }

  function One(b: bool): nat {
    if b then 1 else 0
  }

  predicate Fires(st: State, copy: Envelope, now: int) {
    copy in st.copies && copy.IsDue(now)
  }

  /** The store no longer holds what is replayed. */
  predicate Stale(st: State, copy: Envelope) {
    Lookup(st.store, copy.Place()) != Some(copy)
  }

  function Stored(st: State, store: Retries): State {
    st.(store := store, copies := st.copies + store.Values)
  }

  function Apply(st: State, step: Step): State {
    match step
    case Send(r, now, a, accepted) =>
      Stored(st, if accepted then Recorded(st.store, First(r, now, a)) else st.store)
        .(tally := st.tally[SlotOf(r) := Tally(1, One(!accepted), 0)])
    case Replay(copy, now, a, accepted) =>
      if !Fires(st, copy, now) then st
      else
        var t := TallyOf(st, copy.Place());
        Stored(st, if accepted then Recorded(st.store, Replayed(copy, now, a)) else st.store)
          .(tally := st.tally[copy.Place() := Tally(t.sent + 1, t.refused + One(!accepted), t.stale + One(Stale(st, copy)))])
    case Forget(operation, key) => st.(store := MapDelete(st.store, operation, key))
  }

  /** A refused write allows one more send, and a stale replay three: its own, and two from the record it puts back. */
  function Excess(t: Tally): nat {
    t.refused + 3 * t.stale
  }

  /** A stored envelope's attempt number counts the sends, but for the excess. */
  predicate Counted(e: Envelope, t: Tally) {
    t.sent <= e.attempt + Excess(t) && (Excess(t) == 0 ==> t.sent == e.attempt)
  }

  /** The tally is within its bound, and counted by the envelope that the slot holds. */
  predicate Fits(held: Option<Envelope>, t: Tally, slot: Slot) {
    && t.sent <= 4 + Excess(t)
    && (held.Some? ==> held.value.Place() == slot && Owned(held.value) && Counted(held.value, t))
  }

  predicate SlotInv(st: State, slot: Slot) {
    Fits(Lookup(st.store, slot), TallyOf(st, slot), slot)
  }

  predicate CopiesOwned(st: State) {
    forall e <- st.copies :: Owned(e)
  }

  lemma OwnedSlot(e: Envelope)
    requires Owned(e)
    ensures e.Place() == SlotOf(RequestOf(e)) && 1 <= e.attempt < 4 && e.HasReplayPayload()
  {
    hide SmsKey, UssdKey;
    RequestKeyTrimmed(RequestOf(e));
  }

  /** What recording does to a slot: its own holds the new envelope or nothing, others are as they were. */
  lemma RecordingKeepsOwned(m: Retries, e: Envelope, r: Request, n: int, now: int, a: Answer, slot: Slot)
    requires Records(e, r, n, now, a) && n >= 1
    ensures slot != SlotOf(r) ==> Lookup(Recorded(m, e), slot) == Lookup(m, slot)
    ensures slot == SlotOf(r) && Lookup(Recorded(m, e), slot).Some? ==>
              Lookup(Recorded(m, e), slot) == Some(e) && e.Place() == slot && Owned(e) && e.attempt == n
  {
    hide Records, Owned, SlotOf, Recorded, Retryable;
    RecordingTouchesOwnSlot(m, e, r, n, now, a, slot);
    RecordsAreOwned(e, r, n, now, a);
    AttemptOf(e, r, n, now, a);
    PendingIff(e, r, n, now, a);
  }

  lemma PendingIff(e: Envelope, r: Request, n: int, now: int, a: Answer)
    requires Records(e, r, n, now, a)
    ensures e.IsPending() <==> Retryable(a) && n < 4
  {
  }

  predicate IsFirst(step: Step, slot: Slot) {
    step.Send? && SlotOf(step.request) == slot
  }

  predicate Replays(st: State, step: Step, slot: Slot) {
    step.Replay? && step.copy.Place() == slot && Fires(st, step.copy, step.now)
  }

  /** What a slot holds after a step: as before, nothing, or the envelope of the attempt just made. */
  predicate HoldsAfter(before: Option<Envelope>, after: Option<Envelope>, slot: Slot, attempt: int, accepted: bool) {
    if !accepted then after == before
    else after.Some? ==> after.value.Place() == slot && Owned(after.value) && after.value.attempt == attempt
  }

  lemma SendLooks(st: State, step: Step, slot: Slot)
    requires step.Send?
    ensures var before, after := Lookup(st.store, slot), Lookup(Apply(st, step).store, slot);
            if IsFirst(step, slot) then HoldsAfter(before, after, slot, 1, step.accepted) else after == before
  {
    hide First, Records, Owned, Recorded, SlotOf, Lookup;
    FirstRecords(step.request, step.now, step.answer);
    RecordingKeepsOwned(st.store, First(step.request, step.now, step.answer), step.request, 1, step.now, step.answer, slot);
  }

  lemma ReplayLooks(st: State, step: Step, slot: Slot)
    requires step.Replay? && CopiesOwned(st)
    ensures var before, after := Lookup(st.store, slot), Lookup(Apply(st, step).store, slot);
            if Replays(st, step, slot) then HoldsAfter(before, after, slot, step.copy.attempt + 1, step.accepted) else after == before
  {
    hide Replayed, Records, Owned, Recorded, SlotOf, Lookup, Envelope.IsDue;
    if Fires(st, step.copy, step.now) {
      var copy := step.copy;
      OwnedSlot(copy);
      ReplayRecords(copy, step.now, step.answer);
      RecordingKeepsOwned(st.store, Replayed(copy, step.now, step.answer), RequestOf(copy), copy.attempt + 1, step.now, step.answer, slot);
    }
  }

  lemma ForgetLooks(st: State, step: Step, slot: Slot)
    requires step.Forget?
    ensures var after := Lookup(Apply(st, step).store, slot); after == None || after == Lookup(st.store, slot)
  {
    hide Covers;
  }

  lemma TallyAfter(st: State, step: Step, slot: Slot)
    ensures var t, t' := TallyOf(st, slot), TallyOf(Apply(st, step), slot);
            if IsFirst(step, slot) then t' == Tally(1, One(!step.accepted), 0)
            else if Replays(st, step, slot) then
              t' == Tally(t.sent + 1, t.refused + One(!step.accepted), t.stale + One(Stale(st, step.copy)))
            else t' == t
  {
    hide Recorded, First, Replayed, MapDelete, Envelope.IsDue, SlotOf, Stale;
  }

  lemma FirstFits(before: Option<Envelope>, after: Option<Envelope>, t: Tally, slot: Slot, accepted: bool)
    requires Fits(before, t, slot) && HoldsAfter(before, after, slot, 1, accepted)
    ensures Fits(after, Tally(1, One(!accepted), 0), slot)
  {
    hide Owned;
    if before.Some? {
      OwnedSlot(before.value);
    }
  }

  lemma ReplayFits(before: Option<Envelope>, after: Option<Envelope>, t: Tally, slot: Slot, copy: Envelope, accepted: bool)
    requires Fits(before, t, slot) && Owned(copy) && HoldsAfter(before, after, slot, copy.attempt + 1, accepted)
    ensures Fits(after, Tally(t.sent + 1, t.refused + One(!accepted), t.stale + One(before != Some(copy))), slot)
  {
    hide Owned;
    OwnedSlot(copy);
    if before.Some? {
      OwnedSlot(before.value);
    }
  }

  lemma LessFits(held: Option<Envelope>, t: Tally, slot: Slot)
    requires Fits(held, t, slot)
    ensures Fits(None, t, slot)
  {
  }

  lemma StepKeepsInv(st: State, step: Step, slot: Slot)
    requires SlotInv(st, slot) && CopiesOwned(st)
    ensures SlotInv(Apply(st, step), slot)
  {
    hide Apply, Owned, Lookup, TallyOf, Fires, Fits, HoldsAfter, CopiesOwned;
    TallyAfter(st, step, slot);
    var before, after, t := Lookup(st.store, slot), Lookup(Apply(st, step).store, slot), TallyOf(st, slot);
    match step
    case Send(_, _, _, accepted) =>
      SendLooks(st, step, slot);
      if IsFirst(step, slot) {
        FirstFits(before, after, t, slot, accepted);
      }
    case Replay(copy, now, _, accepted) =>
      ReplayLooks(st, step, slot);
      if Replays(st, step, slot) {
        CopyOwned(st, copy, now);
        ReplayFits(before, after, t, slot, copy, accepted);
      }
    case Forget(_, _) =>
      ForgetLooks(st, step, slot);
      LessFits(before, t, slot);
  }

  lemma CopyOwned(st: State, copy: Envelope, now: int)
    requires CopiesOwned(st) && Fires(st, copy, now)
    ensures Owned(copy)
  {
  }

  /** Everything in a store that recording changed was there before or is the recorded envelope. */
  lemma RecordedValues(m: Retries, e: Envelope, r: Request, n: int, now: int, a: Answer)
    requires Records(e, r, n, now, a) && n >= 1
    ensures forall x <- Recorded(m, e).Values :: x in m.Values || (x == e && Owned(e))
  {
    hide Records, Owned, SlotOf, Recorded, Retryable;
    forall x <- Recorded(m, e).Values
      ensures x in m.Values || (x == e && Owned(e))
    {
      var slot :| slot in Recorded(m, e) && Recorded(m, e)[slot] == x;
      RecordingKeepsOwned(m, e, r, n, now, a, slot);
    }
  }

  predicate AllCopied(st: State) {
    CopiesOwned(st) && st.store.Values <= st.copies
  }

  lemma StepKeepsCopies(st: State, step: Step)
    requires AllCopied(st)
    ensures AllCopied(Apply(st, step)) && st.copies <= Apply(st, step).copies
  {
    hide First, Replayed, Records, Owned, Recorded, SlotOf, Envelope.IsDue;
    match step
    case Send(r, now, a, _) =>
      FirstRecords(r, now, a);
      RecordedValues(st.store, First(r, now, a), r, 1, now, a);
    case Replay(copy, now, a, _) =>
      if Fires(st, copy, now) {
        OwnedSlot(copy);
        ReplayRecords(copy, now, a);
        RecordedValues(st.store, Replayed(copy, now, a), RequestOf(copy), copy.attempt + 1, now, a);
      }
    case Forget(operation, key) =>
      assert MapDelete(st.store, operation, key).Values <= st.store.Values;
  }

  function Run(steps: seq<Step>): State {
    if steps == [] then State(map[], {}, map[]) else Apply(Run(steps[..|steps| - 1]), steps[|steps| - 1])
  }

  lemma {:induction false} CopiesAlongRun(steps: seq<Step>)
    ensures AllCopied(Run(steps))
  {
    hide Apply, Owned;
    if steps != [] {
      CopiesAlongRun(steps[..|steps| - 1]);
      StepKeepsCopies(Run(steps[..|steps| - 1]), steps[|steps| - 1]);
    }
  }

  /**
   In every run, whatever the answers and whichever requests and drains interleave, the sends of a request
   since it was first sent are at most four, plus one for each write the store refused and three for each
   replay of a record it no longer held; with neither, the stored attempt number is exactly the number of sends.
   */
  lemma {:induction false} SendsAreBounded(steps: seq<Step>, slot: Slot)
    ensures SlotInv(Run(steps), slot)
  {
    hide SlotInv, Apply, Owned;
    if steps == [] {
      NothingSent(slot);
    } else {
      var front, last := steps[..|steps| - 1], steps[|steps| - 1];
      SendsAreBounded(front, slot);
      CopiesAlongRun(front);
      StepKeepsInv(Run(front), last, slot);
    }
  }

  lemma NothingSent(slot: Slot)
    ensures SlotInv(Run([]), slot)
  {
  }

  // ---------- Counting whole runs ----------

  /** What a run did under a slot: first sends, sends in all, writes refused, and stale replays. */
  datatype Totals = Totals(firsts: nat, sends: nat, refused: nat, stale: nat)

  function Added(t: Totals, st: State, step: Step, slot: Slot): Totals {
    if IsFirst(step, slot) then Totals(t.firsts + 1, t.sends + 1, t.refused + One(!step.accepted), t.stale)
    else if Replays(st, step, slot) then
      Totals(t.firsts, t.sends + 1, t.refused + One(!step.accepted), t.stale + One(Stale(st, step.copy)))
    else t
  }

  function Total(steps: seq<Step>, slot: Slot): Totals {
    if steps == [] then Totals(0, 0, 0, 0)
    else Added(Total(steps[..|steps| - 1], slot), Run(steps[..|steps| - 1]), steps[|steps| - 1], slot)
  }

  ghost predicate Untouched(st: State, slot: Slot) {
    slot !in st.store && (forall e <- st.copies :: e.Place() != slot) && TallyOf(st, slot) == Tally(0, 0, 0)
  }

  /** Only a first send can touch a slot for the first time. */
  lemma StaysUntouched(st: State, step: Step, slot: Slot)
    requires AllCopied(st) && Untouched(st, slot) && !IsFirst(step, slot)
    ensures Untouched(Apply(st, step), slot) && !Replays(st, step, slot)
  {
    hide First, Replayed, Records, Owned, Recorded, SlotOf, Envelope.IsDue;
    match step
    case Send(r, now, a, _) =>
      FirstRecords(r, now, a);
      RecordedElsewhere(st.store, First(r, now, a), r, 1, now, a, slot);
    case Replay(copy, now, a, _) =>
      if Fires(st, copy, now) {
        OwnedSlot(copy);
        ReplayRecords(copy, now, a);
        RecordedElsewhere(st.store, Replayed(copy, now, a), RequestOf(copy), copy.attempt + 1, now, a, slot);
      }
    case Forget(_, _) =>
  }

  lemma RecordedElsewhere(m: Retries, e: Envelope, r: Request, n: int, now: int, a: Answer, slot: Slot)
    requires Records(e, r, n, now, a) && n >= 1 && slot != SlotOf(r) && slot !in m && forall x <- m.Values :: x.Place() != slot
    ensures slot !in Recorded(m, e) && forall x <- Recorded(m, e).Values :: x.Place() != slot
  {
    hide Records, Owned, SlotOf, Recorded, Retryable;
    RecordingKeepsOwned(m, e, r, n, now, a, slot);
    RecordedValues(m, e, r, n, now, a);
    RecordsAreOwned(e, r, n, now, a);
  }

  /** How the tally since the latest first send stands against the totals. */
  predicate Covered(t: Tally, all: Totals) {
    all.firsts > 0 ==> all.sends - t.sent + Excess(t) <= 4 * (all.firsts - 1) + all.refused + 3 * all.stale
  }

  lemma StepKeepsCovered(all: Totals, st: State, step: Step, slot: Slot)
    requires Covered(TallyOf(st, slot), all) && SlotInv(st, slot) && (all.firsts == 0 ==> all.sends == 0)
    ensures Covered(TallyOf(Apply(st, step), slot), Added(all, st, step, slot))
  {
    hide Apply, Owned, TallyOf, IsFirst, Replays, Stale, Lookup;
    TallyAfter(st, step, slot);
  }

  lemma {:induction false} TallyAlongRun(steps: seq<Step>, slot: Slot)
    ensures Total(steps, slot).firsts == 0 ==> Untouched(Run(steps), slot) && Total(steps, slot).sends == 0
    ensures Covered(TallyOf(Run(steps), slot), Total(steps, slot))
  {
    hide Apply, Replays, IsFirst, Owned, Stale, Untouched, Covered, TallyOf, SlotInv, AllCopied;
    if steps == [] {
      NothingTouched(slot);
    } else {
      var front, last := steps[..|steps| - 1], steps[|steps| - 1];
      TallyAlongRun(front, slot);
      SendsAreBounded(front, slot);
      CopiesAlongRun(front);
      StepKeepsCovered(Total(front, slot), Run(front), last, slot);
      if Total(front, slot).firsts == 0 && !IsFirst(last, slot) {
        StaysUntouched(Run(front), last, slot);
      }
    }
  }

  lemma NothingTouched(slot: Slot)
    ensures Untouched(Run([]), slot) && Covered(TallyOf(Run([]), slot), Total([], slot))
  {
  }

  /**
   However often a slot is used: each first send accounts for at most four transmissions, each refused
   write for one more, and each stale replay for three more.
   */
  lemma TransmissionsAreBounded(steps: seq<Step>, slot: Slot)
    ensures var all := Total(steps, slot); all.sends <= 4 * all.firsts + all.refused + 3 * all.stale
  {
    hide Run, Total, Untouched, SlotInv, TallyOf;
    TallyAlongRun(steps, slot);
    SendsAreBounded(steps, slot);
    TallyIsBounded(Run(steps), slot);
  }

  lemma TallyIsBounded(st: State, slot: Slot)
    requires SlotInv(st, slot)
    ensures TallyOf(st, slot).sent <= 4 + Excess(TallyOf(st, slot))
  {
    hide Owned;
  }

  // ---------- Parts of messages ----------

  predicate SendsSms(step: Step) {
    step.Send? && step.request.Sms?
  }

  predicate SamePart(q: SmsRequest, r: SmsRequest) {
    q.messageId == r.messageId && q.partNo == r.partNo
  }

  /** Every part is first sent once, with an identifier of its message alone. */
  predicate Orderly(steps: seq<Step>) {
    && (forall i :: 0 <= i < |steps| && SendsSms(steps[i]) ==> PlainPart(steps[i].request.sms))
    && (forall i, j :: 0 <= i < j < |steps| && SendsSms(steps[i]) && SendsSms(steps[j]) ==> !SamePart(steps[i].request.sms, steps[j].request.sms))
  }

  lemma {:induction false} FirstSentOnce(steps: seq<Step>, part: SmsRequest)
    requires Orderly(steps) && PlainPart(part)
    ensures Total(steps, SlotOf(Sms(part))).firsts <= 1
    ensures Total(steps, SlotOf(Sms(part))).firsts > 0 ==> exists i :: 0 <= i < |steps| && SendsSms(steps[i]) && SamePart(steps[i].request.sms, part)
  {
    hide SmsKey, UssdKey, PlainPart, Run, Fires;
    if steps != [] {
      var front, last := steps[..|steps| - 1], steps[|steps| - 1];
      FirstSentOnce(front, part);
      if IsFirst(last, SlotOf(Sms(part))) {
        PartKeysDiffer(last.request.sms, part);
      }
    }
  }

  /**
   The promise as the service keeps it: a part of a message is handed to the transport at most four times,
   plus once for each of its writes that the store refused and three times for each stale replay of it.
   */
  lemma PartIsSentAtMostFourTimes(steps: seq<Step>, part: SmsRequest)
    requires Orderly(steps) && PlainPart(part)
    ensures var all := Total(steps, SlotOf(Sms(part))); all.sends <= 4 + all.refused + 3 * all.stale
  {
    hide Total, SlotOf, Orderly, PlainPart;
    FirstSentOnce(steps, part);
    TransmissionsAreBounded(steps, SlotOf(Sms(part)));
  }
}
