/**
 Where the bound of four sends fails, and exactly when: writes that the store refuses, replays of a record
 that it no longer holds, and envelopes whose replay goes under another key.
 */
module RetryExcess {
  import opened Wrappers
  import opened Text
  import opened RetryQueue
  import opened RetryChain
  import opened RetryRuns
  import Backoff

  const GAP: int := DEFAULT_POLICY.maxDelay

  // ---------- Runs that reach the bound ----------

  lemma AfterLast(steps: seq<Step>, step: Step, slot: Slot)
    ensures Run(steps + [step]) == Apply(Run(steps), step)
    ensures Total(steps + [step], slot) == Added(Total(steps, slot), Run(steps), step, slot)
  {
    hide Apply, Added;
    assert (steps + [step])[..|steps|] == steps;
  }

  /** The run has read the envelope, which records the n-th send of the request. */
  ghost predicate HasRead(steps: seq<Step>, r: Request, e: Envelope, n: int, at: int) {
    e in Run(steps).copies && 1 <= n < 4 && 0 < at && Records(e, r, n, at, UNREACHABLE)
  }

  lemma DueLater(r: Request, e: Envelope, n: int, at: int, later: int)
    requires Records(e, r, n, at, UNREACHABLE) && 1 <= n < 4 && 0 < at && at + GAP <= later
    ensures e.IsDue(later) && e.Place() == SlotOf(r) && e.HasReplayPayload()
    ensures Records(Replayed(e, later, UNREACHABLE), r, n + 1, later, UNREACHABLE)
  {
    hide Records, Replayed, SlotOf;
    var next := NextSend(e, r, n, at, later);
    RecordsAreOwned(e, r, n, at, UNREACHABLE);
  }

  /** What a slot holds after the n-th send was recorded under it. */
  function Left(before: Option<Envelope>, next: Envelope, n: int, accepted: bool): Option<Envelope> {
    if !accepted then before else if n < 4 then Some(next) else None
  }

  lemma ReplayEffect(st: State, r: Request, e: Envelope, n: int, at: int, later: int, accepted: bool)
    requires e in st.copies && 1 <= n < 4 && 0 < at && Records(e, r, n, at, UNREACHABLE) && at + GAP <= later
    ensures e.HasReplayPayload()
    ensures var st', next := Apply(st, Replay(e, later, UNREACHABLE, accepted)), Replayed(e, later, UNREACHABLE);
            && Records(next, r, n + 1, later, UNREACHABLE) && st.copies <= st'.copies
            && Lookup(st'.store, SlotOf(r)) == Left(Lookup(st.store, SlotOf(r)), next, n + 1, accepted)
            && (accepted && n < 3 ==> next in st'.copies)
  {
    hide Records, Replayed, SlotOf, Recorded, Retryable, Lookup, Stale, Envelope.IsDue, TallyOf;
    DueLater(r, e, n, at, later);
    var next := Replayed(e, later, UNREACHABLE);
    RecordingTouchesOwnSlot(st.store, next, r, n + 1, later, UNREACHABLE, SlotOf(r));
    UnreachableIsRetryable();
    HeldIsValue(Recorded(st.store, next), SlotOf(r));
  }

  lemma ReplayTotals(all: Totals, st: State, r: Request, e: Envelope, n: int, at: int, later: int, accepted: bool)
    requires e in st.copies && 1 <= n < 4 && 0 < at && Records(e, r, n, at, UNREACHABLE) && at + GAP <= later
    ensures Added(all, st, Replay(e, later, UNREACHABLE, accepted), SlotOf(r))
            == Totals(all.firsts, all.sends + 1, all.refused + One(!accepted), all.stale + One(Stale(st, e)))
  {
    hide Records, Replayed, SlotOf, Stale, Envelope.IsDue;
    DueLater(r, e, n, at, later);
  }

  /** Replaying a copy sends once more; an accepted write leaves the next envelope, or nothing after the fourth. */
  lemma ReplayOnce(steps: seq<Step>, r: Request, e: Envelope, n: int, at: int, later: int, accepted: bool)
    requires HasRead(steps, r, e, n, at) && at + GAP <= later
    ensures e.HasReplayPayload()
    ensures var more, next := steps + [Replay(e, later, UNREACHABLE, accepted)], Replayed(e, later, UNREACHABLE);
            && Run(steps).copies <= Run(more).copies
            && (var all := Total(steps, SlotOf(r));
                Total(more, SlotOf(r))
                == Totals(all.firsts, all.sends + 1, all.refused + One(!accepted), all.stale + One(Stale(Run(steps), e))))
            && Lookup(Run(more).store, SlotOf(r)) == Left(Lookup(Run(steps).store, SlotOf(r)), next, n + 1, accepted)
            && (accepted && n < 3 ==> HasRead(more, r, next, n + 1, later))
            && HasRead(more, r, e, n, at)
  {
    hide Records, Replayed, SlotOf, Lookup, Stale, Envelope.IsDue, Apply, Added, Left, Run, Total;
    AfterLast(steps, Replay(e, later, UNREACHABLE, accepted), SlotOf(r));
    ReplayEffect(Run(steps), r, e, n, at, later, accepted);
    ReplayTotals(Total(steps, SlotOf(r)), Run(steps), r, e, n, at, later, accepted);
  }

  lemma UnreachableIsRetryable()
    ensures Retryable(UNREACHABLE)
  {
  }

  lemma HeldIsValue(m: Retries, slot: Slot)
    ensures Lookup(m, slot).Some? ==> Lookup(m, slot).value in m.Values
  {
  }

  /** The slot is empty, and a drain still holds the envelope of the first send. */
  ghost predicate Over(steps: seq<Step>, r: Request, e: Envelope) {
    HasRead(steps, r, e, 1, 1) && Lookup(Run(steps).store, SlotOf(r)) == None
  }

  lemma StillRead(steps: seq<Step>, more: seq<Step>, r: Request, e: Envelope, n: int, at: int)
    requires HasRead(steps, r, e, n, at) && Run(steps).copies <= Run(more).copies
    ensures HasRead(more, r, e, n, at)
  {
  }

  /** Three replays, from a copy of the first send's envelope to the last attempt. */
  lemma Round(steps: seq<Step>, r: Request, e: Envelope, start: int) returns (more: seq<Step>)
    requires HasRead(steps, r, e, 1, 1) && 1 + GAP <= start
    ensures Over(more, r, e)
    ensures var all := Total(steps, SlotOf(r));
            Total(more, SlotOf(r)) == Totals(all.firsts, all.sends + 3, all.refused, all.stale + One(Stale(Run(steps), e)))
  {
    hide Records, Replayed, SlotOf, Run, Total, Lookup, Stale, HasRead;
    FreshIsNotStale(steps, r, e, 1, 1);
    ReplayOnce(steps, r, e, 1, 1, start, true);
    more := steps + [Replay(e, start, UNREACHABLE, true)];
    var second := Replayed(e, start, UNREACHABLE);
    FreshIsNotStale(more, r, second, 2, start);
    ReplayOnce(more, r, second, 2, start, start + GAP, true);
    more := more + [Replay(second, start + GAP, UNREACHABLE, true)];
    var third := Replayed(second, start + GAP, UNREACHABLE);
    FreshIsNotStale(more, r, third, 3, start + GAP);
    ReplayOnce(more, r, third, 3, start + GAP, start + 2 * GAP, true);
    more := more + [Replay(third, start + 2 * GAP, UNREACHABLE, true)];
    StillRead(steps, more, r, e, 1, 1);
  }

  lemma FreshIsNotStale(steps: seq<Step>, r: Request, e: Envelope, n: int, at: int)
    requires HasRead(steps, r, e, n, at)
    ensures Stale(Run(steps), e) <==> Lookup(Run(steps).store, SlotOf(r)) != Some(e)
    ensures e.HasReplayPayload()
  {
    hide Records, SlotOf, Run, Lookup;
    RecordsAreOwned(e, r, n, at, UNREACHABLE);
    UnreachableIsRetryable();
    PendingIff(e, r, n, at, UNREACHABLE);
  }

  /** The first send, whose envelope is stored. */
  lemma SendOnce(r: Request)
    ensures var steps, e := [Send(r, 1, UNREACHABLE, true)], First(r, 1, UNREACHABLE);
            HasRead(steps, r, e, 1, 1) && Lookup(Run(steps).store, SlotOf(r)) == Some(e) && Total(steps, SlotOf(r)) == Totals(1, 1, 0, 0)
  {
    hide Records, First, SlotOf, Recorded, Retryable, Lookup;
    var step := Send(r, 1, UNREACHABLE, true);
    assert [step] == [] + [step];
    AfterLast([], step, SlotOf(r));
    FirstRecords(r, 1, UNREACHABLE);
    RecordingTouchesOwnSlot(map[], First(r, 1, UNREACHABLE), r, 1, 1, UNREACHABLE, SlotOf(r));
    UnreachableIsRetryable();
    HeldIsValue(Apply(Run([]), step).store, SlotOf(r));
  }

  /** One first send, then replays whose outcome the store refuses to record. */
  function Refusing(r: Request, k: nat): seq<Step> {
    if k == 0 then [Send(r, 1, UNREACHABLE, true)]
    else Refusing(r, k - 1) + [Replay(First(r, 1, UNREACHABLE), 1 + k * GAP, UNREACHABLE, false)]
  }

  lemma GapsGrow(m: nat, k: nat)
    requires m <= k
    ensures m * GAP <= k * GAP
  {
  }

  lemma {:induction false} RefusedWritesRepeat(r: Request, k: nat)
    ensures var steps, e := Refusing(r, k), First(r, 1, UNREACHABLE);
            HasRead(steps, r, e, 1, 1) && Lookup(Run(steps).store, SlotOf(r)) == Some(e) && Total(steps, SlotOf(r)) == Totals(1, 1 + k, k, 0)
  {
    hide Records, First, SlotOf, Run, Total, Lookup, Stale, HasRead, Replayed;
    if k == 0 {
      SendOnce(r);
    } else {
      var e := First(r, 1, UNREACHABLE);
      GapsGrow(1, k);
      RefusedWritesRepeat(r, k - 1);
      FreshIsNotStale(Refusing(r, k - 1), r, e, 1, 1);
      ReplayOnce(Refusing(r, k - 1), r, e, 1, 1, 1 + k * GAP, false);
    }
  }

  /** For any number of refused writes and stale replays there is a run of one first send that reaches the bound. */
  lemma {:induction false} BoundIsReached(r: Request, refused: nat, stale: nat) returns (steps: seq<Step>)
    ensures Over(steps, r, First(r, 1, UNREACHABLE))
    ensures Total(steps, SlotOf(r)) == Totals(1, 4 + refused + 3 * stale, refused, stale)
  {
    hide Records, First, SlotOf, Run, Total, Lookup, Stale, HasRead;
    var e := First(r, 1, UNREACHABLE);
    GapsGrow(1, refused + 1 + 3 * stale);
    var start := 1 + (refused + 1 + 3 * stale) * GAP;
    if stale == 0 {
      RefusedWritesRepeat(r, refused);
      FreshIsNotStale(Refusing(r, refused), r, e, 1, 1);
      steps := Round(Refusing(r, refused), r, e, start);
    } else {
      var before := BoundIsReached(r, refused, stale - 1);
      FreshIsNotStale(before, r, e, 1, 1);
      steps := Round(before, r, e, start);
    }
  }

  /** A run in which the request is first sent once, with so many refused writes and stale replays, keeps to four sends. */
  predicate KeepsToFour(steps: seq<Step>, slot: Slot, refused: nat, stale: nat) {
    var all := Total(steps, slot);
    all.firsts == 1 && all.refused == refused && all.stale == stale ==> all.sends <= 4
  }

  /** All runs with a given number of refused writes and stale replays keep to four sends exactly when there are none. */
  lemma KeepsToFourIff(r: Request, refused: nat, stale: nat)
    ensures (forall steps :: KeepsToFour(steps, SlotOf(r), refused, stale)) <==> refused == 0 && stale == 0
  {
    hide Total, SlotOf, Over;
    if refused == 0 && stale == 0 {
      forall steps
        ensures KeepsToFour(steps, SlotOf(r), refused, stale)
      {
        TransmissionsAreBounded(steps, SlotOf(r));
      }
    } else {
      var steps := BoundIsReached(r, refused, stale);
      assert !KeepsToFour(steps, SlotOf(r), refused, stale);
    }
  }

  // ---------- Replays under another key ----------

  /** The key that a replay hands on is neither blank nor the envelope's own. */
  predicate Drifts(e: Envelope) {
    CarriedKey(e) != "" && CarriedKey(e) != TrimSpace(e.key)
  }

  lemma ReplayedShape(e: Envelope, now: int, a: Answer)
    requires e.IsDue(now)
    ensures var next := Replayed(e, now, a);
            && next.operation == e.operation && TrimSpace(next.key) == next.key != ""
            && (next.key == TrimSpace(e.key) <==> !Drifts(e))
            && (next.IsPending() ==> next.Storable())
  {
    hide SmsKey, UssdKey, Retryable, RetryDelay, TrimSpace, Trimmed;
    ReplayKeepsKeyIff(e, now, a);
    HandedOn(e, now, a);
  }

  lemma HandedOn(e: Envelope, now: int, a: Answer)
    requires e.IsDue(now)
    ensures var next := Replayed(e, now, a);
            && next.key == FirstNonEmpty(if e.operation == SMS_SUBMIT then e.idempotencyKey else e.sessionKey, e.key) != ""
            && next.operation == e.operation && next.HasReplayPayload()
            && (next.IsPending() ==> !next.IsTerminal())
  {
    hide SmsKey, UssdKey, Retryable, RetryDelay, TrimSpace;
  }

  /** Replaying a stored envelope updates or removes its record exactly when the key does not drift; otherwise the record stays. */
  lemma ReplayUpdatesRecordIff(m: Retries, e: Envelope, now: int, a: Answer)
    requires e.IsDue(now) && Lookup(m, e.Place()) == Some(e)
    ensures var next := Replayed(e, now, a);
            Lookup(Recorded(m, next), e.Place())
            == if Drifts(e) then Some(e) else if next.IsPending() then Some(next) else None
  {
    hide SmsKey, UssdKey, Replayed, TrimSpace, Drifts, Envelope.IsPending;
    ReplayedShape(e, now, a);
    StorableHasOperationOf(e, now);
  }

  lemma StorableHasOperationOf(e: Envelope, now: int)
    requires e.IsDue(now)
    ensures e.operation != ""
  {
  }

  /** Draining a slot again and again: the store that results, and the number of sends. */
  function Drained(m: Retries, slot: Slot, now: int, answers: seq<Answer>): (Retries, nat) {
    if answers == [] then (m, 0)
    else
      var (before, sends) := Drained(m, slot, now, answers[..|answers| - 1]);
      if slot in before && before[slot].IsDue(now) then (Recorded(before, Replayed(before[slot], now, answers[|answers| - 1])), sends + 1)
      else (before, sends)
  }

  /** A record whose key drifts is sent by every drain, whatever is answered, and is never removed. */
  lemma {:induction false} DriftingRecordIsSentForever(m: Retries, e: Envelope, now: int, answers: seq<Answer>)
    requires e.IsDue(now) && Lookup(m, e.Place()) == Some(e) && Drifts(e)
    ensures var (after, sends) := Drained(m, e.Place(), now, answers);
            Lookup(after, e.Place()) == Some(e) && sends == |answers|
  {
    hide Recorded, Replayed, Drifts, Envelope.IsDue, Envelope.Place;
    if answers != [] {
      DriftingRecordIsSentForever(m, e, now, answers[..|answers| - 1]);
      ReplayUpdatesRecordIff(Drained(m, e.Place(), now, answers[..|answers| - 1]).0, e, now, answers[|answers| - 1]);
    }
  }

  /** The key that the witness below gives, unlike any session key. */
  const OWN_KEY := "retry"

  /** A USSD envelope made with an idempotency key of the caller's own is such a record. */
  lemma OwnKeyDrifts(q: UssdRequest)
    ensures var e := UssdEnvelope(q, UNREACHABLE, Options(1, UNSET_POLICY, 1, OWN_KEY, ""));
            Drifts(e) && e.Storable() && e.IsDue(1 + GAP)
  {
    hide UssdKey;
    UssdKeyTrimmed(q);
    OwnKeyIsOther(q);
    Backoff.Monotone(DEFAULT_POLICY.baseDelay, DEFAULT_POLICY.maxDelay, 1, 1);
  }

  lemma OwnKeyIsOther(q: UssdRequest)
    ensures Trimmed(OWN_KEY) && UssdKey(q) != OWN_KEY
  {
    assert UssdKey(q)[0] == 'u';
  }
}
