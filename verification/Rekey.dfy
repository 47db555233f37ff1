/** The CHILD_SA rekey timer of section 2.8 of RFC 7296: due and expiry times, and when a run never expires. */
module Rekey {
  import opened Wrappers

  datatype Policy = Policy(lifetime: int, leadTime: int, disabled: bool)

  datatype Error = NegativeLifetime | NegativeLeadTime | LeadTimeTooLong

  /** The policy to use, or none when rekeying is off. */
  function Normalize(p: Policy): (r: Result<Option<Policy>, Error>)
    ensures r.Ok? && r.value.Some? ==> r.value.value == p && Enabled(p)
    ensures Enabled(p) <==> r.Ok? && r.value.Some?
  {
    if p.lifetime < 0 then Err(NegativeLifetime)
    else if p.leadTime < 0 then Err(NegativeLeadTime)
    else if p.disabled || p.lifetime == 0 then Ok(None)
    else if p.leadTime >= p.lifetime then Err(LeadTimeTooLong)
    else Ok(Some(p))
  }

  predicate Enabled(p: Policy) {
    !p.disabled && 0 <= p.leadTime < p.lifetime
  }

  datatype Window = Window(due: bool, expired: bool, establishedAt: int, dueAt: int, expiresAt: int,
                           age: int, timeToRekey: int, timeToExpire: int)

  function Remaining(from: int, until: int): int {
    if from < until then until - from else 0
  }

  function WindowFor(p: Policy, establishedAt: int, now: int): Window {
    var at := if establishedAt == 0 then now else establishedAt;
    var expiresAt := at + p.lifetime;
    var dueAt := expiresAt - p.leadTime;
    Window(now >= dueAt, now >= expiresAt, at, dueAt, expiresAt, Remaining(at, now), Remaining(now, dueAt), Remaining(now, expiresAt))
  }

  datatype Decision = Decision(due: bool, dueAt: int, expiresAt: int, nextDue: int, expired: bool)

  class ChildSaRekey {
    const policy: Policy
    var establishedAt: int

    constructor (policy: Policy, establishedAt: int)
      ensures this.policy == policy && this.establishedAt == establishedAt
    {
      this.policy, this.establishedAt := policy, establishedAt;
    }

    function DueAt(): int
      reads this
    {
      establishedAt + (policy.lifetime - policy.leadTime)
    }

    function ExpiresAt(): int
      reads this
    {
      establishedAt + policy.lifetime
    }

    /** A poll is due exactly inside the window, and its times are the state's own. */
    method Advance(now: int) returns (d: Decision)
      requires Enabled(policy) && establishedAt > 0
      ensures d == Decided(policy, establishedAt, now)
      ensures d.dueAt == DueAt() && d.expiresAt == ExpiresAt()
      ensures d.due <==> DueAt() <= now
      ensures d.expired <==> ExpiresAt() <= now
    {
      var w := WindowFor(policy, establishedAt, now);
      d := Decision(false, w.dueAt, w.expiresAt, w.dueAt, w.expired);
      if d.expired {
        d := d.(due := true);
      } else if now >= d.dueAt {
        d := d.(due := true);
      }
    }

    method RecordRekey(at: int)
      modifies this`establishedAt
      ensures establishedAt == at
    {
      establishedAt := at;
    }

    /** A session poll: rekeys when due, and records the rekey if the exchange succeeds. */
    method Turn(now: int, succeeds: bool) returns (d: Decision)
      requires Enabled(policy) && establishedAt > 0 && now > 0
      modifies this
      ensures d == Decided(policy, old(establishedAt), now)
      ensures establishedAt == Next(policy, old(establishedAt), Poll(now, succeeds))
    {
      d := Advance(now);
      if d.due && succeeds {
        RecordRekey(now);
      }
    }
  }

  function Decided(p: Policy, establishedAt: int, now: int): Decision {
    var w := WindowFor(p, establishedAt, now);
    Decision(w.expired || w.due, w.dueAt, w.expiresAt, w.dueAt, w.expired)
  }

  // ---------- Whole runs ----------

  /** A poll, or a rekey asked for explicitly. */
  datatype Event = Poll(time: int, succeeds: bool) | Explicit(time: int)

  function Next(p: Policy, establishedAt: int, e: Event): int {
    match e
    case Poll(now, succeeds) => if Decided(p, establishedAt, now).due && succeeds then now else establishedAt
    case Explicit(at) => at
  }

  function After(p: Policy, establishedAt: int, events: seq<Event>): int {
    if events == [] then establishedAt else Next(p, After(p, establishedAt, events[..|events| - 1]), events[|events| - 1])
  }

  function TimeBefore(establishedAt: int, events: seq<Event>, i: nat): int
    requires i < |events|
  {
    if i == 0 then establishedAt else events[i - 1].time
  }

  /** Every event comes within the gap of the one before it, starting from establishment, and every exchange succeeds. */
  predicate Punctual(gap: int, establishedAt: int, events: seq<Event>) {
    forall i :: 0 <= i < |events| ==>
      && 0 < events[i].time <= TimeBefore(establishedAt, events, i) + gap
      && (events[i].Poll? ==> events[i].succeeds)
  }

  /** The time of the latest event, or of establishment. */
  function Latest(establishedAt: int, events: seq<Event>): int {
    if events == [] then establishedAt else events[|events| - 1].time
  }

  lemma PunctualPrefix(gap: int, establishedAt: int, events: seq<Event>, n: nat)
    requires Punctual(gap, establishedAt, events) && n < |events|
    ensures Punctual(gap, establishedAt, events[..n])
    ensures 0 < events[n].time <= Latest(establishedAt, events[..n]) + gap && (events[n].Poll? ==> events[n].succeeds)
  {
    var front := events[..n];
    assert forall i :: 0 <= i < n ==> front[i] == events[i] && TimeBefore(establishedAt, front, i) == TimeBefore(establishedAt, events, i);
    assert TimeBefore(establishedAt, events, n) == Latest(establishedAt, front);
  }

  /** Just after an event, the rekey is not due. */
  lemma {:induction false} NotDueAfter(p: Policy, establishedAt: int, events: seq<Event>)
    requires Enabled(p) && establishedAt > 0 && Punctual(p.leadTime, establishedAt, events)
    ensures var at := After(p, establishedAt, events);
            at > 0 && Latest(establishedAt, events) < at + (p.lifetime - p.leadTime)
  {
    hide Punctual;
    if events != [] {
      PunctualPrefix(p.leadTime, establishedAt, events, |events| - 1);
      NotDueAfter(p, establishedAt, events[..|events| - 1]);
    }
  }

  /** With events at most the lead time apart and successful exchanges, no poll of the run finds the SA expired. */
  lemma {:induction false} NeverExpires(p: Policy, establishedAt: int, events: seq<Event>, i: nat)
    requires Enabled(p) && establishedAt > 0 && Punctual(p.leadTime, establishedAt, events)
    requires i < |events| && events[i].Poll?
    ensures !Decided(p, After(p, establishedAt, events[..i]), events[i].time).expired
  {
    hide Punctual, After;
    PunctualPrefix(p.leadTime, establishedAt, events, i);
    NotDueAfter(p, establishedAt, events[..i]);
  }

  /** A poll of a run whose events keep to the gap does not find the SA expired. */
  predicate StaysUp(p: Policy, establishedAt: int, gap: int, events: seq<Event>, i: nat) {
    Punctual(gap, establishedAt, events) && i < |events| && events[i].Poll? ==>
      !Decided(p, After(p, establishedAt, events[..i]), events[i].time).expired
  }

  /** Polls one unit apart, from establishment on. */
  function Ticks(establishedAt: int, n: nat): (events: seq<Event>)
    ensures |events| == n && forall i :: 0 <= i < n ==> events[i] == Poll(establishedAt + 1 + i, true)
  {
    seq(n, i requires 0 <= i < n => Poll(establishedAt + 1 + i, true))
  }

  lemma {:induction false} TicksDoNothing(p: Policy, establishedAt: int, n: nat)
    requires establishedAt > 0 && n < p.lifetime - p.leadTime && Enabled(p)
    ensures After(p, establishedAt, Ticks(establishedAt, n)) == establishedAt
  {
    if n > 0 {
      var ticks := Ticks(establishedAt, n);
      assert ticks[..n - 1] == Ticks(establishedAt, n - 1);
      TicksDoNothing(p, establishedAt, n - 1);
    }
  }

  /** Ticks until just before the rekey is due, then nothing until expiry. */
  function LateRun(p: Policy, establishedAt: int): (events: seq<Event>)
    requires Enabled(p)
    ensures |events| == p.lifetime - p.leadTime
  {
    Ticks(establishedAt, p.lifetime - p.leadTime - 1) + [Poll(establishedAt + p.lifetime, true)]
  }

  lemma LateRunIsPunctual(p: Policy, establishedAt: int, gap: int)
    requires Enabled(p) && establishedAt > 0 && gap > p.leadTime
    ensures Punctual(gap, establishedAt, LateRun(p, establishedAt))
  {
  }

  lemma LateRunExpires(p: Policy, establishedAt: int)
    requires Enabled(p) && establishedAt > 0
    ensures var events := LateRun(p, establishedAt);
            var last := |events| - 1;
            events[last].Poll? && Decided(p, After(p, establishedAt, events[..last]), events[last].time).expired
  {
    var n := p.lifetime - p.leadTime - 1;
    TicksDoNothing(p, establishedAt, n);
    assert LateRun(p, establishedAt)[..n] == Ticks(establishedAt, n);
  }

  /** No poll of any run whose events keep to the gap finds the SA expired if and only if the gap is within the lead time. */
  lemma NeverExpiresIff(p: Policy, establishedAt: int, gap: int)
    requires Enabled(p) && establishedAt > 0
    ensures (forall events, i: nat :: StaysUp(p, establishedAt, gap, events, i)) <==> gap <= p.leadTime
  {
    hide After, Decided, LateRun;
    if gap <= p.leadTime {
      forall events: seq<Event>, i: nat
        ensures StaysUp(p, establishedAt, gap, events, i)
      {
        if Punctual(gap, establishedAt, events) && i < |events| && events[i].Poll? {
          assert Punctual(p.leadTime, establishedAt, events);
          NeverExpires(p, establishedAt, events, i);
        }
      }
    } else {
      var events := LateRun(p, establishedAt);
      LateRunIsPunctual(p, establishedAt, gap);
      LateRunExpires(p, establishedAt);
      assert !StaysUp(p, establishedAt, gap, events, |events| - 1);
    }
  }

  /** Polling at the reported time rekeys there, and not before; only without a lead time is that too late. */
  lemma NextDueRekeys(p: Policy, establishedAt: int, now: int)
    requires Enabled(p) && establishedAt > 0
    ensures var next := Decided(p, establishedAt, now).nextDue;
            && Next(p, establishedAt, Poll(next, true)) == next
            && (Decided(p, establishedAt, next).expired <==> p.leadTime == 0)
            && forall t :: t < next ==> Next(p, establishedAt, Poll(t, true)) == establishedAt
  {
  }

  /** The remaining times of a window lead to its due and expiry times, and its age back to establishment. */
  lemma WindowAddsUp(p: Policy, establishedAt: int, now: int)
    requires Enabled(p)
    ensures var w := WindowFor(p, establishedAt, now);
            && (w.due <==> w.timeToRekey == 0) && (!w.due ==> now + w.timeToRekey == w.dueAt)
            && (w.expired <==> w.timeToExpire == 0) && (!w.expired ==> now + w.timeToExpire == w.expiresAt)
            && (now >= w.establishedAt ==> now - w.age == w.establishedAt) && (now < w.establishedAt ==> w.age == 0)
            && w.expiresAt - w.dueAt == p.leadTime && w.expiresAt - w.establishedAt == p.lifetime
            && w.establishedAt == (if establishedAt == 0 then now else establishedAt)
  {
  }
}
