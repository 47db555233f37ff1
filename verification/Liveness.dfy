/**
 Dead peer detection and NAT keepalives of an IKE session (sections 2.4 and 2.23 of RFC 7296): the
 timed state machine, what it takes to declare a peer dead, and when the next poll is due.
 */
module Liveness {
  import opened Wrappers

  const SECOND := 1_000_000_000

  datatype Config = Config(keepalive: int, interval: int, timeout: int, maxMissed: int, noKeepalive: bool, noDpd: bool)

  datatype Error = NegativeValue | TimeoutExceedsInterval

  function OrDefault(v: int, fallback: int): int {
    if v == 0 then fallback else v
  }

  function Normalize(c: Config): (r: Result<Config, Error>)
    ensures r.Ok? ==> Sane(r.value) && (!c.noDpd ==> r.value.timeout <= r.value.interval)
    ensures r.Ok? <==> c.keepalive >= 0 && c.interval >= 0 && c.timeout >= 0 && c.maxMissed >= 0
                       && (c.noDpd || OrDefault(c.timeout, 15 * SECOND) <= OrDefault(c.interval, 60 * SECOND))
    ensures r.Ok? && Sane(c) ==> r.value == c
  {
    if c.keepalive < 0 || c.interval < 0 || c.timeout < 0 || c.maxMissed < 0 then Err(NegativeValue)
    else
      var n := c.(keepalive := OrDefault(c.keepalive, 20 * SECOND), interval := OrDefault(c.interval, 60 * SECOND),
                  timeout := OrDefault(c.timeout, 15 * SECOND), maxMissed := OrDefault(c.maxMissed, 3));
      if !c.noDpd && n.timeout > n.interval then Err(TimeoutExceedsInterval) else Ok(n)
  }

  predicate Sane(c: Config) {
    c.keepalive > 0 && c.interval > 0 && c.timeout > 0 && c.maxMissed > 0
  }

  // ---------- The machine as a function of its state ----------

  datatype State = State(cfg: Config, lastInbound: int, lastOutbound: int, lastProbe: int, outstanding: bool,
                         probeId: int, missed: int, dead: bool)

  datatype Action = NoAction | SendKeepalive | SendDpd | DeclareDead

  /** What a poll reports; zero stands for the unset time. */
  datatype Decision = Decision(action: Action, probeId: int, missed: int, idleFor: int, deadline: int, nextDue: int, dead: bool)

  function New(cfg: Config, establishedAt: int): State {
    State(cfg, establishedAt, establishedAt, 0, false, 0, 0, false)
  }

  function Inbound(s: State, at: int): State {
    s.(lastInbound := if at > s.lastInbound || s.lastInbound == 0 then at else s.lastInbound,
       outstanding := false, missed := 0, dead := false)
  }

  function Outbound(s: State, at: int): State {
    s.(lastOutbound := if at > s.lastOutbound || s.lastOutbound == 0 then at else s.lastOutbound)
  }

  /** The result of a probe; a failure is charged while a probe is outstanding. */
  function ProbeResult(s: State, at: int, ok: bool): State {
    if ok then Inbound(s, at)
    else if !s.outstanding || s.dead then s
    else s.(missed := s.missed + 1, dead := s.missed + 1 >= s.cfg.maxMissed)
  }

  function Probe(s: State, now: int): State {
    s.(probeId := (s.probeId + 1) % 0x1_0000_0000, outstanding := true, lastProbe := now, lastOutbound := now)
  }

  function PollDpd(s: State, now: int): (State, Action) {
    if s.cfg.noDpd then (s, NoAction)
    else if s.outstanding then
      if now < s.lastProbe + s.cfg.timeout then (s, NoAction)
      else
        var m := s.(missed := s.missed + 1);
        if m.missed >= s.cfg.maxMissed then (m.(dead := true), DeclareDead) else (Probe(m, now), SendDpd)
    else if now < s.lastInbound + s.cfg.interval then (s, NoAction)
    else (Probe(s, now), SendDpd)
  }

  function Poll(s: State, now: int): (State, Action) {
    if s.dead then (s, NoAction)
    else
      var (t, action) := PollDpd(s, now);
      if action != NoAction then (t, action)
      else if !s.cfg.noKeepalive && now >= s.lastOutbound + s.cfg.keepalive then (s.(lastOutbound := now), SendKeepalive)
      else (s, NoAction)
  }

  function Earlier(current: int, candidate: int): int {
    if candidate == 0 then current else if current == 0 || candidate < current then candidate else current
  }

  function NextDue(s: State, now: int): int {
    var dpd := if s.cfg.noDpd then 0
               else Earlier(0, if s.outstanding then s.lastProbe + s.cfg.timeout else s.lastInbound + s.cfg.interval);
    var due := if s.cfg.noKeepalive || s.outstanding then dpd else Earlier(dpd, s.lastOutbound + s.cfg.keepalive);
    if due == 0 || due < now then now else due
  }

  function Report(s: State, now: int, action: Action): Decision {
    Decision(action, s.probeId, s.missed, if s.lastInbound != 0 && now > s.lastInbound then now - s.lastInbound else 0,
             if s.outstanding then s.lastProbe + s.cfg.timeout else 0, NextDue(s, now), s.dead)
  }

  // ---------- The object ----------

  class IkeLiveness {
    const cfg: Config
    var lastInbound: int
    var lastOutbound: int
    var lastProbe: int
    var outstanding: bool
    var probeId: int
    var missed: int
    var dead: bool

    ghost function Abs(): State
      reads this
    {
      State(cfg, lastInbound, lastOutbound, lastProbe, outstanding, probeId, missed, dead)
    }

    constructor (cfg: Config, establishedAt: int)
      ensures Abs() == New(cfg, establishedAt)
    {
      this.cfg := cfg;
      lastInbound, lastOutbound, lastProbe := establishedAt, establishedAt, 0;
      outstanding, probeId, missed, dead := false, 0, 0, false;
    }

    method RecordInbound(at: int)
      modifies this
      ensures Abs() == Inbound(old(Abs()), at)
    {
      if at > lastInbound || lastInbound == 0 {
        lastInbound := at;
      }
      outstanding, missed, dead := false, 0, false;
    }

    method RecordOutbound(at: int)
      modifies this
      ensures Abs() == Outbound(old(Abs()), at)
    {
      if at > lastOutbound || lastOutbound == 0 {
        lastOutbound := at;
      }
    }

    method RecordProbeResult(at: int, ok: bool)
      modifies this
      ensures Abs() == ProbeResult(old(Abs()), at, ok)
    {
      if ok {
        RecordInbound(at);
        return;
      }
      if !outstanding || dead {
        return;
      }
      missed := missed + 1;
      if missed >= cfg.maxMissed {
        dead := true;
      }
    }

    method Advance(now: int) returns (d: Decision)
      modifies this
      ensures var (s, action) := Poll(old(Abs()), now); Abs() == s && d == Report(s, now, action)
    {
      if dead {
        d := Decide(now, NoAction);
        return;
      }
      d := AdvanceDpd(now);
      if d.action != NoAction {
        return;
      }
      if !cfg.noKeepalive && now >= lastOutbound + cfg.keepalive {
        lastOutbound := now;
        d := Decide(now, SendKeepalive);
        return;
      }
      d := Decide(now, NoAction);
    }

    method AdvanceDpd(now: int) returns (d: Decision)
      modifies this
      ensures var (s, action) := PollDpd(old(Abs()), now); Abs() == s && d == Report(s, now, action)
    {
      if cfg.noDpd {
        d := Decide(now, NoAction);
        return;
      }
      if outstanding {
        if now < lastProbe + cfg.timeout {
          d := Decide(now, NoAction);
          return;
        }
        missed := missed + 1;
        if missed >= cfg.maxMissed {
          dead := true;
          d := Decide(now, DeclareDead);
          return;
        }
        d := SendProbe(now);
        return;
      }
      if now < lastInbound + cfg.interval {
        d := Decide(now, NoAction);
        return;
      }
      d := SendProbe(now);
    }

    method SendProbe(now: int) returns (d: Decision)
      modifies this
      ensures Abs() == Probe(old(Abs()), now) && d == Report(Abs(), now, SendDpd)
    {
      probeId := (probeId + 1) % 0x1_0000_0000;
      outstanding, lastProbe, lastOutbound := true, now, now;
      d := Decide(now, SendDpd);
    }

    method Decide(now: int, action: Action) returns (d: Decision)
      ensures d == Report(Abs(), now, action)
    {
      var deadline := 0;
      if outstanding {
        deadline := lastProbe + cfg.timeout;
      }
      var due := 0;
      if !cfg.noDpd {
        due := Earlier(due, if outstanding then lastProbe + cfg.timeout else lastInbound + cfg.interval);
      }
      if !cfg.noKeepalive && !outstanding {
        due := Earlier(due, lastOutbound + cfg.keepalive);
      }
      if due == 0 || due < now {
        due := now;
      }
      var idleFor := 0;
      if lastInbound != 0 && now > lastInbound {
        idleFor := now - lastInbound;
      }
      d := Decision(action, probeId, missed, idleFor, deadline, due, dead);
    }
  }

  // ---------- What it takes to declare a peer dead ----------

  datatype Event = Polled(now: int) | Received(at: int) | Sent(at: int)

  /** A state together with the number of probes sent since the peer was last heard. */
  datatype Tracked = Tracked(s: State, probes: int)

  function Next(t: Tracked, e: Event): Tracked {
    match e
    case Polled(now) =>
      var (s, action) := Poll(t.s, now);
      Tracked(s, if action == SendDpd then t.probes + 1 else t.probes)
    case Received(at) => Tracked(Inbound(t.s, at), 0)
    case Sent(at) => Tracked(Outbound(t.s, at), t.probes)
  }

  function After(t: Tracked, events: seq<Event>): Tracked {
    if events == [] then t else Next(After(t, events[..|events| - 1]), events[|events| - 1])
  }

  /** Probes are charged once each, and each was given its full time. */
  predicate FairlyCharged(t: Tracked) {
    var s := t.s;
    && Sane(s.cfg) && s.missed >= 0
    && (!s.outstanding ==> s.missed == 0 && t.probes == 0 && !s.dead)
    && (s.outstanding && !s.dead ==>
          t.probes == s.missed + 1 <= s.cfg.maxMissed
          && s.lastProbe >= s.lastInbound + s.cfg.interval + s.missed * s.cfg.timeout)
    && (s.dead ==> t.probes == s.missed == s.cfg.maxMissed)
  }

  lemma OneMoreTimeout(m: int, timeout: int)
    ensures (m + 1) * timeout == m * timeout + timeout
  {
  }

  lemma NextIsFair(t: Tracked, e: Event)
    requires FairlyCharged(t)
    ensures FairlyCharged(Next(t, e))
  {
    OneMoreTimeout(t.s.missed, t.s.cfg.timeout);
  }

  lemma {:induction false} RunIsFair(t: Tracked, events: seq<Event>)
    requires FairlyCharged(t)
    ensures FairlyCharged(After(t, events))
  {
    if events != [] {
      RunIsFair(t, events[..|events| - 1]);
      NextIsFair(After(t, events[..|events| - 1]), events[|events| - 1]);
    }
  }

  /**
   In every run of polls and recorded traffic, whatever the clock does: a peer is declared dead only
   after exactly the configured number of probes since it was last heard, each given its full time.
   */
  lemma DeathIsCharged(cfg: Config, establishedAt: int, events: seq<Event>, now: int)
    requires Sane(cfg)
    ensures var t := After(Tracked(New(cfg, establishedAt), 0), events);
            Poll(t.s, now).1 == DeclareDead ==>
              && t.probes == cfg.maxMissed
              && now >= t.s.lastInbound + cfg.interval + cfg.maxMissed * cfg.timeout
  {
    var start := Tracked(New(cfg, establishedAt), 0);
    RunIsFair(start, events);
    ConfigKept(start, events);
    var t := After(start, events);
    OneMoreTimeout(t.s.missed, cfg.timeout);
  }

  lemma {:induction false} ConfigKept(t: Tracked, events: seq<Event>)
    ensures After(t, events).s.cfg == t.s.cfg
  {
    if events != [] {
      ConfigKept(t, events[..|events| - 1]);
    }
  }

  // ---------- Through the session, a failed probe is charged twice ----------

  datatype SessionEvent = Turn(now: int, answered: bool) | Heard(at: int) | Wrote(at: int)

  /** A session poll runs the probe it decides on and records the result at once; without a probe handler it records nothing. */
  function SessionNext(t: Tracked, e: SessionEvent, handler: bool): Tracked {
    match e
    case Turn(now, answered) =>
      var n := Next(t, Polled(now));
      if Poll(t.s, now).1 != SendDpd || !handler then n
      else Tracked(ProbeResult(n.s, now, answered), if answered then 0 else n.probes)
    case Heard(at) => Next(t, Received(at))
    case Wrote(at) => Next(t, Sent(at))
  }

  function SessionAfter(t: Tracked, events: seq<SessionEvent>, handler: bool): Tracked {
    if events == [] then t
    else SessionNext(SessionAfter(t, events[..|events| - 1], handler), events[|events| - 1], handler)
  }

  function HalfUp(n: int): int {
    (n + 1) / 2
  }

  /** Between polls every outstanding probe has failed: it was charged then, and all before it twice. */
  predicate ChargedTwice(t: Tracked) {
    var s := t.s;
    && Sane(s.cfg) && s.missed >= 0
    && (!s.outstanding ==> s.missed == 0 && t.probes == 0 && !s.dead)
    && (s.outstanding ==>
          && t.probes >= 1 && !s.cfg.noDpd
          && s.lastProbe >= s.lastInbound + s.cfg.interval + (t.probes - 1) * s.cfg.timeout)
    && (s.outstanding && !s.dead ==> s.missed == 2 * t.probes - 1 < s.cfg.maxMissed)
    && (s.dead ==> s.missed >= s.cfg.maxMissed && t.probes == HalfUp(s.cfg.maxMissed))
  }

  lemma SessionNextCharges(t: Tracked, e: SessionEvent)
    requires ChargedTwice(t)
    ensures ChargedTwice(SessionNext(t, e, true))
  {
    OneMoreTimeout(t.probes - 1, t.s.cfg.timeout);
  }

  lemma {:induction false} SessionRunCharges(t: Tracked, events: seq<SessionEvent>)
    requires ChargedTwice(t)
    ensures ChargedTwice(SessionAfter(t, events, true)) && SessionAfter(t, events, true).s.cfg == t.s.cfg
  {
    hide ChargedTwice;
    if events != [] {
      SessionRunCharges(t, events[..|events| - 1]);
      SessionNextCharges(SessionAfter(t, events[..|events| - 1], true), events[|events| - 1]);
    }
  }

  /** In every sequential session run, a dead peer was sent exactly half the configured probes, rounded up. */
  lemma SessionDeathTakesHalf(cfg: Config, establishedAt: int, events: seq<SessionEvent>)
    requires Sane(cfg)
    ensures var t := SessionAfter(Tracked(New(cfg, establishedAt), 0), events, true);
            t.s.dead ==>
              && t.probes == HalfUp(cfg.maxMissed)
              && t.s.lastProbe >= t.s.lastInbound + cfg.interval + (HalfUp(cfg.maxMissed) - 1) * cfg.timeout
  {
    SessionRunCharges(Tracked(New(cfg, establishedAt), 0), events);
  }

  lemma {:induction false} HandlerlessRunIsFair(t: Tracked, events: seq<SessionEvent>)
    requires FairlyCharged(t)
    ensures FairlyCharged(SessionAfter(t, events, false)) && SessionAfter(t, events, false).s.cfg == t.s.cfg
  {
    hide FairlyCharged;
    if events != [] {
      HandlerlessRunIsFair(t, events[..|events| - 1]);
      var before := SessionAfter(t, events[..|events| - 1], false);
      match events[|events| - 1]
      case Turn(now, _) => NextIsFair(before, Polled(now));
      case Heard(at) => NextIsFair(before, Received(at));
      case Wrote(at) => NextIsFair(before, Sent(at));
    }
  }

  /** Failed turns: the first when a probe falls due, the others one timeout apart. */
  function FailedTurns(cfg: Config, establishedAt: int, n: nat): seq<SessionEvent> {
    if n == 0 then [] else FailedTurns(cfg, establishedAt, n - 1) + [Turn(establishedAt + cfg.interval + (n - 1) * cfg.timeout, false)]
  }

  lemma FailedTurn(t: Tracked, now: int)
    requires !t.s.cfg.noDpd && now >= if t.s.outstanding then t.s.lastProbe + t.s.cfg.timeout else t.s.lastInbound + t.s.cfg.interval
    ensures var s := SessionNext(t, Turn(now, false), true).s;
            s.cfg == t.s.cfg
            && (s.dead || (!t.s.dead && s.outstanding && s.lastProbe == now && s.missed == t.s.missed + if t.s.outstanding then 2 else 1))
  {
  }

  lemma DeadStaysDead(t: Tracked, now: int)
    requires t.s.dead
    ensures SessionNext(t, Turn(now, false), true).s == t.s
  {
  }

  lemma {:induction false} FailedTurnsCharge(cfg: Config, establishedAt: int, n: nat)
    requires Sane(cfg) && !cfg.noDpd
    ensures var s := SessionAfter(Tracked(New(cfg, establishedAt), 0), FailedTurns(cfg, establishedAt, n), true).s;
            s.cfg == cfg
            && (s.dead
                || (n == 0 && s == New(cfg, establishedAt))
                || (n > 0 && s.outstanding && s.missed == 2 * n - 1 && s.lastProbe == establishedAt + cfg.interval + (n - 1) * cfg.timeout))
  {
    hide SessionNext;
    if n > 0 {
      FailedTurnsCharge(cfg, establishedAt, n - 1);
      var turns := FailedTurns(cfg, establishedAt, n);
      assert turns[..|turns| - 1] == FailedTurns(cfg, establishedAt, n - 1);
      OneMoreTimeout(n - 2, cfg.timeout);
      var t, now := SessionAfter(Tracked(New(cfg, establishedAt), 0), turns[..|turns| - 1], true), establishedAt + cfg.interval + (n - 1) * cfg.timeout;
      if t.s.dead {
        DeadStaysDead(t, now);
      } else {
        FailedTurn(t, now);
      }
    }
  }

  /** Every enabled configuration has a session run that ends dead. */
  lemma SessionCanDie(cfg: Config, establishedAt: int)
    requires Sane(cfg) && !cfg.noDpd
    ensures SessionAfter(Tracked(New(cfg, establishedAt), 0), FailedTurns(cfg, establishedAt, cfg.maxMissed + 1), true).s.dead
  {
    hide New, SessionAfter, FailedTurns;
    FailedTurnsCharge(cfg, establishedAt, cfg.maxMissed + 1);
    SessionRunCharges(Tracked(New(cfg, establishedAt), 0), FailedTurns(cfg, establishedAt, cfg.maxMissed + 1)) by {
      FreshIsCharged(cfg, establishedAt);
    }
  }

  lemma FreshIsCharged(cfg: Config, establishedAt: int)
    requires Sane(cfg)
    ensures ChargedTwice(Tracked(New(cfg, establishedAt), 0)) && FairlyCharged(Tracked(New(cfg, establishedAt), 0))
  {
  }

  /** A session run that ends dead sent the configured number of probes. */
  predicate DeathIsWhole(cfg: Config, establishedAt: int, events: seq<SessionEvent>, handler: bool) {
    var t := SessionAfter(Tracked(New(cfg, establishedAt), 0), events, handler);
    t.s.dead ==> t.probes == cfg.maxMissed
  }

  /** Sessions keep to the configured number exactly without a probe handler, with probes off, or with a limit of one. */
  lemma SessionDeathIsWholeIff(cfg: Config, establishedAt: int, handler: bool)
    requires Sane(cfg)
    ensures (forall events :: DeathIsWhole(cfg, establishedAt, events, handler)) <==> !handler || cfg.noDpd || cfg.maxMissed == 1
  {
    hide New, SessionAfter, FailedTurns;
    var start := Tracked(New(cfg, establishedAt), 0);
    FreshIsCharged(cfg, establishedAt);
    NewKeepsConfig(cfg, establishedAt);
    if !handler || cfg.noDpd || cfg.maxMissed == 1 {
      forall events
        ensures DeathIsWhole(cfg, establishedAt, events, handler)
      {
        HandlerlessRunIsFair(start, events);
        SessionRunCharges(start, events);
      }
    } else {
      var events := FailedTurns(cfg, establishedAt, cfg.maxMissed + 1);
      SessionCanDie(cfg, establishedAt);
      SessionRunCharges(start, events);
      assert !DeathIsWhole(cfg, establishedAt, events, handler);
    }
  }

  lemma NewKeepsConfig(cfg: Config, establishedAt: int)
    ensures New(cfg, establishedAt).cfg == cfg
  {
  }

  /** With the defaults, whose limit is three, two failed probes already end the session. */
  lemma TwoProbesEndADefaultSession(establishedAt: int)
    ensures Normalize(Config(0, 0, 0, 0, false, false)) == Ok(Config(20 * SECOND, 60 * SECOND, 15 * SECOND, 3, false, false))
    ensures var cfg := Normalize(Config(0, 0, 0, 0, false, false)).value;
            var first := establishedAt + cfg.interval;
            var t := SessionAfter(Tracked(New(cfg, establishedAt), 0), [Turn(first, false), Turn(first + cfg.timeout, false)], true);
            t.s.dead && t.probes == 2
  {
    var cfg := Config(20 * SECOND, 60 * SECOND, 15 * SECOND, 3, false, false);
    assert Normalize(Config(0, 0, 0, 0, false, false)) == Ok(cfg);
    var start, at := Tracked(New(cfg, establishedAt), 0), establishedAt + cfg.interval;
    var events := [Turn(at, false), Turn(at + cfg.timeout, false)];
    assert events[..1] == [Turn(at, false)] && [Turn(at, false)][..0] == [];
    assert SessionAfter(start, events[..1], true) == SessionNext(start, Turn(at, false), true);
  }

  // ---------- The next poll ----------

  /** A probe is also outbound traffic, so the outbound time never falls behind the probe. */
  predicate Sound(s: State) {
    && Sane(s.cfg) && s.lastInbound > 0 && s.lastOutbound > 0
    && (s.outstanding ==> !s.cfg.noDpd && s.lastProbe > 0 && s.lastOutbound >= s.lastProbe)
  }

  predicate Positive(e: Event) {
    match e
    case Polled(now) => now > 0
    case Received(at) => at > 0
    case Sent(at) => at > 0
  }

  lemma {:induction false} RunIsSound(t: Tracked, events: seq<Event>)
    requires Sound(t.s) && forall e <- events :: Positive(e)
    ensures Sound(After(t, events).s)
  {
    if events != [] {
      assert Positive(events[|events| - 1]);
      RunIsSound(t, events[..|events| - 1]);
    }
  }

  /** The promise of the due time: later than now, nothing to do before it, something to do at it. */
  ghost predicate DueIsExact(s: State, now: int) {
    var due := NextDue(s, now);
    && due > now
    && (forall t :: t < due ==> Poll(s, t) == (s, NoAction))
    && Poll(s, due).1 != NoAction
  }

  predicate SomethingEnabled(c: Config) {
    !c.noDpd || !c.noKeepalive
  }

  /** Keepalives never come due while a probe is being waited for. */
  predicate KeepaliveYields(c: Config) {
    c.noDpd || c.noKeepalive || c.keepalive >= c.timeout
  }

  lemma PollLeavesDueExact(s: State, now: int)
    requires Sound(s) && now > 0 && SomethingEnabled(s.cfg) && KeepaliveYields(s.cfg) && !Poll(s, now).0.dead
    ensures DueIsExact(Poll(s, now).0, now)
  {
  }

  /** The poll after a run either finds the peer dead or reports an exact due time. */
  ghost predicate KeepsPromise(cfg: Config, establishedAt: int, events: seq<Event>, now: int) {
    var s := Poll(After(Tracked(New(cfg, establishedAt), 0), events).s, now).0;
    !s.dead ==> DueIsExact(s, now)
  }

  /** After every poll of every run that leaves the peer alive, the reported due time keeps its promise. */
  lemma DueIsExactAlongRuns(cfg: Config, establishedAt: int, events: seq<Event>, now: int)
    requires Sane(cfg) && SomethingEnabled(cfg) && KeepaliveYields(cfg) && establishedAt > 0 && now > 0
    requires forall e <- events :: Positive(e)
    ensures KeepsPromise(cfg, establishedAt, events, now)
  {
    var start := Tracked(New(cfg, establishedAt), 0);
    RunIsSound(start, events);
    ConfigKept(start, events);
    var t := After(start, events);
    if !Poll(t.s, now).0.dead {
      PollLeavesDueExact(t.s, now);
    }
  }

  /** A keepalive interval shorter than the probe timeout breaks the promise: a keepalive comes due before it. */
  lemma ShortKeepaliveBreaksDue(cfg: Config, establishedAt: int)
    requires Sane(cfg) && establishedAt > 0 && !KeepaliveYields(cfg)
    ensures var now := establishedAt + cfg.interval;
            var (s, action) := Poll(New(cfg, establishedAt), now);
            action == SendDpd && !s.dead && now + cfg.keepalive < NextDue(s, now)
            && Poll(s, now + cfg.keepalive).1 == SendKeepalive && !DueIsExact(s, now)
  {
    var now := establishedAt + cfg.interval;
    var s := Poll(New(cfg, establishedAt), now).0;
    assert Poll(s, now + cfg.keepalive).1 == SendKeepalive;
  }

  /** The due time is exact after every run precisely when keepalives yield to probes. */
  lemma DueIsExactIff(cfg: Config, establishedAt: int)
    requires Sane(cfg) && SomethingEnabled(cfg) && establishedAt > 0
    ensures KeepaliveYields(cfg) <==>
            forall events, now :: now > 0 && (forall e <- events :: Positive(e)) ==> KeepsPromise(cfg, establishedAt, events, now)
  {
    hide Poll, New, DueIsExact, NextDue;
    if KeepaliveYields(cfg) {
      forall events, now | now > 0 && (forall e <- events :: Positive(e))
        ensures KeepsPromise(cfg, establishedAt, events, now)
      {
        DueIsExactAlongRuns(cfg, establishedAt, events, now);
      }
    } else {
      ShortKeepaliveBreaksDue(cfg, establishedAt);
      assert After(Tracked(New(cfg, establishedAt), 0), []).s == New(cfg, establishedAt);
      assert !KeepsPromise(cfg, establishedAt, [], establishedAt + cfg.interval);
    }
  }

  // ---------- A silent peer ----------

  /** Probing is on and under way, or ready to begin. */
  predicate Alive(s: State) {
    && Sane(s.cfg) && !s.cfg.noDpd && !s.dead && s.lastInbound > 0 && s.lastOutbound > 0
    && (if s.outstanding then s.lastProbe > 0 && 0 <= s.missed < s.cfg.maxMissed else s.missed == 0)
  }

  /** When the peer is declared dead if it stays silent. */
  function Deadline(s: State): int {
    if s.outstanding then s.lastProbe + (s.cfg.maxMissed - s.missed) * s.cfg.timeout
    else s.lastInbound + s.cfg.interval + s.cfg.maxMissed * s.cfg.timeout
  }

  lemma TimeoutsPositive(m: int, timeout: int)
    requires m > 0 && timeout > 0
    ensures m * timeout >= timeout
  {
  }

  /** A poll at the due time declares death exactly at the deadline, and before it leaves the deadline where it was. */
  lemma PollAtDue(s: State, now: int)
    requires Alive(s) && NextDue(s, now) > now
    ensures var due := NextDue(s, now);
            var (s', action) := Poll(s, due);
            && due <= Deadline(s)
            && (action == DeclareDead <==> due == Deadline(s))
            && (action != DeclareDead ==> Alive(s') && Deadline(s') == Deadline(s) && NextDue(s', due) > due)
  {
    TimeoutsPositive(s.cfg.maxMissed, s.cfg.timeout);
    if s.outstanding {
      OneMoreTimeout(s.cfg.maxMissed - s.missed - 1, s.cfg.timeout);
      TimeoutsPositive(s.cfg.maxMissed - s.missed, s.cfg.timeout);
      if s.missed + 1 < s.cfg.maxMissed {
        TimeoutsPositive(s.cfg.maxMissed - s.missed - 1, s.cfg.timeout);
      }
    }
  }

  /** When a silent peer that is polled whenever a poll is due is declared dead. */
  function DeathAt(s: State, now: int): (at: int)
    requires Alive(s) && NextDue(s, now) > now
    ensures at == Deadline(s)
    decreases Deadline(s) - now
  {
    PollAtDue(s, now);
    var due := NextDue(s, now);
    var (next, action) := Poll(s, due);
    if action == DeclareDead then due else DeathAt(next, due)
  }

  lemma PollStaysAlive(t: Tracked, now: int)
    requires Sound(t.s) && FairlyCharged(t) && !t.s.cfg.noDpd && now > 0
    ensures !Poll(t.s, now).0.dead ==> Alive(Poll(t.s, now).0) && NextDue(Poll(t.s, now).0, now) > now
  {
  }

  /** A peer never heard again after establishment is declared dead exactly when its last probe has had its time. */
  lemma SilentPeerDiesOnTime(cfg: Config, establishedAt: int)
    requires Sane(cfg) && !cfg.noDpd && establishedAt > 0
    ensures var s := New(cfg, establishedAt);
            Alive(s) && NextDue(s, establishedAt) > establishedAt
            && DeathAt(s, establishedAt) == establishedAt + cfg.interval + cfg.maxMissed * cfg.timeout
  {
  }

  /** From any point of any run at which the peer is alive, silence ends in death at the deadline. */
  lemma SilenceReachesDeadline(cfg: Config, establishedAt: int, events: seq<Event>, now: int)
    requires Sane(cfg) && !cfg.noDpd && establishedAt > 0 && now > 0 && forall e <- events :: Positive(e)
    ensures var s := Poll(After(Tracked(New(cfg, establishedAt), 0), events).s, now).0;
            !s.dead ==> Alive(s) && NextDue(s, now) > now && DeathAt(s, now) == Deadline(s)
  {
    var start := Tracked(New(cfg, establishedAt), 0);
    RunIsSound(start, events);
    ConfigKept(start, events);
    RunIsFair(start, events);
    hide New, After, NextDue;
    PollStaysAlive(After(start, events), now);
  }
}
