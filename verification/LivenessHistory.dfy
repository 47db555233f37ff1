/**
 What the liveness machine's times mean over whole runs: when the peer was last heard, when something was
 last sent, and what follows for probes, keepalives and death.
 */
module LivenessHistory {
  import opened Wrappers
  import opened Liveness

  function Start(cfg: Config, establishedAt: int): Tracked {
    Tracked(New(cfg, establishedAt), 0)
  }

  function Reached(cfg: Config, establishedAt: int, events: seq<Event>): Tracked {
    After(Start(cfg, establishedAt), events)
  }

  lemma ReachedGrows(cfg: Config, establishedAt: int, events: seq<Event>, e: Event)
    ensures Reached(cfg, establishedAt, events + [e]) == Next(Reached(cfg, establishedAt, events), e)
  {
    assert (events + [e])[..|events|] == events;
  }

  predicate SetTimes(establishedAt: int, events: seq<Event>) {
    establishedAt > 0 && forall e <- events :: Positive(e)
  }

  // ---------- When the peer was last heard ----------

  /** The latest of establishment and all receptions. */
  predicate IsLatestReceived(at: int, establishedAt: int, events: seq<Event>) {
    && (at == establishedAt || Received(at) in events)
    && establishedAt <= at && forall i :: 0 <= i < |events| && events[i].Received? ==> events[i].at <= at
  }

  lemma {:induction false} InboundIsLatest(cfg: Config, establishedAt: int, events: seq<Event>)
    requires SetTimes(establishedAt, events)
    ensures IsLatestReceived(Reached(cfg, establishedAt, events).s.lastInbound, establishedAt, events)
  {
    if events != [] {
      var front, e := events[..|events| - 1], events[|events| - 1];
      assert events == front + [e] && e in events;
      assert forall x <- front :: x in events;
      InboundIsLatest(cfg, establishedAt, front);
      ReachedGrows(cfg, establishedAt, front, e);
      InboundAfter(Reached(cfg, establishedAt, front), e);
    }
  }

  lemma InboundAfter(t: Tracked, e: Event)
    ensures Next(t, e).s.lastInbound == if e.Received? && (e.at > t.s.lastInbound || t.s.lastInbound == 0) then e.at else t.s.lastInbound
  {
  }

  // ---------- When something was last sent ----------

  function TimeOf(e: Event): int {
    match e
    case Polled(now) => now
    case Received(at) => at
    case Sent(at) => at
  }

  /** No event is dated before one that precedes it, or before establishment. */
  predicate InOrder(establishedAt: int, events: seq<Event>) {
    && establishedAt > 0 && (forall i :: 0 <= i < |events| ==> establishedAt <= TimeOf(events[i]))
    && (forall i, j :: 0 <= i < j < |events| ==> TimeOf(events[i]) <= TimeOf(events[j]))
  }

  /** The event sends something: traffic, a probe or a keepalive. */
  predicate Sends(t: Tracked, e: Event) {
    e.Sent? || (e.Polled? && Poll(t.s, e.now).1 in {SendDpd, SendKeepalive})
  }

  /** When something was sent, establishment included. */
  function SentTimes(cfg: Config, establishedAt: int, events: seq<Event>): set<int> {
    if events == [] then {establishedAt}
    else
      var front, e := events[..|events| - 1], events[|events| - 1];
      SentTimes(cfg, establishedAt, front) + (if Sends(Reached(cfg, establishedAt, front), e) then {TimeOf(e)} else {})
  }

  predicate IsLatest(at: int, times: set<int>) {
    at in times && forall t <- times :: t <= at
  }

  lemma OutboundAfter(t: Tracked, e: Event)
    requires t.s.lastOutbound > 0
    ensures Next(t, e).s.lastOutbound
            == if e.Polled? && Sends(t, e) then e.now else if e.Sent? && e.at > t.s.lastOutbound then e.at else t.s.lastOutbound
  {
  }

  lemma {:induction false} SentBefore(cfg: Config, establishedAt: int, events: seq<Event>, bound: int)
    requires establishedAt <= bound && forall i :: 0 <= i < |events| ==> TimeOf(events[i]) <= bound
    ensures forall t <- SentTimes(cfg, establishedAt, events) :: t <= bound
  {
    hide Sends, Reached;
    if events != [] {
      SentBefore(cfg, establishedAt, events[..|events| - 1], bound);
    }
  }

  lemma {:induction false} OutboundIsLatest(cfg: Config, establishedAt: int, events: seq<Event>)
    requires InOrder(establishedAt, events)
    ensures IsLatest(Reached(cfg, establishedAt, events).s.lastOutbound, SentTimes(cfg, establishedAt, events))
    ensures Reached(cfg, establishedAt, events).s.lastOutbound >= establishedAt
  {
    if events == [] {
      NothingSent(cfg, establishedAt);
    } else {
      hide Next, Sends, Reached;
      var front, e := events[..|events| - 1], events[|events| - 1];
      assert events == front + [e];
      OutboundIsLatest(cfg, establishedAt, front);
      SentBefore(cfg, establishedAt, front, TimeOf(e));
      ReachedGrows(cfg, establishedAt, front, e);
      OutboundAfter(Reached(cfg, establishedAt, front), e);
      OnlyThese(Reached(cfg, establishedAt, front), e);
    }
  }

  lemma OnlyThese(t: Tracked, e: Event)
    ensures e.Sent? ==> Sends(t, e)
    ensures Sends(t, e) ==> e.Sent? || e.Polled?
  {
  }

  lemma NothingSent(cfg: Config, establishedAt: int)
    ensures Reached(cfg, establishedAt, []).s.lastOutbound == establishedAt
  {
  }

  // ---------- What follows ----------

  /**
   In every run of polls and recorded traffic, whatever the clock does: a peer is declared dead only after
   exactly the configured number of probes since it was last heard, and no earlier than the interval and as
   many timeouts after establishment and after every reception.
   */
  lemma DeathIsDeserved(cfg: Config, establishedAt: int, events: seq<Event>, now: int)
    requires Sane(cfg) && SetTimes(establishedAt, events)
    requires Poll(Reached(cfg, establishedAt, events).s, now).1 == DeclareDead
    ensures Reached(cfg, establishedAt, events).probes == cfg.maxMissed
    ensures now >= establishedAt + cfg.interval + cfg.maxMissed * cfg.timeout
    ensures forall i :: 0 <= i < |events| && events[i].Received? ==> now >= events[i].at + cfg.interval + cfg.maxMissed * cfg.timeout
  {
    hide Poll;
    DeathIsCharged(cfg, establishedAt, events, now);
    InboundIsLatest(cfg, establishedAt, events);
  }

  /** A first probe keeps the interval from establishment and from every reception. */
  lemma ProbesKeepTheInterval(cfg: Config, establishedAt: int, events: seq<Event>, now: int)
    requires SetTimes(establishedAt, events)
    requires var s := Reached(cfg, establishedAt, events).s; !s.outstanding && Poll(s, now).1 == SendDpd
    ensures now >= establishedAt + cfg.interval
    ensures forall i :: 0 <= i < |events| && events[i].Received? ==> now >= events[i].at + cfg.interval
  {
    InboundIsLatest(cfg, establishedAt, events);
    ConfigKept(Start(cfg, establishedAt), events);
  }

  /** A keepalive keeps its interval from establishment and from all that was sent. */
  lemma KeepalivesKeepTheInterval(cfg: Config, establishedAt: int, events: seq<Event>, now: int)
    requires InOrder(establishedAt, events) && Poll(Reached(cfg, establishedAt, events).s, now).1 == SendKeepalive
    ensures forall t <- SentTimes(cfg, establishedAt, events) :: now >= t + cfg.keepalive
  {
    OutboundIsLatest(cfg, establishedAt, events);
    ConfigKept(Start(cfg, establishedAt), events);
    hide Sends, SentTimes;
  }

  // ---------- Silence ----------

  /** The time of the latest poll that probed, or zero. */
  function LatestProbe(cfg: Config, establishedAt: int, events: seq<Event>): int {
    if events == [] then 0
    else
      var front, e := events[..|events| - 1], events[|events| - 1];
      if e.Polled? && Poll(Reached(cfg, establishedAt, front).s, e.now).1 == SendDpd then e.now else LatestProbe(cfg, establishedAt, front)
  }

  lemma ProbeAfter(t: Tracked, e: Event)
    ensures Next(t, e).s.lastProbe == if e.Polled? && Poll(t.s, e.now).1 == SendDpd then e.now else t.s.lastProbe
  {
  }

  lemma {:induction false} ProbeTime(cfg: Config, establishedAt: int, events: seq<Event>)
    ensures Reached(cfg, establishedAt, events).s.lastProbe == LatestProbe(cfg, establishedAt, events)
  {
    if events != [] {
      ProbeTime(cfg, establishedAt, events[..|events| - 1]);
      ProbeAfter(Reached(cfg, establishedAt, events[..|events| - 1]), events[|events| - 1]);
    }
  }

  /** When a peer that is heard no more is declared dead, by what was received and probed. */
  predicate DiesAt(at: int, cfg: Config, establishedAt: int, events: seq<Event>) {
    var t := Reached(cfg, establishedAt, events);
    if t.s.outstanding then at == LatestProbe(cfg, establishedAt, events) + (cfg.maxMissed + 1 - t.probes) * cfg.timeout
    else
      IsLatestReceived(at - cfg.interval - cfg.maxMissed * cfg.timeout, establishedAt, events)
  }

  /** After every run that ends in a poll and leaves the peer alive, silence ends in death at that time. */
  lemma SilenceEndsInDeath(cfg: Config, establishedAt: int, events: seq<Event>, now: int)
    requires Sane(cfg) && !cfg.noDpd && SetTimes(establishedAt, events) && now > 0
    ensures var all := events + [Polled(now)];
            var s := Reached(cfg, establishedAt, all).s;
            !s.dead ==> Alive(s) && NextDue(s, now) > now && DiesAt(DeathAt(s, now), cfg, establishedAt, all)
  {
    hide Poll, NextDue, Alive, DeathAt, IsLatestReceived;
    var all := events + [Polled(now)];
    ReachedGrows(cfg, establishedAt, events, Polled(now));
    SilenceReachesDeadline(cfg, establishedAt, events, now);
    AllSet(establishedAt, events, now);
    InboundIsLatest(cfg, establishedAt, all);
    ProbeTime(cfg, establishedAt, all);
    RunIsFair(Start(cfg, establishedAt), all);
    ConfigKept(Start(cfg, establishedAt), all);
  }

  lemma AllSet(establishedAt: int, events: seq<Event>, now: int)
    requires SetTimes(establishedAt, events) && now > 0
    ensures SetTimes(establishedAt, events + [Polled(now)])
  {
  }

  // ---------- What a poll reports ----------

  /** How many probes the run has sent. */
  function ProbeCount(cfg: Config, establishedAt: int, events: seq<Event>): nat {
    if events == [] then 0
    else
      var front, e := events[..|events| - 1], events[|events| - 1];
      ProbeCount(cfg, establishedAt, front)
      + if e.Polled? && Poll(Reached(cfg, establishedAt, front).s, e.now).1 == SendDpd then 1 else 0
  }

  lemma NumberAfter(t: Tracked, e: Event)
    ensures Next(t, e).s.probeId == if e.Polled? && Poll(t.s, e.now).1 == SendDpd then (t.s.probeId + 1) % 0x1_0000_0000 else t.s.probeId
  {
  }

  lemma {:induction false} ProbesAreNumbered(cfg: Config, establishedAt: int, events: seq<Event>)
    ensures Reached(cfg, establishedAt, events).s.probeId == ProbeCount(cfg, establishedAt, events) % 0x1_0000_0000
  {
    hide Poll;
    if events != [] {
      ProbesAreNumbered(cfg, establishedAt, events[..|events| - 1]);
      NumberAfter(Reached(cfg, establishedAt, events[..|events| - 1]), events[|events| - 1]);
    }
  }

  /** A poll reports the probes sent so far, how long the peer has been silent, and when an outstanding probe times out. */
  lemma ReportTells(cfg: Config, establishedAt: int, events: seq<Event>, now: int, action: Action)
    requires SetTimes(establishedAt, events)
    ensures var t := Reached(cfg, establishedAt, events);
            var d := Report(t.s, now, action);
            && d.action == action && d.dead == t.s.dead
            && d.probeId == ProbeCount(cfg, establishedAt, events) % 0x1_0000_0000
            && (d.idleFor > 0 ==> IsLatestReceived(now - d.idleFor, establishedAt, events))
            && (d.idleFor <= 0 ==> d.idleFor == 0 && exists at :: IsLatestReceived(at, establishedAt, events) && at >= now)
            && d.deadline == (if t.s.outstanding then LatestProbe(cfg, establishedAt, events) + cfg.timeout else 0)
  {
    hide Poll, Next, IsLatestReceived, NextDue;
    InboundIsLatest(cfg, establishedAt, events);
    InboundIsPositive(cfg, establishedAt, events);
    ProbesAreNumbered(cfg, establishedAt, events);
    ProbeTime(cfg, establishedAt, events);
    ConfigKept(Start(cfg, establishedAt), events);
  }

  lemma InboundIsPositive(cfg: Config, establishedAt: int, events: seq<Event>)
    requires SetTimes(establishedAt, events)
    ensures Reached(cfg, establishedAt, events).s.lastInbound > 0
  {
    hide Reached;
    InboundIsLatest(cfg, establishedAt, events);
  }

  // ---------- Sessions ----------

  /** The latest of establishment, all receptions, and answers. */
  predicate IsLatestHeard(at: int, establishedAt: int, events: seq<SessionEvent>) {
    && (at == establishedAt || Heard(at) in events || Turn(at, true) in events)
    && establishedAt <= at && forall i :: 0 <= i < |events| && events[i].Heard? ==> events[i].at <= at
  }

  predicate SetSessionTimes(establishedAt: int, events: seq<SessionEvent>) {
    && establishedAt > 0
    && forall i :: 0 <= i < |events| ==> (events[i].Turn? ==> events[i].now > 0) && (events[i].Heard? ==> events[i].at > 0)
  }

  lemma HeardAfter(t: Tracked, e: SessionEvent, handler: bool)
    requires t.s.lastInbound > 0
    ensures var at := SessionNext(t, e, handler).s.lastInbound;
            && at >= t.s.lastInbound && (at == t.s.lastInbound || e == Heard(at) || e == Turn(at, true))
            && (e.Heard? ==> at >= e.at)
  {
  }

  lemma {:induction false} SessionInboundIsLatest(cfg: Config, establishedAt: int, events: seq<SessionEvent>, handler: bool)
    requires SetSessionTimes(establishedAt, events)
    ensures IsLatestHeard(SessionAfter(Start(cfg, establishedAt), events, handler).s.lastInbound, establishedAt, events)
  {
    hide SessionNext;
    if events != [] {
      var front, e := events[..|events| - 1], events[|events| - 1];
      assert events == front + [e] && e in events;
      assert forall x <- front :: x in events;
      SessionInboundIsLatest(cfg, establishedAt, front, handler);
      HeardAfter(SessionAfter(Start(cfg, establishedAt), front, handler), e, handler);
    }
  }

  /** In every sequential session run with a probe handler, a dead peer got half the probes, the last no earlier than this after every reception. */
  lemma SessionDeathIsLate(cfg: Config, establishedAt: int, events: seq<SessionEvent>)
    requires Sane(cfg) && SetSessionTimes(establishedAt, events) && SessionAfter(Start(cfg, establishedAt), events, true).s.dead
    ensures var t := SessionAfter(Start(cfg, establishedAt), events, true);
            && t.probes == HalfUp(cfg.maxMissed)
            && forall i :: 0 <= i < |events| && events[i].Heard? ==>
                 t.s.lastProbe >= events[i].at + cfg.interval + (HalfUp(cfg.maxMissed) - 1) * cfg.timeout
  {
    hide SessionAfter, HalfUp;
    SessionDeathTakesHalf(cfg, establishedAt, events);
    SessionInboundIsLatest(cfg, establishedAt, events, true);
  }
}
