/**
 Many sessions applying, rolling back and cleaning up at the same time. Each turn runs one command;
 acquiring and releasing a shared route is atomic, being done under the process-wide lock.
 */
module SharedRoutes {
  import opened IpTransactions
  import opened Text

  datatype Session =
    | Idle
    | Applying(todo: seq<Command>, undo: seq<Undo>)
    | Applied(undo: seq<Undo>)
    | Undoing(left: seq<Undo>)
    | Done

  datatype System = System(kernel: Kernel, sessions: seq<Session>)

  datatype Turn = Begin(cs: seq<Command>) | Advance(ok: bool) | Finish | StartCleanup | UndoNext(ok: bool)

  /** The undo records that a session still holds. */
  function Live(s: Session): seq<Undo> {
    match s
    case Applying(_, undo) => undo
    case Applied(undo) => undo
    case Undoing(left) => left
    case _ => []
  }

  /**
   One turn of one session: a command may fail without effect, in which case the session rolls back;
   a counted shared route runs no command and cannot fail. An undo command may fail too, and does when
   there is nothing to delete. A session is cleaned up at most once, and only after it was applied.
   */
  predicate Step(s: System, i: nat, turn: Turn, s': System) {
    && i < |s.sessions|
    && var me := s.sessions[i];
       match turn
       case Begin(cs) =>
         me.Idle? && s' == System(s.kernel, s.sessions[i := Applying(cs, [])])
       case Advance(ok) =>
         && me.Applying? && me.todo != []
         && var c := me.todo[0];
            if ok then
              Accepted(s.kernel, c)
              && s' == System(Do(s.kernel, c), s.sessions[i := Applying(me.todo[1..], me.undo + UndoOf(c))])
            else
              !(c.Shared? && Count(s.kernel, c.key) > 0)
              && s' == System(s.kernel, s.sessions[i := Undoing(me.undo)])
       case Finish =>
         me.Applying? && me.todo == [] && s' == System(s.kernel, s.sessions[i := Applied(me.undo)])
       case StartCleanup =>
         me.Applied? && s' == System(s.kernel, s.sessions[i := Undoing(me.undo)])
       case UndoNext(ok) =>
         && me.Undoing?
         && if me.left == [] then s' == System(s.kernel, s.sessions[i := Done])
            else
              var n := |me.left| - 1;
              && (ok ==> CanUndo(s.kernel, me.left[n]))
              && s' == System(Revert(s.kernel, me.left[n], ok), s.sessions[i := Undoing(me.left[..n])])
  }

  // ---------- Counting live records ----------

  function Deletes(us: seq<Undo>, o: string): nat {
    if us == [] then 0 else (if us[|us| - 1] == DeletePrivate(o) then 1 else 0) + Deletes(us[..|us| - 1], o)
  }

  function Holders(sessions: seq<Session>, key: Route): nat {
    if sessions == [] then 0 else Releases(Live(sessions[0]), key) + Holders(sessions[1..], key)
  }

  function Owners(sessions: seq<Session>, o: string): nat {
    if sessions == [] then 0 else Deletes(Live(sessions[0]), o) + Owners(sessions[1..], o)
  }

  lemma {:induction false} HoldersUpdate(sessions: seq<Session>, i: nat, x: Session, key: Route)
    requires i < |sessions|
    ensures Holders(sessions[i := x], key) + Releases(Live(sessions[i]), key) == Holders(sessions, key) + Releases(Live(x), key)
  {
    if i == 0 {
      assert sessions[i := x][1..] == sessions[1..];
    } else {
      assert sessions[i := x][1..] == sessions[1..][i - 1 := x];
      HoldersUpdate(sessions[1..], i - 1, x, key);
    }
  }

  lemma {:induction false} OwnersUpdate(sessions: seq<Session>, i: nat, x: Session, o: string)
    requires i < |sessions|
    ensures Owners(sessions[i := x], o) + Deletes(Live(sessions[i]), o) == Owners(sessions, o) + Deletes(Live(x), o)
  {
    if i == 0 {
      assert sessions[i := x][1..] == sessions[1..];
    } else {
      assert sessions[i := x][1..] == sessions[1..][i - 1 := x];
      OwnersUpdate(sessions[1..], i - 1, x, o);
    }
  }

  lemma {:induction false} HoldersAtLeast(sessions: seq<Session>, i: nat, key: Route)
    requires i < |sessions|
    ensures Holders(sessions, key) >= Releases(Live(sessions[i]), key)
  {
    if i > 0 {
      HoldersAtLeast(sessions[1..], i - 1, key);
    }
  }

  lemma {:induction false} OwnersAtLeast(sessions: seq<Session>, i: nat, o: string)
    requires i < |sessions|
    ensures Owners(sessions, o) >= Deletes(Live(sessions[i]), o)
  {
    if i > 0 {
      OwnersAtLeast(sessions[1..], i - 1, o);
    }
  }

  lemma RecordAdded(us: seq<Undo>, c: Command, key: Route, o: string)
    ensures Releases(us + UndoOf(c), key) == Releases(us, key) + (if c == Shared(key) then 1 else 0)
    ensures Deletes(us + UndoOf(c), o) == Deletes(us, o) + (if c == Private(o) then 1 else 0)
  {
    if c.Link? {
      assert us + [] == us;
    } else {
      assert (us + UndoOf(c))[..|us|] == us;
    }
  }

  lemma {:induction false} NobodyHolds(sessions: seq<Session>, key: Route, o: string)
    requires forall j :: 0 <= j < |sessions| ==> sessions[j].Idle?
    ensures Holders(sessions, key) == 0 && Owners(sessions, o) == 0
  {
    if sessions != [] {
      NobodyHolds(sessions[1..], key, o);
    }
  }

  // ---------- Runs ----------

  datatype Move = Move(session: nat, turn: Turn)

  predicate IsRun(states: seq<System>, moves: seq<Move>) {
    && |states| == |moves| + 1
    && forall j :: 0 <= j < |moves| ==> Step(states[j], moves[j].session, moves[j].turn, states[j + 1])
  }

  /** The start: no session has begun, and nothing is counted. */
  predicate Initial(s: System, objects: set<string>, routes: map<string, string>) {
    s.kernel == Kernel(objects, routes, map[]) && forall j :: 0 <= j < |s.sessions| ==> s.sessions[j].Idle?
  }

  // ---------- Counts ----------

  predicate CountsMatch(s: System, key: Route) {
    Count(s.kernel, key) == Holders(s.sessions, key)
  }

  ghost predicate Inv(s: System) {
    PositiveCounts(s.kernel) && forall key :: CountsMatch(s, key)
  }

  lemma DoEffect(k: Kernel, c: Command, key: Route, o: string)
    requires PositiveCounts(k)
    ensures PositiveCounts(Do(k, c)) && Count(Do(k, c), key) == Count(k, key) + (if c == Shared(key) then 1 else 0)
    ensures o in Do(k, c).objects <==> o in k.objects || c == Private(o)
  {
  }

  lemma RevertEffect(k: Kernel, u: Undo, ok: bool, key: Route, o: string)
    requires PositiveCounts(k)
    ensures PositiveCounts(Revert(k, u, ok))
    ensures Count(Revert(k, u, ok), key) == Count(k, key) - (if u == ReleaseShared(key) && Count(k, key) > 0 then 1 else 0)
    ensures o in Revert(k, u, ok).objects <==> o in k.objects && !(ok && u == DeletePrivate(o))
  {
  }

  /** What a turn does to a count, and to the records its session holds of it. */
  lemma StepCounts(s: System, i: nat, turn: Turn, s': System, key: Route)
    requires PositiveCounts(s.kernel) && Step(s, i, turn, s')
    ensures PositiveCounts(s'.kernel) && |s'.sessions| == |s.sessions| && s'.sessions == s.sessions[i := s'.sessions[i]]
    ensures Count(s'.kernel, key) - Count(s.kernel, key)
            == Releases(Live(s'.sessions[i]), key) - Releases(Live(s.sessions[i]), key)
            || (Count(s.kernel, key) == 0 < Releases(Live(s.sessions[i]), key))
  {
    hide Do, Revert, PositiveCounts, Count, CanUndo, Accepted;
    var me := s.sessions[i];
    match turn
    case Advance(ok) =>
      RecordAdded(me.undo, me.todo[0], key, "");
      DoEffect(s.kernel, me.todo[0], key, "");
    case UndoNext(ok) =>
      if me.left != [] {
        RevertEffect(s.kernel, me.left[|me.left| - 1], ok, key, "");
      }
    case _ =>
  }

  lemma StepKeepsCount(s: System, i: nat, turn: Turn, s': System, key: Route)
    requires Inv(s) && Step(s, i, turn, s')
    ensures PositiveCounts(s'.kernel) && CountsMatch(s', key)
  {
    hide Step, PositiveCounts, Count, Live;
    assert CountsMatch(s, key);
    StepCounts(s, i, turn, s', key);
    assert i < |s.sessions| by {
      StepIndex(s, i, turn, s');
    }
    HoldersUpdate(s.sessions, i, s'.sessions[i], key);
    HoldersAtLeast(s.sessions, i, key);
  }

  lemma StepIndex(s: System, i: nat, turn: Turn, s': System)
    requires Step(s, i, turn, s')
    ensures i < |s.sessions|
  {
  }

  /** Every turn of every session, failing undos included, keeps the counts equal to the live records that hold them. */
  lemma StepKeepsInv(s: System, i: nat, turn: Turn, s': System)
    requires Inv(s) && Step(s, i, turn, s')
    ensures Inv(s')
  {
    hide Step, PositiveCounts, CountsMatch;
    forall key
      ensures PositiveCounts(s'.kernel) && CountsMatch(s', key)
    {
      StepKeepsCount(s, i, turn, s', key);
    }
    assert CountsMatch(s', Route("", ""));
  }

  lemma InitialInv(s: System, objects: set<string>, routes: map<string, string>)
    requires Initial(s, objects, routes)
    ensures Inv(s)
  {
    forall key
      ensures CountsMatch(s, key)
    {
      NobodyHolds(s.sessions, key, "");
    }
  }

  lemma {:induction false} InvAlongRun(states: seq<System>, moves: seq<Move>, n: nat)
    requires IsRun(states, moves) && Inv(states[0]) && n < |states|
    ensures Inv(states[n])
  {
    hide Step, Inv;
    if n > 0 {
      InvAlongRun(states, moves, n - 1);
      StepKeepsInv(states[n - 1], moves[n - 1].session, moves[n - 1].turn, states[n]);
    }
  }

  /** At every point of every run a shared key's count is the number of live records that hold it. */
  lemma CountsAreHolders(states: seq<System>, moves: seq<Move>, objects: set<string>, routes: map<string, string>, n: nat, key: Route)
    requires IsRun(states, moves) && Initial(states[0], objects, routes) && n < |states|
    ensures Count(states[n].kernel, key) == Holders(states[n].sessions, key)
  {
    InitialInv(states[0], objects, routes);
    InvAlongRun(states, moves, n);
    assert CountsMatch(states[n], key);
  }

  // ---------- Installed while counted ----------

  /** No two keys share a place with different paths. */
  predicate Apart(keys: set<Route>) {
    forall a <- keys, b <- keys :: a.place == b.place ==> a == b
  }

  predicate Within(cs: seq<Command>, keys: set<Route>) {
    forall i :: 0 <= i < |cs| && cs[i].Shared? ==> cs[i].key in keys
  }

  /** The sessions ask for no shared routes but the given ones. */
  predicate KeysWithin(moves: seq<Move>, keys: set<Route>) {
    forall j :: 0 <= j < |moves| && moves[j].turn.Begin? ==> Within(moves[j].turn.cs, keys)
  }

  predicate SessionsWithin(s: System, keys: set<Route>) {
    forall j :: 0 <= j < |s.sessions| && s.sessions[j].Applying? ==> Within(s.sessions[j].todo, keys)
  }

  predicate CountedInstalled(s: System, keys: set<Route>) {
    (forall key <- s.kernel.refs :: key in keys && Installed(s.kernel, key)) && SessionsWithin(s, keys)
  }

  lemma DoInstalls(k: Kernel, c: Command, keys: set<Route>)
    requires PositiveCounts(k) && Apart(keys) && (c.Shared? ==> c.key in keys) && forall key <- k.refs :: key in keys && Installed(k, key)
    ensures forall key <- Do(k, c).refs :: key in keys && Installed(Do(k, c), key)
  {
  }

  lemma RevertInstalls(k: Kernel, u: Undo, ok: bool, keys: set<Route>)
    requires PositiveCounts(k) && Apart(keys) && forall key <- k.refs :: key in keys && Installed(k, key)
    ensures forall key <- Revert(k, u, ok).refs :: key in keys && Installed(Revert(k, u, ok), key)
  {
  }

  lemma StepKeepsInstalled(s: System, i: nat, turn: Turn, s': System, keys: set<Route>)
    requires Apart(keys) && PositiveCounts(s.kernel) && CountedInstalled(s, keys) && Step(s, i, turn, s')
    requires turn.Begin? ==> Within(turn.cs, keys)
    ensures CountedInstalled(s', keys)
  {
    hide Do, Revert, Apart, PositiveCounts, Count, Installed, CanUndo, Accepted;
    var me := s.sessions[i];
    match turn
    case Advance(ok) => DoInstalls(s.kernel, me.todo[0], keys);
    case UndoNext(ok) =>
      if me.left != [] {
        RevertInstalls(s.kernel, me.left[|me.left| - 1], ok, keys);
      }
    case _ =>
  }

  lemma {:induction false} InstalledAlongRun(states: seq<System>, moves: seq<Move>, objects: set<string>, routes: map<string, string>, keys: set<Route>, n: nat)
    requires IsRun(states, moves) && Initial(states[0], objects, routes) && KeysWithin(moves, keys) && Apart(keys) && n < |states|
    ensures Inv(states[n]) && CountedInstalled(states[n], keys)
  {
    hide Step, Apart, Within;
    InitialInv(states[0], objects, routes);
    InvAlongRun(states, moves, n);
    if n > 0 {
      InstalledAlongRun(states, moves, objects, routes, keys, n - 1);
      StepKeepsInstalled(states[n - 1], moves[n - 1].session, moves[n - 1].turn, states[n], keys);
    }
  }

  /** At this point of the run, if it is one with the given keys, a counted route is installed. */
  ghost predicate InstalledWhileCounted(states: seq<System>, moves: seq<Move>, keys: set<Route>, n: nat, key: Route) {
    && IsRun(states, moves) && KeysWithin(moves, keys) && n < |states|
    && Initial(states[0], states[0].kernel.objects, states[0].kernel.routes) && Count(states[n].kernel, key) > 0
    ==> Installed(states[n].kernel, key)
  }

  /** Two exclusions of one destination by different paths: the first one's route is gone while it is counted. */
  lemma SecondPathOverwrites(a: Route, b: Route) returns (states: seq<System>, moves: seq<Move>)
    requires a.place == b.place && a != b
    ensures IsRun(states, moves) && |states| == 5 && Initial(states[0], {}, map[]) && KeysWithin(moves, {a, b})
    ensures Count(states[4].kernel, a) == 1 && !Installed(states[4].kernel, a)
  {
    var k0 := Kernel({}, map[], map[]);
    var k1 := Do(k0, Shared(a));
    var k2 := Do(k1, Shared(b));
    states := [System(k0, [Idle, Idle]),
               System(k0, [Applying([Shared(a)], []), Idle]),
               System(k1, [Applying([], [ReleaseShared(a)]), Idle]),
               System(k1, [Applying([], [ReleaseShared(a)]), Applying([Shared(b)], [])]),
               System(k2, [Applying([], [ReleaseShared(a)]), Applying([], [ReleaseShared(b)])])];
    moves := [Move(0, Begin([Shared(a)])), Move(0, Advance(true)), Move(1, Begin([Shared(b)])), Move(1, Advance(true))];
    assert Step(states[0], 0, moves[0].turn, states[1]);
    assert [Shared(a)][1..] == [] && [] + UndoOf(Shared(a)) == [ReleaseShared(a)];
    assert Step(states[1], 0, moves[1].turn, states[2]);
    assert Step(states[2], 1, moves[2].turn, states[3]);
    assert [Shared(b)][1..] == [] && [] + UndoOf(Shared(b)) == [ReleaseShared(b)];
    assert Step(states[3], 1, moves[3].turn, states[4]);
  }

  /**
   Whatever fails, and whatever routes there were before: in all runs over a set of keys a counted route
   is installed if and only if no two of the keys give one place different paths.
   */
  lemma InstalledWhileCountedIff(keys: set<Route>)
    ensures (forall states, moves, n: nat, key :: InstalledWhileCounted(states, moves, keys, n, key)) <==> Apart(keys)
  {
    hide IsRun, Initial, Installed, Count;
    if Apart(keys) {
      forall states: seq<System>, moves, n: nat, key
        ensures InstalledWhileCounted(states, moves, keys, n, key)
      {
        if IsRun(states, moves) && KeysWithin(moves, keys) && n < |states| && Initial(states[0], states[0].kernel.objects, states[0].kernel.routes) {
          InstalledAlongRun(states, moves, states[0].kernel.objects, states[0].kernel.routes, keys, n);
          CountedIsInstalled(states[n], keys, key);
        }
      }
    } else {
      var a, b :| a in keys && b in keys && a.place == b.place && a != b;
      var states, moves := SecondPathOverwrites(a, b);
      InitialKernel(states[0]);
      assert forall j :: 0 <= j < |moves| && moves[j].turn.Begin? ==> Within(moves[j].turn.cs, {a, b});
      assert !InstalledWhileCounted(states, moves, keys, 4, a);
    }
  }

  lemma InitialKernel(s: System)
    requires Initial(s, {}, map[])
    ensures s.kernel.objects == {} && s.kernel.routes == map[]
  {
  }

  lemma CountedIsInstalled(s: System, keys: set<Route>, key: Route)
    requires CountedInstalled(s, keys)
    ensures Count(s.kernel, key) > 0 ==> Installed(s.kernel, key)
  {
  }

  // ---------- Runs in which no undo fails ----------

  predicate UndosSucceed(moves: seq<Move>) {
    forall j :: 0 <= j < |moves| && moves[j].turn.UndoNext? ==> moves[j].turn.ok
  }

  /** An object is there because it was there before, or because exactly one session owns it. */
  predicate ObjectsMatch(s: System, base: set<string>, o: string) {
    (if o in s.kernel.objects then 1 else 0) == (if o in base then 1 else 0) + Owners(s.sessions, o)
  }

  lemma StepObjects(s: System, i: nat, turn: Turn, s': System, o: string)
    requires PositiveCounts(s.kernel) && Step(s, i, turn, s') && (turn.UndoNext? ==> turn.ok)
    ensures |s'.sessions| == |s.sessions| && s'.sessions == s.sessions[i := s'.sessions[i]]
    ensures (if o in s'.kernel.objects then 1 else 0) - (if o in s.kernel.objects then 1 else 0)
            == Deletes(Live(s'.sessions[i]), o) - Deletes(Live(s.sessions[i]), o)
            || (o !in s.kernel.objects && Deletes(Live(s.sessions[i]), o) > 0)
  {
    hide Do, Revert, PositiveCounts, Count, CanUndo;
    var me := s.sessions[i];
    match turn
    case Advance(ok) =>
      RecordAdded(me.undo, me.todo[0], Route("", ""), o);
      DoEffect(s.kernel, me.todo[0], Route("", ""), o);
    case UndoNext(ok) =>
      if me.left != [] {
        RevertEffect(s.kernel, me.left[|me.left| - 1], ok, Route("", ""), o);
      }
    case _ =>
  }

  lemma StepKeepsObjects(s: System, i: nat, turn: Turn, s': System, base: set<string>, o: string)
    requires PositiveCounts(s.kernel) && ObjectsMatch(s, base, o) && Step(s, i, turn, s') && (turn.UndoNext? ==> turn.ok)
    ensures ObjectsMatch(s', base, o)
  {
    hide Step, PositiveCounts, Live;
    StepObjects(s, i, turn, s', o);
    StepIndex(s, i, turn, s');
    OwnersUpdate(s.sessions, i, s'.sessions[i], o);
    OwnersAtLeast(s.sessions, i, o);
  }

  lemma {:induction false} ObjectsAlongRun(states: seq<System>, moves: seq<Move>, base: set<string>, routes: map<string, string>, n: nat, o: string)
    requires IsRun(states, moves) && Initial(states[0], base, routes) && UndosSucceed(moves) && n < |states|
    ensures ObjectsMatch(states[n], base, o)
  {
    hide Step, PositiveCounts, CountsMatch;
    if n == 0 {
      NobodyHolds(states[0].sessions, Route("", ""), o);
    } else {
      ObjectsAlongRun(states, moves, base, routes, n - 1, o);
      InitialInv(states[0], base, routes);
      InvAlongRun(states, moves, n - 1);
      StepKeepsObjects(states[n - 1], moves[n - 1].session, moves[n - 1].turn, states[n], base, o);
    }
  }

  predicate Holding(routes: map<string, string>, key: Route) {
    key.place in routes && routes[key.place] == key.path
  }

  /** Every route is counted or was there at first, and all that were there at first still are. */
  predicate Accounted(k: Kernel, routes: map<string, string>) {
    && (forall place <- k.routes :: Route(place, k.routes[place]) in k.refs || Holding(routes, Route(place, k.routes[place])))
    && (forall place <- routes :: place in k.routes && k.routes[place] == routes[place])
  }

  /** The keys have places of their own, which no route had at first. */
  predicate OwnPlaces(keys: set<Route>, routes: map<string, string>) {
    Apart(keys) && forall key <- keys :: key.place !in routes
  }

  lemma DoKeepsAccounted(k: Kernel, c: Command, keys: set<Route>, routes: map<string, string>)
    requires PositiveCounts(k) && Accounted(k, routes) && OwnPlaces(keys, routes) && (forall key <- k.refs :: key in keys)
    requires c.Shared? ==> c.key in keys
    ensures Accounted(Do(k, c), routes)
  {
    if c.Shared? && Count(k, c.key) == 0 {
      forall place <- Do(k, c).routes
        ensures Route(place, Do(k, c).routes[place]) in Do(k, c).refs || Holding(routes, Route(place, Do(k, c).routes[place]))
      {
        assert place != c.key.place ==> place in k.routes;
      }
    }
  }

  lemma RevertKeepsAccounted(k: Kernel, u: Undo, keys: set<Route>, routes: map<string, string>)
    requires PositiveCounts(k) && Accounted(k, routes) && OwnPlaces(keys, routes)
    requires forall key <- k.refs :: key in keys && Installed(k, key)
    ensures Accounted(Revert(k, u, true), routes)
  {
  }

  lemma StepKeepsAccounted(s: System, i: nat, turn: Turn, s': System, keys: set<Route>, routes: map<string, string>)
    requires PositiveCounts(s.kernel) && Accounted(s.kernel, routes) && OwnPlaces(keys, routes) && CountedInstalled(s, keys)
    requires Step(s, i, turn, s') && (turn.UndoNext? ==> turn.ok)
    ensures Accounted(s'.kernel, routes)
  {
    hide Do, Revert, PositiveCounts, Accounted, OwnPlaces, CanUndo, Accepted, Installed;
    var me := s.sessions[i];
    if turn.UndoNext? && me.left != [] {
      RevertKeepsAccounted(s.kernel, me.left[|me.left| - 1], keys, routes);
    } else if turn.Advance? && turn.ok {
      DoKeepsAccounted(s.kernel, me.todo[0], keys, routes);
    }
  }

  /** A run over the given keys and initial routes in which no undo fails. */
  predicate UndoingRun(states: seq<System>, moves: seq<Move>, base: set<string>, keys: set<Route>, routes: map<string, string>) {
    IsRun(states, moves) && Initial(states[0], base, routes) && KeysWithin(moves, keys) && UndosSucceed(moves)
  }

  predicate CleanRun(states: seq<System>, moves: seq<Move>, base: set<string>, keys: set<Route>, routes: map<string, string>) {
    UndoingRun(states, moves, base, keys, routes) && OwnPlaces(keys, routes)
  }

  lemma {:induction false} AccountedAlongRun(states: seq<System>, moves: seq<Move>, base: set<string>, keys: set<Route>, routes: map<string, string>, n: nat)
    requires CleanRun(states, moves, base, keys, routes) && n < |states|
    ensures Inv(states[n]) && CountedInstalled(states[n], keys) && Accounted(states[n].kernel, routes)
  {
    hide Step, Apart, Within, CountsMatch, CountedInstalled;
    InstalledAlongRun(states, moves, base, routes, keys, n);
    if n > 0 {
      AccountedAlongRun(states, moves, base, keys, routes, n - 1);
      StepKeepsAccounted(states[n - 1], moves[n - 1].session, moves[n - 1].turn, states[n], keys, routes);
    }
  }

  /** In a clean run the kernel holds exactly what it held at first and what the live records call for. */
  lemma RecordsAreInstalled(states: seq<System>, moves: seq<Move>, base: set<string>, keys: set<Route>, routes: map<string, string>, n: nat, key: Route, o: string)
    requires CleanRun(states, moves, base, keys, routes) && n < |states|
    ensures Installed(states[n].kernel, key) <==> Holding(routes, key) || Holders(states[n].sessions, key) > 0
    ensures o in states[n].kernel.objects <==> o in base || Owners(states[n].sessions, o) == 1
    ensures Owners(states[n].sessions, o) <= 1
  {
    hide Step, Apart, Within;
    AccountedAlongRun(states, moves, base, keys, routes, n);
    assert CountsMatch(states[n], key);
    ObjectsAlongRun(states, moves, base, routes, n, o);
  }

  /** A shared route is deleted only by the release of its last holder. */
  lemma OnlyTheLastReleaseDeletes(states: seq<System>, moves: seq<Move>, base: set<string>, keys: set<Route>, routes: map<string, string>, n: nat, key: Route)
    requires CleanRun(states, moves, base, keys, routes) && n + 1 < |states|
    requires Installed(states[n].kernel, key) && !Installed(states[n + 1].kernel, key)
    ensures Holders(states[n].sessions, key) == 1 && Holders(states[n + 1].sessions, key) == 0
    ensures moves[n].turn == UndoNext(true) && states[n].sessions[moves[n].session].Undoing?
  {
    hide Apart, Within, Installed, Holders, Inv, OwnPlaces;
    RecordsAreInstalled(states, moves, base, keys, routes, n, key, "");
    RecordsAreInstalled(states, moves, base, keys, routes, n + 1, key, "");
    CountsAreHolders(states, moves, base, routes, n, key);
    CountsAreHolders(states, moves, base, routes, n + 1, key);
    assert Step(states[n], moves[n].session, moves[n].turn, states[n + 1]);
    InitialInv(states[0], base, routes);
    InvAlongRun(states, moves, n);
    LastCountGoes(states[n], moves[n].session, moves[n].turn, states[n + 1], key);
  }

  lemma LastCountGoes(s: System, i: nat, turn: Turn, s': System, key: Route)
    requires Inv(s) && Step(s, i, turn, s') && Count(s.kernel, key) > 0 && Count(s'.kernel, key) == 0
    ensures Count(s.kernel, key) == 1 && turn.UndoNext? && s.sessions[i].Undoing?
  {
    hide CountsMatch;
    var me := s.sessions[i];
    if turn.Advance? {
      DoEffect(s.kernel, me.todo[0], key, "");
    } else if turn.UndoNext? && me.left != [] {
      RevertEffect(s.kernel, me.left[|me.left| - 1], turn.ok, key, "");
    }
  }

  /** Between two points of a run a session has come and gone, and the others hold what they held before. */
  predicate ComesAndGoes(states: seq<System>, m: nat, n: nat, i: nat) {
    && m <= n < |states| && i < |states[m].sessions| && states[m].sessions[i] == Idle
    && states[n].sessions == states[m].sessions[i := Done]
  }

  /**
   However the turns of a clean run interleave, a session that has failed or been cleaned up leaves nothing
   behind: once the other sessions hold what they held before, objects, routes and counts are as before.
   */
  lemma FinishedSessionLeavesNothing(states: seq<System>, moves: seq<Move>, base: set<string>, keys: set<Route>, routes: map<string, string>, m: nat, n: nat, i: nat)
    requires CleanRun(states, moves, base, keys, routes) && ComesAndGoes(states, m, n, i)
    ensures states[n].kernel == states[m].kernel
  {
    hide CleanRun, Holders, Owners, Installed, Count, Live, Holding;
    forall key
      ensures SameCount(states[n].kernel, states[m].kernel, key)
    {
      AlikeElsewhere(states[m].sessions, i, key, "");
      CleanCounts(states, moves, base, keys, routes, m, key);
      CleanCounts(states, moves, base, keys, routes, n, key);
      RecordsAreInstalled(states, moves, base, keys, routes, m, key, "");
      RecordsAreInstalled(states, moves, base, keys, routes, n, key, "");
    }
    forall o
      ensures o in states[n].kernel.objects <==> o in states[m].kernel.objects
    {
      AlikeElsewhere(states[m].sessions, i, Route("", ""), o);
      RecordsAreInstalled(states, moves, base, keys, routes, m, Route("", ""), o);
      RecordsAreInstalled(states, moves, base, keys, routes, n, Route("", ""), o);
    }
    CleanPositive(states, moves, base, keys, routes, m);
    CleanPositive(states, moves, base, keys, routes, n);
    SameKernels(states[n].kernel, states[m].kernel);
  }

  predicate SameCount(a: Kernel, b: Kernel, key: Route) {
    Count(a, key) == Count(b, key) && (Installed(a, key) <==> Installed(b, key))
  }

  lemma AlikeElsewhere(sessions: seq<Session>, i: nat, key: Route, o: string)
    requires i < |sessions| && sessions[i] == Idle
    ensures Holders(sessions[i := Done], key) == Holders(sessions, key) && Owners(sessions[i := Done], o) == Owners(sessions, o)
  {
    HoldersUpdate(sessions, i, Done, key);
    OwnersUpdate(sessions, i, Done, o);
  }

  lemma CleanCounts(states: seq<System>, moves: seq<Move>, base: set<string>, keys: set<Route>, routes: map<string, string>, n: nat, key: Route)
    requires CleanRun(states, moves, base, keys, routes) && n < |states|
    ensures Count(states[n].kernel, key) == Holders(states[n].sessions, key)
  {
    hide Apart, Within, Step;
    CountsAreHolders(states, moves, base, routes, n, key);
  }

  lemma CleanPositive(states: seq<System>, moves: seq<Move>, base: set<string>, keys: set<Route>, routes: map<string, string>, n: nat)
    requires CleanRun(states, moves, base, keys, routes) && n < |states|
    ensures PositiveCounts(states[n].kernel)
  {
    hide Apart, Within, Step;
    InitialInv(states[0], base, routes);
    InvAlongRun(states, moves, n);
  }

  /** Equal objects, counts and installed routes make equal kernels. */
  lemma SameKernels(a: Kernel, b: Kernel)
    requires PositiveCounts(a) && PositiveCounts(b)
    requires (forall o :: o in a.objects <==> o in b.objects) && forall key :: SameCount(a, b, key)
    ensures a == b
  {
    assert a.objects == b.objects;
    forall key
      ensures key in a.refs <==> key in b.refs
      ensures key in a.refs && key in b.refs ==> a.refs[key] == b.refs[key]
    {
      assert SameCount(a, b, key);
    }
    assert a.refs == b.refs;
    forall place
      ensures place in a.routes ==> place in b.routes && b.routes[place] == a.routes[place]
      ensures place in b.routes ==> place in a.routes
    {
      if place in a.routes {
        assert SameCount(a, b, Route(place, a.routes[place]));
      }
      if place in b.routes {
        assert SameCount(a, b, Route(place, b.routes[place]));
      }
    }
    assert a.routes == b.routes;
  }

  // ---------- When a finished session leaves nothing ----------

  lemma Prepended(s: System, move: Move, states: seq<System>, moves: seq<Move>)
    requires IsRun(states, moves) && Step(s, move.session, move.turn, states[0])
    ensures IsRun([s] + states, [move] + moves)
  {
    hide Step;
    var all, both := [s] + states, [move] + moves;
    forall j | 0 <= j < |both|
      ensures Step(all[j], both[j].session, both[j].turn, all[j + 1])
    {
      if j > 0 {
        assert all[j] == states[j - 1] && all[j + 1] == states[j] && both[j] == moves[j - 1];
      }
    }
  }

  /** The turns of a session that applies one shared route and is cleaned up. */
  function Lifetime(i: nat, key: Route): seq<Move> {
    [Move(i, Begin([Shared(key)])), Move(i, Advance(true)), Move(i, Finish), Move(i, StartCleanup), Move(i, UndoNext(true)), Move(i, UndoNext(true))]
  }

  /** The systems it goes through. */
  function Passing(s: System, i: nat, key: Route): seq<System>
    requires i < |s.sessions|
  {
    var done := Do(s.kernel, Shared(key));
    var back := Revert(done, ReleaseShared(key), true);
    [s,
     System(s.kernel, s.sessions[i := Applying([Shared(key)], [])]),
     System(done, s.sessions[i := Applying([], [ReleaseShared(key)])]),
     System(done, s.sessions[i := Applied([ReleaseShared(key)])]),
     System(done, s.sessions[i := Undoing([ReleaseShared(key)])]),
     System(back, s.sessions[i := Undoing([])]),
     System(back, s.sessions[i := Done])]
  }

  lemma Updated(sessions: seq<Session>, i: nat, x: Session, y: Session)
    requires i < |sessions|
    ensures sessions[i := x][i := y] == sessions[i := y]
  {
  }

  lemma TurnBegins(s: System, i: nat, key: Route)
    requires i < |s.sessions| && s.sessions[i] == Idle
    ensures Step(s, i, Begin([Shared(key)]), System(s.kernel, s.sessions[i := Applying([Shared(key)], [])]))
  {
  }

  lemma TurnAdvances(k: Kernel, sessions: seq<Session>, i: nat, key: Route)
    requires i < |sessions|
    ensures Step(System(k, sessions[i := Applying([Shared(key)], [])]), i, Advance(true),
                 System(Do(k, Shared(key)), sessions[i := Applying([], [ReleaseShared(key)])]))
  {
    hide Do;
    Updated(sessions, i, Applying([Shared(key)], []), Applying([], [ReleaseShared(key)]));
    assert [Shared(key)][1..] == [] && [] + UndoOf(Shared(key)) == [ReleaseShared(key)];
  }

  lemma TurnFinishes(k: Kernel, sessions: seq<Session>, i: nat, us: seq<Undo>)
    requires i < |sessions|
    ensures Step(System(k, sessions[i := Applying([], us)]), i, Finish, System(k, sessions[i := Applied(us)]))
    ensures Step(System(k, sessions[i := Applied(us)]), i, StartCleanup, System(k, sessions[i := Undoing(us)]))
    ensures Step(System(k, sessions[i := Undoing([])]), i, UndoNext(true), System(k, sessions[i := Done]))
  {
    Updated(sessions, i, Applying([], us), Applied(us));
    Updated(sessions, i, Applied(us), Undoing(us));
    Updated(sessions, i, Undoing([]), Done);
  }

  lemma TurnUndoes(k: Kernel, sessions: seq<Session>, i: nat, u: Undo)
    requires i < |sessions| && CanUndo(k, u)
    ensures Step(System(k, sessions[i := Undoing([u])]), i, UndoNext(true), System(Revert(k, u, true), sessions[i := Undoing([])]))
  {
    hide Revert, CanUndo;
    Updated(sessions, i, Undoing([u]), Undoing([]));
    assert [u][..0] == [];
  }

  lemma LifetimeIsRun(s: System, i: nat, key: Route)
    requires i < |s.sessions| && s.sessions[i] == Idle && Count(s.kernel, key) == 0
    ensures IsRun(Passing(s, i, key), Lifetime(i, key))
  {
    var done := Do(s.kernel, Shared(key));
    assert CanUndo(done, ReleaseShared(key));
    hide Step, Do, Revert, CanUndo;
    TurnBegins(s, i, key);
    TurnAdvances(s.kernel, s.sessions, i, key);
    TurnFinishes(done, s.sessions, i, [ReleaseShared(key)]);
    TurnUndoes(done, s.sessions, i, ReleaseShared(key));
    TurnFinishes(Revert(done, ReleaseShared(key), true), s.sessions, i, []);
  }

  lemma LifetimeEmptiesPlace(s: System, i: nat, key: Route)
    requires i < |s.sessions| && Count(s.kernel, key) == 0
    ensures key.place !in Passing(s, i, key)[6].kernel.routes
  {
  }

  /** A session that comes and goes, in this run if it is one, leaves the kernel as it was. */
  ghost predicate LeavesNothing(states: seq<System>, moves: seq<Move>, base: set<string>, keys: set<Route>, routes: map<string, string>, m: nat, n: nat, i: nat) {
    UndoingRun(states, moves, base, keys, routes) && ComesAndGoes(states, m, n, i) ==> states[n].kernel == states[m].kernel
  }

  /** An exclusion in a foreign route's place: the session comes and goes, and that route is gone. */
  lemma ForeignRouteGoes(keys: set<Route>, routes: map<string, string>, key: Route) returns (states: seq<System>, moves: seq<Move>)
    requires key in keys && key.place in routes
    ensures !LeavesNothing(states, moves, {}, keys, routes, 0, 6, 0)
  {
    hide Step, Do, Revert, IsRun;
    var s := System(Kernel({}, routes, map[]), [Idle]);
    states, moves := Passing(s, 0, key), Lifetime(0, key);
    LifetimeIsRun(s, 0, key);
    LifetimeEmptiesPlace(s, 0, key);
    assert Initial(s, {}, routes);
    assert KeysWithin(moves, keys) && UndosSucceed(moves);
    assert s.sessions[0 := Done] == [Done];
  }

  /** A second session by another path: it comes and goes, and the first one's route is gone. */
  lemma OtherPathGoes(keys: set<Route>, routes: map<string, string>, a: Route, b: Route) returns (states: seq<System>, moves: seq<Move>)
    requires a in keys && b in keys && a.place == b.place && a != b
    ensures !LeavesNothing(states, moves, {}, keys, routes, 2, 8, 1)
  {
    hide Revert, IsRun;
    var k := Kernel({}, routes, map[]);
    var s0 := System(k, [Idle, Idle]);
    var s1 := System(k, [Applying([Shared(a)], []), Idle]);
    var s := System(Do(k, Shared(a)), [Applying([], [ReleaseShared(a)]), Idle]);
    LifetimeIsRun(s, 1, b);
    LifetimeEmptiesPlace(s, 1, b);
    assert [Shared(a)][1..] == [] && [] + UndoOf(Shared(a)) == [ReleaseShared(a)];
    assert Step(s1, 0, Advance(true), s);
    assert Step(s0, 0, Begin([Shared(a)]), s1);
    Prepended(s1, Move(0, Advance(true)), Passing(s, 1, b), Lifetime(1, b));
    Prepended(s0, Move(0, Begin([Shared(a)])), [s1] + Passing(s, 1, b), [Move(0, Advance(true))] + Lifetime(1, b));
    states, moves := [s0] + ([s1] + Passing(s, 1, b)), [Move(0, Begin([Shared(a)]))] + ([Move(0, Advance(true))] + Lifetime(1, b));
    assert states[2] == s && states[8] == Passing(s, 1, b)[6];
    assert Initial(s0, {}, routes);
    assert KeysWithin(moves, keys) && UndosSucceed(moves);
    assert a.place in s.kernel.routes;
  }

  /**
   In all runs over a set of keys and initial routes in which no undo fails, sessions that come and go leave
   the kernel as it was if and only if the keys have places of their own that no route had at first.
   */
  lemma LeavesNothingIff(keys: set<Route>, routes: map<string, string>)
    ensures (forall states, moves, base, m: nat, n: nat, i: nat :: LeavesNothing(states, moves, base, keys, routes, m, n, i))
            <==> OwnPlaces(keys, routes)
  {
    hide UndoingRun, ComesAndGoes;
    if OwnPlaces(keys, routes) {
      forall states, moves, base, m: nat, n: nat, i: nat
        ensures LeavesNothing(states, moves, base, keys, routes, m, n, i)
      {
        if UndoingRun(states, moves, base, keys, routes) && ComesAndGoes(states, m, n, i) {
          FinishedSessionLeavesNothing(states, moves, base, keys, routes, m, n, i);
        }
      }
    } else if key :| key in keys && key.place in routes {
      var states, moves := ForeignRouteGoes(keys, routes, key);
    } else {
      var a, b :| a in keys && b in keys && a.place == b.place && a != b;
      var states, moves := OtherPathGoes(keys, routes, a, b);
    }
  }

  // ---------- The shared key ----------

  const NUL := '\0'

  /** The key of a shared route: the words of its undo command, joined with NUL. */
  function SharedKey(words: seq<string>): string {
    if words == [] then [] else if |words| == 1 then words[0] else words[0] + [NUL] + SharedKey(words[1..])
  }

  predicate Words(words: seq<string>) {
    words != [] && forall w <- words :: NUL !in w
  }

  /** The first NUL of a key ends its first word; a single word has none. */
  lemma KeyShape(words: seq<string>)
    requires Words(words)
    ensures var key := SharedKey(words);
            && IndexOf(key, NUL) == |words[0]| && words[0] == key[..|words[0]|]
            && (|words| == 1 <==> |words[0]| == |key|)
            && (|words| > 1 ==> SharedKey(words[1..]) == key[|words[0]| + 1..])
  {
    assert words[0] in words;
    if |words| == 1 {
      IndexAbsent(words[0], NUL);
    } else {
      IndexAfter(words[0], NUL, SharedKey(words[1..]));
    }
  }

  /** Two undo commands share a key only if they are the same command. */
  lemma {:induction false} SharedKeyIsInjective(a: seq<string>, b: seq<string>)
    requires Words(a) && Words(b) && SharedKey(a) == SharedKey(b)
    ensures a == b
  {
    KeyShape(a);
    KeyShape(b);
    if |a| > 1 {
      SharedKeyIsInjective(a[1..], b[1..]);
    }
    assert a == [a[0]] + a[1..] && b == [b[0]] + b[1..];
  }
}
