/**
 Applying, rolling back and cleaning up `ip` commands, with a process-wide reference count on the
 ePDG exclusion routes that sessions share. The `ip` runner is a command that may fail without effect.
 */
module IpTransactions {
  /**
   A shared route: the place it takes in a routing table (destination, metric and table) and the path it
   gives (device, gateway and source). The shared key holds both, but a table has one route for a place.
   */
  datatype Route = Route(place: string, path: string)

  /**
   The three kinds of command that the builders produce: a link setting without undo; an `add` whose
   undo deletes the same object; and a shared `replace`, whose undo and key name the same route.
   */
  datatype Command = Link(setting: string) | Private(object_: string) | Shared(key: Route)

  datatype Undo = DeletePrivate(object_: string) | ReleaseShared(key: Route)

  /** What the kernel holds, and the process-wide counts. */
  datatype Kernel = Kernel(objects: set<string>, routes: map<string, string>, refs: map<Route, nat>)

  /** The undo record that a command leaves, if any. */
  function UndoOf(c: Command): seq<Undo> {
    match c
    case Link(_) => []
    case Private(o) => [DeletePrivate(o)]
    case Shared(k) => [ReleaseShared(k)]
  }

  function Undos(cs: seq<Command>): seq<Undo> {
    if cs == [] then [] else Undos(cs[..|cs| - 1]) + UndoOf(cs[|cs| - 1])
  }

  function Count(k: Kernel, key: Route): nat {
    if key in k.refs then k.refs[key] else 0
  }

  predicate Installed(k: Kernel, key: Route) {
    key.place in k.routes && k.routes[key.place] == key.path
  }

  predicate PositiveCounts(k: Kernel) {
    forall key <- k.refs :: k.refs[key] > 0
  }

  /** An `add` is refused when the object exists. */
  predicate Accepted(k: Kernel, c: Command) {
    c.Private? ==> c.object_ !in k.objects
  }

  /** A `replace` overwrites whatever route has its place. */
  function Do(k: Kernel, c: Command): Kernel {
    match c
    case Link(_) => k
    case Private(o) => k.(objects := k.objects + {o})
    case Shared(key) =>
      if Count(k, key) > 0 then k.(refs := k.refs[key := Count(k, key) + 1])
      else k.(routes := k.routes[key.place := key.path], refs := k.refs[key := 1])
  }

  /** Whether the command of an undo, if it runs one, finds what it is to delete. */
  predicate CanUndo(k: Kernel, u: Undo) {
    match u
    case DeletePrivate(o) => o in k.objects
    case ReleaseShared(key) => Count(k, key) == 1 ==> Installed(k, key)
  }

  /** Releasing takes one off the count; the last release runs the command, and an uncounted key none. */
  function Revert(k: Kernel, u: Undo, ok: bool): Kernel {
    match u
    case DeletePrivate(o) => if ok then k.(objects := k.objects - {o}) else k
    case ReleaseShared(key) =>
      if Count(k, key) > 1 then k.(refs := k.refs[key := Count(k, key) - 1])
      else if Count(k, key) == 1 && Installed(k, key) && ok then k.(routes := k.routes - {key.place}, refs := k.refs - {key})
      else k.(refs := k.refs - {key})
  }

  function DoAll(k: Kernel, cs: seq<Command>): Kernel {
    if cs == [] then k else Do(DoAll(k, cs[..|cs| - 1]), cs[|cs| - 1])
  }

  /** Undo commands run last to first; one that fails does not stop the others. */
  function RevertEach(k: Kernel, us: seq<Undo>, oks: seq<bool>): Kernel
    requires |us| == |oks|
    decreases |us|
  {
    if us == [] then k
    else
      var n := |us| - 1;
      RevertEach(Revert(k, us[n], oks[n]), us[..n], oks[..n])
  }

  function RevertAll(k: Kernel, us: seq<Undo>): Kernel
    decreases |us|
  {
    if us == [] then k else RevertAll(Revert(k, us[|us| - 1], true), us[..|us| - 1])
  }

  predicate AllOk(oks: seq<bool>) {
    forall i :: 0 <= i < |oks| ==> oks[i]
  }

  lemma NothingFailed()
    ensures AllOk([])
  {
  }

  lemma OneMoreOk(ok: bool, oks: seq<bool>)
    ensures AllOk([ok] + oks) <==> ok && AllOk(oks)
  {
    var all := [ok] + oks;
    assert all[0] == ok && all[1..] == oks;
    assert forall i :: 0 <= i < |oks| ==> oks[i] == all[i + 1];
  }

  lemma {:induction false} RevertFirst(k: Kernel, u: Undo, us: seq<Undo>, ok: bool, oks: seq<bool>)
    requires |us| == |oks|
    ensures RevertEach(k, [u] + us, [ok] + oks) == Revert(RevertEach(k, us, oks), u, ok)
    decreases |us|
  {
    hide Revert;
    var n := |us|;
    if us == [] {
      assert ([u] + us)[..0] == [] && ([ok] + oks)[..0] == [];
    } else {
      assert ([u] + us)[..n] == [u] + us[..n - 1] && ([ok] + oks)[..n] == [ok] + oks[..n - 1];
      RevertFirst(Revert(k, us[n - 1], oks[n - 1]), u, us[..n - 1], ok, oks[..n - 1]);
    }
  }

  lemma {:induction false} NoFailures(k: Kernel, us: seq<Undo>, oks: seq<bool>)
    requires |us| == |oks| && AllOk(oks)
    ensures RevertEach(k, us, oks) == RevertAll(k, us)
    decreases |us|
  {
    hide Revert;
    if us != [] {
      var n := |us| - 1;
      NoFailures(Revert(k, us[n], true), us[..n], oks[..n]);
    }
  }

  predicate AllAccepted(k: Kernel, cs: seq<Command>) {
    forall i :: 0 <= i < |cs| ==> Accepted(DoAll(k, cs[..i]), cs[i])
  }

  lemma {:induction false} PositiveAfterAll(k: Kernel, cs: seq<Command>)
    requires PositiveCounts(k)
    ensures PositiveCounts(DoAll(k, cs))
  {
    if cs != [] {
      PositiveAfterAll(k, cs[..|cs| - 1]);
    }
  }

  // ---------- When a rollback restores the kernel ----------

  /** No command that would install a route finds its place taken. */
  predicate TakesFreePlaces(k: Kernel, cs: seq<Command>) {
    forall i :: 0 <= i < |cs| && cs[i].Shared? && Count(k, cs[i].key) == 0 ==> cs[i].key.place !in k.routes
  }

  /** A kernel on the way back: as it was after the commands, except that routes they put in free places may be gone. */
  predicate OnTheWayBack(k': Kernel, done: Kernel, k: Kernel) {
    && k'.objects == done.objects && k'.refs == done.refs
    && (forall place <- k.routes :: place in k'.routes && k'.routes[place] == k.routes[place])
    && (forall place <- k'.routes :: place in done.routes && k'.routes[place] == done.routes[place])
  }

  lemma {:induction false} CountAfterAll(k: Kernel, cs: seq<Command>, key: Route)
    ensures Count(DoAll(k, cs), key) >= Count(k, key)
    ensures Shared(key) !in cs ==> Count(DoAll(k, cs), key) == Count(k, key)
  {
    if cs != [] {
      CountAfterAll(k, cs[..|cs| - 1], key);
      assert cs[|cs| - 1] in cs;
      assert forall c <- cs[..|cs| - 1] :: c in cs;
    }
  }

  lemma BackOneStep(k': Kernel, done: Kernel, c: Command, k: Kernel)
    requires PositiveCounts(done) && Accepted(done, c) && OnTheWayBack(k', Do(done, c), k)
    requires c.Shared? && Count(done, c.key) == 0 ==> c.key.place !in k.routes
    ensures OnTheWayBack(RevertAll(k', UndoOf(c)), done, k)
  {
    assert c.Link? || UndoOf(c)[..0] == [];
    match c {
      case Link(_) =>
      case Private(o) =>
        assert done.objects + {o} - {o} == done.objects;
      case Shared(key) =>
        if Count(done, key) == 0 {
          assert key !in done.refs && done.refs[key := 1] - {key} == done.refs;
        } else {
          assert done.refs[key := Count(done, key) + 1][key := Count(done, key)] == done.refs;
        }
    }
  }

  lemma {:induction false} RevertAllAppend(k: Kernel, a: seq<Undo>, b: seq<Undo>)
    ensures RevertAll(k, a + b) == RevertAll(RevertAll(k, b), a)
    decreases |b|
  {
    hide Revert;
    if b == [] {
      assert a + b == a;
    } else {
      var u, front := b[|b| - 1], b[..|b| - 1];
      assert (a + b)[|a + b| - 1] == u && (a + b)[..|a + b| - 1] == a + front;
      RevertAllAppend(Revert(k, u, true), a, front);
    }
  }

  lemma {:induction false} BackToStart(k': Kernel, k: Kernel, cs: seq<Command>)
    requires PositiveCounts(k) && AllAccepted(k, cs) && TakesFreePlaces(k, cs) && OnTheWayBack(k', DoAll(k, cs), k)
    ensures RevertAll(k', Undos(cs)) == k
    decreases |cs|
  {
    if cs == [] {
      assert k'.routes == k.routes;
    } else {
      hide Do, Revert, Accepted, OnTheWayBack, PositiveCounts, Count;
      var front, c := cs[..|cs| - 1], cs[|cs| - 1];
      assert forall i :: 0 <= i < |front| ==> front[..i] == cs[..i];
      PositiveAfterAll(k, front);
      if c.Shared? {
        CountAfterAll(k, front, c.key);
      }
      BackOneStep(k', DoAll(k, front), c, k);
      RevertAllAppend(k', Undos(front), UndoOf(c));
      BackToStart(RevertAll(k', UndoOf(c)), k, front);
    }
  }

  /** The route is one that the commands installed. */
  predicate Acquired(k: Kernel, cs: seq<Command>, key: Route) {
    Shared(key) in cs && Count(k, key) == 0
  }

  /** A place that a command takes holds, after all of them, a route that one of them installed. */
  lemma {:induction false} PlaceIsTaken(k: Kernel, cs: seq<Command>, key: Route)
    requires Acquired(k, cs, key)
    ensures var after := DoAll(k, cs);
            key.place in after.routes && Acquired(k, cs, Route(key.place, after.routes[key.place]))
  {
    var front, c := cs[..|cs| - 1], cs[|cs| - 1];
    assert cs == front + [c];
    CountAfterAll(k, front, key);
    if c.Shared? {
      CountAfterAll(k, front, c.key);
    }
    if Shared(key) in front {
      PlaceIsTaken(k, front, key);
    }
  }

  lemma {:induction false} RevertFillsNothing(k: Kernel, us: seq<Undo>, place: string)
    requires place !in k.routes
    ensures place !in RevertAll(k, us).routes
    decreases |us|
  {
    if us != [] {
      RevertFillsNothing(Revert(k, us[|us| - 1], true), us[..|us| - 1], place);
    }
  }

  lemma BackOneCount(k': Kernel, done: Kernel, c: Command)
    requires PositiveCounts(done) && k'.refs == Do(done, c).refs
    ensures RevertAll(k', UndoOf(c)).refs == done.refs
    ensures RevertAll(k', UndoOf(c)).routes
            == if c.Shared? && Count(done, c.key) == 0 && Installed(k', c.key) then k'.routes - {c.key.place} else k'.routes
  {
    assert c.Link? || UndoOf(c)[..0] == [];
    if c.Shared? {
      var key := c.key;
      if Count(done, key) == 0 {
        assert key !in done.refs && done.refs[key := 1] - {key} == done.refs;
      } else {
        assert done.refs[key := Count(done, key) + 1][key := Count(done, key)] == done.refs;
      }
    }
  }

  /** Whatever the commands installed in a place, undoing them leaves the place empty. */
  lemma {:induction false} PlaceEndsEmpty(k': Kernel, k: Kernel, cs: seq<Command>, place: string)
    requires PositiveCounts(k) && k'.refs == DoAll(k, cs).refs
    requires place in k'.routes ==> Acquired(k, cs, Route(place, k'.routes[place]))
    ensures place !in RevertAll(k', Undos(cs)).routes
    decreases |cs|
  {
    if place !in k'.routes {
      RevertFillsNothing(k', Undos(cs), place);
    } else {
      hide Do, Revert, PositiveCounts, Count, RevertAll;
      var front, c := cs[..|cs| - 1], cs[|cs| - 1];
      var held := Route(place, k'.routes[place]);
      assert cs == front + [c];
      PositiveAfterAll(k, front);
      CountAfterAll(k, front, held);
      BackOneCount(k', DoAll(k, front), c);
      RevertAllAppend(k', Undos(front), UndoOf(c));
      PlaceEndsEmpty(RevertAll(k', UndoOf(c)), k, front, place);
    }
  }

  /** Undoing accepted commands restores objects, routes and counts exactly when the routes they installed took free places. */
  lemma RollbackRestoresIff(k: Kernel, cs: seq<Command>)
    requires PositiveCounts(k) && AllAccepted(k, cs)
    ensures RevertAll(DoAll(k, cs), Undos(cs)) == k <==> TakesFreePlaces(k, cs)
  {
    hide DoAll, RevertAll, Undos;
    if TakesFreePlaces(k, cs) {
      RoutesKept(k, cs);
      BackToStart(DoAll(k, cs), k, cs);
    } else {
      var i :| 0 <= i < |cs| && cs[i].Shared? && Count(k, cs[i].key) == 0 && cs[i].key.place in k.routes;
      var key := cs[i].key;
      assert Shared(key) in cs;
      PlaceIsTaken(k, cs, key);
      PlaceEndsEmpty(DoAll(k, cs), k, cs, key.place);
    }
  }

  /** A route that nobody counts is overwritten by an exclusion in its place, and lost when the exclusion is undone. */
  lemma ForeignRouteIsLost(key: Route, path: string)
    ensures var k := Kernel({}, map[key.place := path], map[]);
            AllAccepted(k, [Shared(key)]) && key.place !in RevertAll(DoAll(k, [Shared(key)]), Undos([Shared(key)])).routes
  {
    var k, cs := Kernel({}, map[key.place := path], map[]), [Shared(key)];
    assert Shared(key) in cs;
    PlaceIsTaken(k, cs, key);
    PlaceEndsEmpty(DoAll(k, cs), k, cs, key.place);
  }

  lemma {:induction false} RoutesKept(k: Kernel, cs: seq<Command>)
    requires TakesFreePlaces(k, cs)
    ensures forall place <- k.routes :: place in DoAll(k, cs).routes && DoAll(k, cs).routes[place] == k.routes[place]
  {
    if cs != [] {
      RoutesKept(k, cs[..|cs| - 1]);
      if cs[|cs| - 1].Shared? {
        CountAfterAll(k, cs[..|cs| - 1], cs[|cs| - 1].key);
      }
    }
  }

  lemma OneMore(k: Kernel, cs: seq<Command>, i: nat)
    requires i < |cs| && AllAccepted(k, cs[..i]) && Accepted(DoAll(k, cs[..i]), cs[i])
    ensures AllAccepted(k, cs[..i + 1]) && DoAll(k, cs[..i + 1]) == Do(DoAll(k, cs[..i]), cs[i])
    ensures Undos(cs[..i + 1]) == Undos(cs[..i]) + UndoOf(cs[i])
  {
    var more := cs[..i + 1];
    assert more[..i] == cs[..i];
    forall j | 0 <= j < |more|
      ensures Accepted(DoAll(k, more[..j]), more[j])
    {
      assert more[..j] == cs[..i][..j];
    }
  }

  // ---------- The manager, one session at a time ----------

  class Manager {
    var kernel: Kernel

    /** Whatever the kernel holds at first, nothing is counted. */
    constructor (initial: Kernel)
      ensures kernel == initial.(refs := map[]) && PositiveCounts(kernel)
    {
      kernel := initial.(refs := map[]);
    }

    /** Runs or counts one command; on an error nothing has changed. */
    method Run(c: Command) returns (ok: bool)
      modifies this
      ensures kernel == if ok then Do(old(kernel), c) else old(kernel)
      ensures ok ==> Accepted(old(kernel), c)
      ensures c.Shared? && Count(old(kernel), c.key) > 0 ==> ok
    {
      if c.Shared? && Count(kernel, c.key) > 0 {
        kernel := Do(kernel, c);
        return true;
      }
      ok := *;
      if c.Private? && c.object_ in kernel.objects {
        ok := false;
      }
      if ok {
        kernel := Do(kernel, c);
      }
    }

    /** Runs the undo list backwards; `clean` says that no command failed, and `oks` which of them did. */
    method RunUndo(us: seq<Undo>) returns (clean: bool, ghost oks: seq<bool>)
      modifies this
      ensures |oks| == |us| && kernel == RevertEach(old(kernel), us, oks)
      ensures clean <==> AllOk(oks)
    {
      hide Revert, AllOk;
      clean, oks := true, [];
      assert AllOk(oks) by {
        NothingFailed();
      }
      assert us[|us|..] == [];
      for i := |us| downto 0
        invariant |oks| == |us| - i && kernel == RevertEach(old(kernel), us[i..], oks)
        invariant clean <==> AllOk(oks)
      {
        RevertFirst(old(kernel), us[i], us[i + 1..], false, oks);
        RevertFirst(old(kernel), us[i], us[i + 1..], true, oks);
        assert us[i..] == [us[i]] + us[i + 1..];
        var ok := UndoOne(us[i]);
        OneMoreOk(ok, oks);
        clean, oks := clean && ok, [ok] + oks;
      }
      assert us[0..] == us;
    }

    method UndoOne(u: Undo) returns (ok: bool)
      modifies this
      ensures kernel == Revert(old(kernel), u, ok)
      ensures ok ==> CanUndo(old(kernel), u)
    {
      match u
      case DeletePrivate(o) =>
        ok := *;
        if o !in kernel.objects {
          ok := false;
        }
        if ok {
          kernel := kernel.(objects := kernel.objects - {o});
        }
      case ReleaseShared(key) =>
        var refs := Count(kernel, key);
        if refs > 1 {
          kernel := kernel.(refs := kernel.refs[key := refs - 1]);
          return true;
        }
        kernel := kernel.(refs := kernel.refs - {key});
        if refs == 0 {
          return true;
        }
        ok := *;
        if !Installed(kernel, key) {
          ok := false;
        }
        if ok {
          kernel := kernel.(routes := kernel.routes - {key.place});
        }
    }

    /**
     Runs the commands in order. A failure rolls back what was done; if no undo fails, nothing remains of it
     exactly when the routes it had installed took free places. The returned list still names the
     commands that were undone.
     */
    method Apply(cs: seq<Command>) returns (ok: bool, undo: seq<Undo>, clean: bool, ghost n: nat)
      requires PositiveCounts(kernel)
      modifies this
      ensures n <= |cs| && AllAccepted(old(kernel), cs[..n]) && undo == Undos(cs[..n])
      ensures ok ==> n == |cs| && kernel == DoAll(old(kernel), cs)
      ensures !ok ==> n < |cs| && exists oks :: |oks| == |undo| && kernel == RevertEach(DoAll(old(kernel), cs[..n]), undo, oks)
      ensures !ok && clean ==> (kernel == old(kernel) <==> TakesFreePlaces(old(kernel), cs[..n]))
    {
      undo := [];
      assert cs[..0] == [];
      hide Do, Accepted, Count, PositiveCounts, TakesFreePlaces;
      for i := 0 to |cs|
        invariant AllAccepted(old(kernel), cs[..i]) && kernel == DoAll(old(kernel), cs[..i])
        invariant undo == Undos(cs[..i])
      {
        var done := Run(cs[i]);
        if !done {
          ghost var oks;
          ghost var after := kernel;
          clean, oks := RunUndo(undo);
          if clean {
            NoFailures(after, undo, oks);
          }
          RollbackRestoresIff(old(kernel), cs[..i]);
          return false, undo, clean, i;
        }
        OneMore(old(kernel), cs, i);
        undo := undo + UndoOf(cs[i]);
      }
      assert cs[..|cs|] == cs;
      return true, undo, true, |cs|;
    }

    method Cleanup(undo: seq<Undo>) returns (clean: bool, ghost oks: seq<bool>)
      modifies this
      ensures |oks| == |undo| && kernel == RevertEach(old(kernel), undo, oks)
      ensures clean ==> kernel == RevertAll(old(kernel), undo)
    {
      ghost var before := kernel;
      clean, oks := RunUndo(undo);
      if clean {
        NoFailures(before, undo, oks);
      }
    }
  }

  // ---------- Cleaning up twice ----------

  /** The undo names an object that is present, or a route that is counted. */
  predicate Held(k: Kernel, u: Undo) {
    match u
    case DeletePrivate(o) => o in k.objects
    case ReleaseShared(key) => key in k.refs
  }

  predicate NothingHeld(k: Kernel, us: seq<Undo>) {
    forall u <- us :: !Held(k, u)
  }

  lemma {:induction false} RevertNothing(k: Kernel, us: seq<Undo>)
    requires NothingHeld(k, us)
    ensures RevertAll(k, us) == k
    decreases |us|
  {
    if us != [] {
      var u := us[|us| - 1];
      assert u in us;
      assert Revert(k, u, true) == k by {
        assert u.DeletePrivate? ==> k.objects - {u.object_} == k.objects;
        assert u.ReleaseShared? ==> k.refs - {u.key} == k.refs;
      }
      RevertNothing(k, us[..|us| - 1]);
    }
  }

  function Releases(us: seq<Undo>, key: Route): nat {
    if us == [] then 0 else (if us[|us| - 1] == ReleaseShared(key) then 1 else 0) + Releases(us[..|us| - 1], key)
  }

  /** What a list of undos does: named objects go, and each release takes one off a count that is not zero. */
  lemma {:induction false} RevertAllEffect(k: Kernel, us: seq<Undo>, key: Route)
    ensures Count(RevertAll(k, us), key) == if Count(k, key) > Releases(us, key) then Count(k, key) - Releases(us, key) else 0
    ensures RevertAll(k, us).objects == k.objects - set u | u in us && u.DeletePrivate? :: u.object_
    decreases |us|
  {
    if us == [] {
      assert k.objects - {} == k.objects;
    } else {
      var u, front := us[|us| - 1], us[..|us| - 1];
      RevertAllEffect(Revert(k, u, true), front, key);
      assert forall v :: v in us <==> v in front || v == u;
    }
  }

  lemma {:induction false} ReleasesOccurs(us: seq<Undo>, key: Route)
    requires ReleaseShared(key) in us
    ensures Releases(us, key) > 0
  {
    if us[|us| - 1] != ReleaseShared(key) {
      ReleasesOccurs(us[..|us| - 1], key);
    }
  }

  /** Running undos changes nothing exactly when none of them names a present object or a counted route. */
  lemma CleanupIsHarmlessIff(k: Kernel, us: seq<Undo>)
    requires PositiveCounts(k)
    ensures RevertAll(k, us) == k <==> NothingHeld(k, us)
  {
    hide RevertAll, Releases;
    if NothingHeld(k, us) {
      RevertNothing(k, us);
    } else {
      var u :| u in us && Held(k, u);
      match u
      case DeletePrivate(o) => RevertAllEffect(k, us, Route("", ""));
      case ReleaseShared(key) =>
        RevertAllEffect(k, us, key);
        ReleasesOccurs(us, key);
    }
  }

  /** Cleaning up the state of a failed Apply takes away a route that another session still holds. */
  lemma FailedStateMustNotBeCleaned(key: Route, other: string)
    ensures var before := DoAll(Kernel({other}, map[], map[]), [Shared(key)]);
            var cs := [Shared(key), Private(other)];
            && AllAccepted(before, cs[..1]) && !Accepted(DoAll(before, cs[..1]), cs[1])
            && RevertAll(DoAll(before, cs[..1]), Undos(cs[..1])) == before
            && Count(before, key) == 1 && Installed(before, key)
            && !Installed(RevertAll(before, Undos(cs[..1])), key)
  {
    var empty := Kernel({other}, map[], map[]);
    assert [Shared(key)][..0] == [];
    var before := Do(empty, Shared(key));
    assert DoAll(empty, [Shared(key)]) == before;
    var cs := [Shared(key), Private(other)][..1];
    assert cs == [Shared(key)] && cs[..0] == [];
    assert DoAll(before, cs) == Do(before, Shared(key));
    assert Undos(cs) == Undos([]) + [ReleaseShared(key)] == [ReleaseShared(key)];
    assert [ReleaseShared(key)][..0] == [];
    RollbackRestoresIff(before, cs);
    assert RevertAll(before, [ReleaseShared(key)]) == Revert(before, ReleaseShared(key), true);
  }
}
