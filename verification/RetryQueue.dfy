/** The durable queue of messaging retries: a slice kept sorted, which refines a map. */
module RetryQueue {
  import opened Wrappers
  import opened Text
  import Order

  const SMS_SUBMIT: string := "sms-submit"
  const USSD_SESSION: string := "ussd-session"

  datatype SmsRequest = SmsRequest(messageId: string, peer: string, partNo: int, text: string)
  datatype UssdRequest = UssdRequest(sessionId: string, command: string, input: string)
  datatype Payload = Payload(smsSubmit: Option<SmsRequest>, ussd: Option<UssdRequest>)

  datatype QueueState = Pending | Terminal | OtherState

  /** The fields of a retry plan that decide whether, when and under which key to send again. */
  datatype Plan = Plan(
    operation: string, retry: bool, terminal: bool, durable: bool, attempt: int, nextAttempt: int, maxAttempts: int,
    delay: int, nextAttemptAt: int, retryKey: string, idempotencyKey: string, sessionKey: string)

  /** Times are instants; zero is the unset time. */
  datatype Envelope = Envelope(
    key: string, operation: string, state: QueueState, attempt: int, nextAttempt: int,
    idempotencyKey: string, sessionKey: string, dueAt: int, createdAt: int, plan: Plan, payload: Payload)
  {
    predicate IsPending() {
      state == Pending && plan.retry && !plan.terminal && TrimSpace(key) != ""
    }

    predicate IsTerminal() {
      state == Terminal || plan.terminal || !plan.retry
    }

    predicate HasReplayPayload() {
      || (operation == SMS_SUBMIT && payload.smsSubmit.Some?)
      || (operation == USSD_SESSION && payload.ussd.Some?)
    }

    predicate IsDue(now: int) {
      IsPending() && HasReplayPayload() && (dueAt == 0 || (now != 0 && dueAt <= now))
    }

    predicate Matches(operation: string, key: string) {
      TrimSpace(this.key) == key && (operation == "" || this.operation == operation)
    }

    /** Whether Upsert keeps the envelope. */
    predicate Storable() {
      TrimSpace(key) != "" && !IsTerminal() && HasReplayPayload()
    }

    function Place(): Slot {
      Slot(operation, TrimSpace(key))
    }
  }

  /** What identifies a stored retry. */
  datatype Slot = Slot(operation: string, key: string)

  // ---------- The order of the queue ----------

  predicate EarlierDue(a: int, b: int) {
    if (a == 0) != (b == 0) then a == 0 else a < b
  }

  predicate Before(a: Envelope, b: Envelope) {
    if a.dueAt != b.dueAt then EarlierDue(a.dueAt, b.dueAt)
    else if a.createdAt != b.createdAt then a.createdAt < b.createdAt
    else if a.operation != b.operation then Order.Less(a.operation, b.operation)
    else Order.Less(a.key, b.key)
  }

  /** Envelopes that the order does not tell apart. */
  predicate Tied(a: Envelope, b: Envelope) {
    a.dueAt == b.dueAt && a.createdAt == b.createdAt && a.operation == b.operation && a.key == b.key
  }

  lemma BeforeIsTotal(a: Envelope, b: Envelope)
    ensures !(Before(a, b) && Before(b, a))
    ensures Tied(a, b) <==> !Before(a, b) && !Before(b, a)
  {
    Order.Trichotomy(a.operation, b.operation);
    Order.Trichotomy(a.key, b.key);
  }

  lemma BeforeIsTransitive(a: Envelope, b: Envelope, c: Envelope)
    requires Before(a, b) && Before(b, c)
    ensures Before(a, c)
  {
    Order.Trichotomy(a.operation, b.operation);
    Order.Trichotomy(b.operation, c.operation);
    if a.operation != b.operation && b.operation != c.operation && Order.Less(a.operation, b.operation) && Order.Less(b.operation, c.operation) {
      Order.Transitive(a.operation, b.operation, c.operation);
      Order.Trichotomy(a.operation, c.operation);
    }
    if Order.Less(a.key, b.key) && Order.Less(b.key, c.key) {
      Order.Transitive(a.key, b.key, c.key);
    }
  }

  /** What no later element undercuts stays so through a chain. */
  lemma NotBeforeIsTransitive(a: Envelope, b: Envelope, c: Envelope)
    requires !Before(b, a) && !Before(c, b)
    ensures !Before(c, a)
  {
    hide Before;
    BeforeIsTotal(a, b);
    BeforeIsTotal(b, c);
    if Tied(a, b) {
      TiedCompareAlike(a, b, c);
    } else if Tied(b, c) {
      TiedCompareAlike(c, b, a);
    } else {
      BeforeIsTransitive(a, b, c);
    }
    BeforeIsTotal(a, c);
  }

  lemma TiedCompareAlike(a: Envelope, b: Envelope, c: Envelope)
    requires Tied(a, b)
    ensures Before(a, c) == Before(b, c) && Before(c, a) == Before(c, b)
  {
  }

  /** No element belongs before an earlier one. */
  predicate Ordered(s: seq<Envelope>) {
    forall i, j :: 0 <= i < j < |s| ==> !Before(s[j], s[i])
  }

  // ---------- Stable sorting ----------

  function Insert(s: seq<Envelope>, e: Envelope): seq<Envelope> {
    if s == [] || !Before(e, s[|s| - 1]) then s + [e]
    else Insert(s[..|s| - 1], e) + [s[|s| - 1]]
  }

  function StableSort(s: seq<Envelope>): seq<Envelope> {
    if s == [] then [] else Insert(StableSort(s[..|s| - 1]), s[|s| - 1])
  }

  lemma {:induction false} InsertKeepsElements(s: seq<Envelope>, e: Envelope)
    ensures multiset(Insert(s, e)) == multiset(s) + multiset{e}
  {
    if s != [] && Before(e, s[|s| - 1]) {
      InsertKeepsElements(s[..|s| - 1], e);
      assert s == s[..|s| - 1] + [s[|s| - 1]];
    }
  }

  lemma SameMembers(s: seq<Envelope>, t: seq<Envelope>)
    requires multiset(s) == multiset(t)
    ensures forall e :: e in s <==> e in t
  {
    forall e
      ensures e in s <==> e in t
    {
      assert e in s <==> e in multiset(s);
      assert e in t <==> e in multiset(t);
    }
  }

  lemma OrderedWithLast(s: seq<Envelope>, e: Envelope)
    requires Ordered(s) && (forall x <- s :: !Before(e, x))
    ensures Ordered(s + [e])
  {
  }

  lemma {:induction false} InsertKeepsOrder(s: seq<Envelope>, e: Envelope)
    requires Ordered(s)
    ensures Ordered(Insert(s, e))
  {
    hide Before;
    if s != [] {
      var front, last := s[..|s| - 1], s[|s| - 1];
      if Before(e, last) {
        InsertKeepsOrder(front, e);
        InsertKeepsElements(front, e);
        assert multiset(Insert(front, e)) == multiset(front + [e]);
        SameMembers(Insert(front, e), front + [e]);
        BeforeIsTotal(e, last);
        OrderedWithLast(Insert(front, e), last);
      } else {
        forall x <- s
          ensures !Before(e, x)
        {
          BeforeIsTotal(last, last);
          NotBeforeIsTransitive(x, last, e);
        }
        OrderedWithLast(s, e);
      }
    }
  }

  lemma NothingToOrder()
    ensures Ordered([])
  {
  }

  /** Sorting orders the slice and loses, adds and changes nothing. */
  lemma {:induction false} SortIsCorrect(s: seq<Envelope>)
    ensures Ordered(StableSort(s)) && multiset(StableSort(s)) == multiset(s)
  {
    hide Ordered, Insert;
    if s == [] {
      NothingToOrder();
    } else {
      SortIsCorrect(s[..|s| - 1]);
      InsertKeepsOrder(StableSort(s[..|s| - 1]), s[|s| - 1]);
      InsertKeepsElements(StableSort(s[..|s| - 1]), s[|s| - 1]);
      assert s == s[..|s| - 1] + [s[|s| - 1]];
    }
  }

  function TiedWith(s: seq<Envelope>, e: Envelope): seq<Envelope> {
    if s == [] then []
    else TiedWith(s[..|s| - 1], e) + if Tied(s[|s| - 1], e) then [s[|s| - 1]] else []
  }

  lemma {:induction false} InsertIsStable(s: seq<Envelope>, e: Envelope, x: Envelope)
    ensures TiedWith(Insert(s, e), x) == TiedWith(s + [e], x)
  {
    assert (s + [e])[..|s|] == s;
    if s != [] && Before(e, s[|s| - 1]) {
      var front, last := s[..|s| - 1], s[|s| - 1];
      InsertIsStable(front, e, x);
      BeforeIsTotal(e, last);
      assert (front + [e])[..|front|] == front;
      assert (Insert(front, e) + [last])[..|Insert(front, e)|] == Insert(front, e);
    }
  }

  /** Envelopes the order does not tell apart keep their places relative to each other. */
  lemma {:induction false} SortIsStable(s: seq<Envelope>, x: Envelope)
    ensures TiedWith(StableSort(s), x) == TiedWith(s, x)
  {
    if s != [] {
      var front, last := s[..|s| - 1], s[|s| - 1];
      SortIsStable(front, x);
      InsertIsStable(StableSort(front), last, x);
      assert (StableSort(front) + [last])[..|StableSort(front)|] == StableSort(front);
    }
  }

  /** A slice already in order is left alone. */
  lemma {:induction false} SortingOrdered(s: seq<Envelope>)
    requires Ordered(s)
    ensures StableSort(s) == s
  {
    if s != [] {
      SortingOrdered(s[..|s| - 1]);
      assert |s| > 1 ==> !Before(s[|s| - 1], s[|s| - 2]);
      assert s == s[..|s| - 1] + [s[|s| - 1]];
    }
  }

  // ---------- Filtering ----------

  function Without(s: seq<Envelope>, operation: string, key: string): seq<Envelope> {
    if s == [] then []
    else Without(s[..|s| - 1], operation, key) + if s[|s| - 1].Matches(operation, key) then [] else [s[|s| - 1]]
  }

  function DueOnly(s: seq<Envelope>, now: int): seq<Envelope> {
    if s == [] then []
    else DueOnly(s[..|s| - 1], now) + if s[|s| - 1].IsDue(now) then [s[|s| - 1]] else []
  }

  lemma {:induction false} WithoutMembers(s: seq<Envelope>, operation: string, key: string)
    ensures forall e :: multiset(Without(s, operation, key))[e] == if e.Matches(operation, key) then 0 else multiset(s)[e]
    ensures forall e :: e in Without(s, operation, key) <==> e in s && !e.Matches(operation, key)
  {
    if s != [] {
      WithoutMembers(s[..|s| - 1], operation, key);
      assert s == s[..|s| - 1] + [s[|s| - 1]];
    }
  }

  lemma {:induction false} WithoutKeepsOrder(s: seq<Envelope>, operation: string, key: string)
    requires Ordered(s)
    ensures Ordered(Without(s, operation, key))
  {
    hide Before;
    if s != [] {
      var front, last := s[..|s| - 1], s[|s| - 1];
      WithoutKeepsOrder(front, operation, key);
      WithoutMembers(front, operation, key);
      assert forall x <- front :: !Before(last, x);
      OrderedWithLast(Without(front, operation, key), last);
      assert Without(front, operation, key) + [] == Without(front, operation, key);
    }
  }

  lemma {:induction false} DueOnlyMembers(s: seq<Envelope>, now: int)
    ensures forall e :: multiset(DueOnly(s, now))[e] == if e.IsDue(now) then multiset(s)[e] else 0
    ensures forall e :: e in DueOnly(s, now) <==> e in s && e.IsDue(now)
  {
    if s != [] {
      DueOnlyMembers(s[..|s| - 1], now);
      assert s == s[..|s| - 1] + [s[|s| - 1]];
    }
  }

  lemma {:induction false} DueOnlyKeepsOrder(s: seq<Envelope>, now: int)
    requires Ordered(s)
    ensures Ordered(DueOnly(s, now))
  {
    hide Before;
    if s != [] {
      var front, last := s[..|s| - 1], s[|s| - 1];
      DueOnlyKeepsOrder(front, now);
      DueOnlyMembers(front, now);
      assert forall x <- front :: !Before(last, x);
      OrderedWithLast(DueOnly(front, now), last);
      assert DueOnly(front, now) + [] == DueOnly(front, now);
    }
  }

  // ---------- The map behind the slice ----------

  type Retries = map<Slot, Envelope>

  predicate Covers(operation: string, key: string, slot: Slot) {
    slot.key == key && (operation == "" || slot.operation == operation)
  }

  /** Deleting forgets the slot; an empty operation stands for every operation. */
  function MapDelete(m: Retries, operation: string, key: string): Retries {
    if TrimSpace(key) == "" then m
    else map slot | slot in m && !Covers(operation, TrimSpace(key), slot) :: m[slot]
  }

  function MapUpsert(m: Retries, e: Envelope): Retries {
    if TrimSpace(e.key) == "" then m
    else if e.Storable() then MapDelete(m, e.operation, e.key)[e.Place() := e]
    else MapDelete(m, e.operation, e.key)
  }

  /** Each slot holds a replayable envelope of its own. */
  predicate WellFormed(m: Retries) {
    forall slot <- m :: m[slot].Place() == slot && m[slot].Storable()
  }

  ghost predicate NoRepeats(s: seq<Envelope>) {
    forall e :: multiset(s)[e] <= 1
  }

  /** The slice lists the map's envelopes, each once, in order. */
  ghost predicate Lists(s: seq<Envelope>, m: Retries) {
    && Ordered(s)
    && NoRepeats(s)
    && (forall e <- s :: e.Place() in m && m[e.Place()] == e)
    && (forall slot <- m :: m[slot] in s)
  }

  lemma TiedShareSlot(a: Envelope, b: Envelope)
    requires Tied(a, b)
    ensures a.Place() == b.Place()
  {
  }

  /** An ordered slice begins with an element that nothing belongs before. */
  lemma HeadIsLeast(s: seq<Envelope>, e: Envelope)
    requires Ordered(s) && e in s
    ensures !Before(e, s[0])
  {
    BeforeIsTotal(s[0], s[0]);
  }

  ghost predicate TiesAreEqual(s: seq<Envelope>) {
    forall a <- s, b <- s :: Tied(a, b) ==> a == b
  }

  lemma TailKeeps(s: seq<Envelope>)
    requires s != [] && Ordered(s) && TiesAreEqual(s)
    ensures Ordered(s[1..]) && TiesAreEqual(s[1..])
  {
    hide Before, Tied;
  }

  lemma TailElements(s: seq<Envelope>)
    requires s != []
    ensures multiset(s[1..]) == multiset(s) - multiset{s[0]} && s == [s[0]] + s[1..]
  {
    assert s == [s[0]] + s[1..];
  }

  lemma SameHead(s: seq<Envelope>, t: seq<Envelope>)
    requires s != [] && t != [] && Ordered(s) && Ordered(t) && TiesAreEqual(s) && multiset(s) == multiset(t)
    ensures s[0] == t[0]
  {
    hide Before, Tied, Ordered;
    SameMembers(s, t);
    assert s[0] in s && t[0] in t;
    HeadIsLeast(s, t[0]);
    HeadIsLeast(t, s[0]);
    BeforeIsTotal(s[0], t[0]);
  }

  /** Where ties are equal, the elements determine the ordered slice. */
  lemma {:induction false} OrderedIsUnique(s: seq<Envelope>, t: seq<Envelope>)
    requires Ordered(s) && Ordered(t) && TiesAreEqual(s) && TiesAreEqual(t) && multiset(s) == multiset(t)
    ensures s == t
  {
    hide Ordered, TiesAreEqual;
    assert |s| == |multiset(s)| == |multiset(t)| == |t|;
    if s != [] {
      SameHead(s, t);
      TailElements(s);
      TailElements(t);
      TailKeeps(s);
      TailKeeps(t);
      OrderedIsUnique(s[1..], t[1..]);
    }
  }

  lemma MembersOnce(s: seq<Envelope>, t: seq<Envelope>)
    requires NoRepeats(s) && NoRepeats(t) && (forall e :: e in s <==> e in t)
    ensures multiset(s) == multiset(t)
  {
    forall e
      ensures multiset(s)[e] == multiset(t)[e]
    {
      assert e in s <==> e in multiset(s);
      assert e in t <==> e in multiset(t);
    }
  }

  lemma ListedTies(s: seq<Envelope>, m: Retries)
    requires Lists(s, m)
    ensures TiesAreEqual(s)
  {
    hide Ordered, NoRepeats, Tied;
    forall a <- s, b <- s | Tied(a, b)
      ensures a == b
    {
      TiedShareSlot(a, b);
    }
  }

  /** A map has one listing. */
  lemma ListingIsUnique(s: seq<Envelope>, t: seq<Envelope>, m: Retries)
    requires Lists(s, m) && Lists(t, m)
    ensures s == t
  {
    hide Ordered, NoRepeats;
    MembersOnce(s, t);
    ListedTies(s, m);
    ListedTies(t, m);
    OrderedIsUnique(s, t);
  }

  // ---------- Operations on the slice ----------

  function SliceDelete(s: seq<Envelope>, operation: string, key: string): seq<Envelope> {
    if TrimSpace(key) == "" then s else Without(s, operation, TrimSpace(key))
  }

  function SliceUpsert(s: seq<Envelope>, e: Envelope): seq<Envelope> {
    if TrimSpace(e.key) == "" then s
    else if e.Storable() then StableSort(SliceDelete(s, e.operation, e.key) + [e])
    else SliceDelete(s, e.operation, e.key)
  }

  lemma DeleteRefines(s: seq<Envelope>, m: Retries, operation: string, key: string)
    requires Lists(s, m) && WellFormed(m)
    ensures Lists(SliceDelete(s, operation, key), MapDelete(m, operation, key)) && WellFormed(MapDelete(m, operation, key))
  {
    hide Ordered, TrimSpace, Without, Envelope.Storable;
    WithoutMembers(s, operation, TrimSpace(key));
    WithoutKeepsOrder(s, operation, TrimSpace(key));
  }

  lemma UpsertRefines(s: seq<Envelope>, m: Retries, e: Envelope)
    requires Lists(s, m) && WellFormed(m)
    ensures Lists(SliceUpsert(s, e), MapUpsert(m, e)) && WellFormed(MapUpsert(m, e))
  {
    hide Ordered, StableSort, SliceDelete, TrimSpace;
    DeleteRefines(s, m, e.operation, e.key);
    if e.Storable() {
      AppendRefines(SliceDelete(s, e.operation, e.key), MapDelete(m, e.operation, e.key), e);
    }
  }

  /** Adding an envelope with a slot of its own and sorting lists the extended map. */
  lemma AppendRefines(s: seq<Envelope>, m: Retries, e: Envelope)
    requires Lists(s, m) && WellFormed(m) && e.Place() !in m && e.Storable()
    ensures Lists(StableSort(s + [e]), m[e.Place() := e]) && WellFormed(m[e.Place() := e])
  {
    hide Ordered, StableSort, TrimSpace;
    SortIsCorrect(s + [e]);
    SameMembers(StableSort(s + [e]), s + [e]);
    assert e !in s && multiset(s)[e] == 0;
    assert multiset(s + [e]) == multiset(s) + multiset{e};
  }

  // ---------- Selecting what is due ----------

  function Selected(s: seq<Envelope>, now: int, limit: int): seq<Envelope> {
    var due := StableSort(DueOnly(s, now));
    if 0 < limit < |due| then due[..limit] else due
  }

  method SelectDue(envelopes: seq<Envelope>, now: int, limit: int) returns (out: seq<Envelope>)
    ensures out == Selected(envelopes, now, limit)
  {
    out := [];
    if |envelopes| == 0 {
      return;
    }
    for i := 0 to |envelopes|
      invariant out == DueOnly(envelopes[..i], now)
    {
      assert envelopes[..i + 1][..i] == envelopes[..i];
      if envelopes[i].IsDue(now) {
        out := out + [envelopes[i]];
      }
    }
    assert envelopes[..|envelopes|] == envelopes;
    out := StableSort(out);
    if limit > 0 && |out| > limit {
      out := out[..limit];
    }
  }

  /** The selection holds due envelopes of the slice, in order, as many as the limit allows. */
  lemma SelectedAreDue(s: seq<Envelope>, now: int, limit: int)
    ensures Ordered(Selected(s, now, limit))
    ensures multiset(Selected(s, now, limit)) <= multiset(s)
    ensures forall e <- Selected(s, now, limit) :: e.IsDue(now)
    ensures |Selected(s, now, limit)| == if 0 < limit < |DueOnly(s, now)| then limit else |DueOnly(s, now)|
  {
    hide Before, Envelope.IsDue, StableSort, DueOnly;
    var due := StableSort(DueOnly(s, now));
    SortIsCorrect(DueOnly(s, now));
    SameMembers(due, DueOnly(s, now));
    DueOnlyMembers(s, now);
    assert |due| == |multiset(due)| == |DueOnly(s, now)|;
    if 0 < limit < |due| {
      assert due == due[..limit] + due[limit..];
    }
  }

  /** No due envelope that was left out belongs before one that was selected. */
  lemma SelectedAreLeast(s: seq<Envelope>, now: int, limit: int, omitted: Envelope, e: Envelope)
    requires omitted.IsDue(now) && multiset(Selected(s, now, limit))[omitted] < multiset(s)[omitted]
    requires e in Selected(s, now, limit)
    ensures !Before(omitted, e)
  {
    hide Before, Envelope.IsDue, StableSort, DueOnly;
    var due := StableSort(DueOnly(s, now));
    SortIsCorrect(DueOnly(s, now));
    DueOnlyMembers(s, now);
    assert 0 < limit < |due|;
    assert due == due[..limit] + due[limit..];
    assert omitted in multiset(due[limit..]);
    var j :| 0 <= j < |due[limit..]| && due[limit..][j] == omitted;
    var i :| 0 <= i < limit && due[i] == e;
    assert due[limit + j] == omitted;
  }

  /** What the order means for the fields: an unset due time first, then due time, creation time, operation and key. */
  predicate NoLater(a: Envelope, b: Envelope) {
    && (a.dueAt == 0 || (b.dueAt != 0 && a.dueAt <= b.dueAt))
    && (a.dueAt == b.dueAt ==> a.createdAt <= b.createdAt)
    && (a.dueAt == b.dueAt && a.createdAt == b.createdAt ==> a.operation == b.operation || Order.Less(a.operation, b.operation))
    && (a.dueAt == b.dueAt && a.createdAt == b.createdAt && a.operation == b.operation ==> a.key == b.key || Order.Less(a.key, b.key))
  }

  lemma OrderOfFields(a: Envelope, b: Envelope)
    ensures !Before(b, a) <==> NoLater(a, b)
  {
    hide Order.Less;
    Order.Trichotomy(a.operation, b.operation);
    Order.Trichotomy(a.key, b.key);
  }

  /** Whatever is selected is due no later, and among equals no younger, than any due envelope that was left out. */
  lemma SelectedAreEarliest(s: seq<Envelope>, now: int, limit: int, omitted: Envelope, e: Envelope)
    requires omitted.IsDue(now) && multiset(Selected(s, now, limit))[omitted] < multiset(s)[omitted]
    requires e in Selected(s, now, limit)
    ensures NoLater(e, omitted)
  {
    hide Before, Selected, Envelope.IsDue;
    SelectedAreLeast(s, now, limit, omitted, e);
    OrderOfFields(e, omitted);
  }

  /** In a sorted slice the due envelopes need no sorting: the selection is a prefix of them. */
  lemma SelectedFromOrdered(s: seq<Envelope>, now: int, limit: int)
    requires Ordered(s)
    ensures Selected(s, now, limit) <= DueOnly(s, now)
    ensures limit <= 0 ==> Selected(s, now, limit) == DueOnly(s, now)
  {
    DueOnlyKeepsOrder(s, now);
    SortingOrdered(DueOnly(s, now));
  }

  /** From a listing the selection is a prefix of the due envelopes; without a limit it is all the map holds that are due. */
  lemma DueFromListing(s: seq<Envelope>, m: Retries, now: int, limit: int)
    requires Lists(s, m)
    ensures Selected(s, now, limit) <= DueOnly(s, now)
    ensures limit <= 0 ==> forall e :: e in Selected(s, now, limit) <==> e.IsDue(now) && e.Place() in m && m[e.Place()] == e
  {
    hide Envelope.IsDue, Ordered, NoRepeats, DueOnly, Selected;
    SelectedFromOrdered(s, now, limit);
    DueOnlyMembers(s, now);
  }

  // ---------- The queue ----------

  class Queue {
    var envelopes: seq<Envelope>

    constructor ()
      ensures envelopes == [] && Lists(envelopes, map[])
    {
      envelopes := [];
    }

    method Delete(operation: string, key: string)
      modifies this
      ensures envelopes == SliceDelete(old(envelopes), operation, key)
      ensures forall m :: Lists(old(envelopes), m) && WellFormed(m) ==> Lists(envelopes, MapDelete(m, operation, key))
    {
      forall m | Lists(envelopes, m) && WellFormed(m)
        ensures Lists(SliceDelete(envelopes, operation, key), MapDelete(m, operation, key))
      {
        DeleteRefines(envelopes, m, operation, key);
      }
      var trimmed := TrimSpace(key);
      if trimmed == "" {
        return;
      }
      var out := [];
      for i := 0 to |envelopes|
        invariant envelopes == old(envelopes)
        invariant out == Without(envelopes[..i], operation, trimmed)
      {
        assert envelopes[..i + 1][..i] == envelopes[..i];
        if !envelopes[i].Matches(operation, trimmed) {
          out := out + [envelopes[i]];
        }
      }
      assert envelopes[..|envelopes|] == envelopes;
      envelopes := out;
    }

    method Upsert(e: Envelope)
      modifies this
      ensures envelopes == SliceUpsert(old(envelopes), e)
      ensures forall m :: Lists(old(envelopes), m) && WellFormed(m) ==> Lists(envelopes, MapUpsert(m, e))
    {
      forall m | Lists(envelopes, m) && WellFormed(m)
        ensures Lists(SliceUpsert(envelopes, e), MapUpsert(m, e))
      {
        UpsertRefines(envelopes, m, e);
      }
      if TrimSpace(e.key) == "" {
        return;
      }
      Delete(e.operation, e.key);
      if e.IsTerminal() || !e.HasReplayPayload() {
        return;
      }
      envelopes := StableSort(envelopes + [e]);
    }

    method Due(now: int, limit: int) returns (out: seq<Envelope>)
      ensures out == Selected(envelopes, now, limit)
    {
      out := SelectDue(envelopes, now, limit);
    }
  }

  // ---------- Whole histories ----------

  datatype Change = Upserting(envelope: Envelope) | Deleting(operation: string, key: string)

  function SliceAfter(s: seq<Envelope>, c: Change): seq<Envelope> {
    match c
    case Upserting(e) => SliceUpsert(s, e)
    case Deleting(operation, key) => SliceDelete(s, operation, key)
  }

  function MapAfter(m: Retries, c: Change): Retries {
    match c
    case Upserting(e) => MapUpsert(m, e)
    case Deleting(operation, key) => MapDelete(m, operation, key)
  }

  function Slice(changes: seq<Change>): seq<Envelope> {
    if changes == [] then [] else SliceAfter(Slice(changes[..|changes| - 1]), changes[|changes| - 1])
  }

  function Map(changes: seq<Change>): Retries {
    if changes == [] then map[] else MapAfter(Map(changes[..|changes| - 1]), changes[|changes| - 1])
  }

  lemma {:induction false} SliceListsMap(changes: seq<Change>)
    ensures Lists(Slice(changes), Map(changes)) && WellFormed(Map(changes))
  {
    if changes != [] {
      hide Lists, WellFormed, MapUpsert, MapDelete, SliceUpsert, SliceDelete;
      var front := changes[..|changes| - 1];
      SliceListsMap(front);
      match changes[|changes| - 1]
      case Upserting(e) => UpsertRefines(Slice(front), Map(front), e);
      case Deleting(operation, key) => DeleteRefines(Slice(front), Map(front), operation, key);
    }
  }

  /** In every reachable slice an earlier envelope is due no later than a later one, and among equals no younger. */
  lemma SliceIsInOrder(changes: seq<Change>, i: nat, j: nat)
    requires i < j < |Slice(changes)|
    ensures NoLater(Slice(changes)[i], Slice(changes)[j])
  {
    hide Before, Slice, Map, NoRepeats;
    SliceListsMap(changes);
    OrderOfFields(Slice(changes)[i], Slice(changes)[j]);
  }

  /** An envelope falls due some time exactly when Upsert keeps it and its state is pending. */
  lemma DueSomeTimeIff(e: Envelope)
    ensures (exists now :: e.IsDue(now)) <==> e.Storable() && e.state == Pending
  {
    if e.Storable() && e.state == Pending {
      assert e.IsDue(if e.dueAt == 0 then 1 else e.dueAt);
    }
  }

  /** Histories that leave the same map leave the same slice, whatever the order of their changes. */
  lemma SliceDependsOnMapOnly(changes: seq<Change>, others: seq<Change>)
    requires Map(changes) == Map(others)
    ensures Slice(changes) == Slice(others)
  {
    hide Lists;
    SliceListsMap(changes);
    SliceListsMap(others);
    ListingIsUnique(Slice(changes), Slice(others), Map(changes));
  }

  predicate Touches(c: Change, slot: Slot) {
    match c
    case Upserting(e) => TrimSpace(e.key) != "" && Covers(e.operation, TrimSpace(e.key), slot)
    case Deleting(operation, key) => TrimSpace(key) != "" && Covers(operation, TrimSpace(key), slot)
  }

  /** What a slot holds is decided by the last change that touched it. */
  function Holds(changes: seq<Change>, slot: Slot): Option<Envelope> {
    if changes == [] then None
    else
      var last := changes[|changes| - 1];
      if !Touches(last, slot) then Holds(changes[..|changes| - 1], slot)
      else if last.Upserting? && last.envelope.Storable() then Some(last.envelope)
      else None
  }

  function Lookup(m: Retries, slot: Slot): Option<Envelope> {
    if slot in m then Some(m[slot]) else None
  }

  lemma {:induction false} LastChangeDecides(changes: seq<Change>, slot: Slot)
    ensures Lookup(Map(changes), slot) == Holds(changes, slot)
  {
    hide TrimSpace;
    if changes != [] {
      var front, last := changes[..|changes| - 1], changes[|changes| - 1];
      LastChangeDecides(front, slot);
      if last.Upserting? && last.envelope.Storable() {
        StorableHasOperation(last.envelope);
      }
    }
  }

  lemma StorableHasOperation(e: Envelope)
    requires e.Storable()
    ensures e.operation != ""
  {
  }

  /** Changes of unrelated slots can be made in either order. */
  lemma UnrelatedChangesCommute(changes: seq<Change>, a: Change, b: Change)
    requires forall slot :: !(Touches(a, slot) && Touches(b, slot))
    ensures Slice(changes + [a, b]) == Slice(changes + [b, a])
  {
    hide Slice, Map, Touches, Envelope.Storable;
    forall slot
      ensures Lookup(Map(changes + [a, b]), slot) == Lookup(Map(changes + [b, a]), slot)
    {
      LastChangeDecides(changes + [a, b], slot);
      LastChangeDecides(changes + [b, a], slot);
      HoldsLast(changes + [a], b, slot);
      HoldsLast(changes, a, slot);
      HoldsLast(changes + [b], a, slot);
      HoldsLast(changes, b, slot);
      assert changes + [a] + [b] == changes + [a, b] && changes + [b] + [a] == changes + [b, a];
      assert !(Touches(a, slot) && Touches(b, slot));
    }
    SameLookups(Map(changes + [a, b]), Map(changes + [b, a]));
    SliceDependsOnMapOnly(changes + [a, b], changes + [b, a]);
  }

  lemma HoldsLast(changes: seq<Change>, c: Change, slot: Slot)
    ensures Holds(changes + [c], slot) ==
            if !Touches(c, slot) then Holds(changes, slot)
            else if c.Upserting? && c.envelope.Storable() then Some(c.envelope)
            else None
  {
    assert (changes + [c])[..|changes|] == changes;
  }

  lemma SameLookups(m: Retries, n: Retries)
    requires forall slot :: Lookup(m, slot) == Lookup(n, slot)
    ensures m == n
  {
    forall slot
      ensures slot in m <==> slot in n
      ensures slot in m && slot in n ==> m[slot] == n[slot]
    {
      assert Lookup(m, slot) == Lookup(n, slot);
    }
  }
}
