/** What each kind of answer leads to, by status code: whether a retry is recorded, and when it falls due. */
module RetryAnswers {
  import opened Wrappers
  import opened Text
  import opened RetryQueue
  import opened RetryChain
  import Backoff

  const ONE_SECOND: int := 1_000_000_000
  const FIVE_MINUTES: int := 300 * ONE_SECOND

  /** Codes after which a request is always worth sending again. */
  predicate AlwaysAgain(code: int) {
    code in {401, 407, 408, 429} || 500 <= code <= 599
  }

  /** Whether the n-th send is to be followed by another, as the answer's code and what came with it say. */
  predicate PendingAsAnswered(pending: bool, n: int, a: Answer) {
    var d := a.response;
    && (n >= 4 ==> !pending)
    && (200 <= d.code <= 299 ==> !pending)
    && (AlwaysAgain(d.code) && n < 4 ==> pending)
    && (300 <= d.code <= 399 && n < 4 ==> (pending <==> d.targetFailover || d.redirectUri != "" || d.candidate != ""))
    && (d.code != 0 && !(200 <= d.code <= 399) && !AlwaysAgain(d.code) && n < 4 ==> (pending <==> d.recoverable || d.registrationNeeded))
    && (d.code == 0 && n < 4 ==> (pending <==> a.error == Some(true)))
  }

  /** A Retry-After of a response sets the due time, if it is not negative; otherwise the backoff does. */
  predicate DueAsAnswered(dueAt: int, n: int, now: int, a: Answer) {
    var after := if a.response.code == 0 then None else a.response.retryAfter;
    && (after.Some? && after.value >= 0 ==> dueAt == now + after.value)
    && (after.Some? && after.value < 0 ==> dueAt == now)
    && (after.None? ==> dueAt == now + Backoff.Delay(ONE_SECOND, FIVE_MINUTES, n))
  }

  /** What the envelope recorded after the n-th send and its answer says, and what the store then holds. */
  ghost predicate RecordedAsAnswered(e: Envelope, r: Request, n: int, now: int, a: Answer, m: Retries) {
    && PendingAsAnswered(e.IsPending(), n, a)
    && (e.IsPending() && now != 0 ==> DueAsAnswered(e.dueAt, n, now, a))
    && Lookup(Recorded(m, e), SlotOf(r)) == if e.IsPending() then Some(e) else None
  }

  lemma BackoffIsPositive(n: int)
    requires n >= 1
    ensures Backoff.Delay(ONE_SECOND, FIVE_MINUTES, n) > 0
  {
    hide Backoff.Delay;
    Backoff.Monotone(ONE_SECOND, FIVE_MINUTES, n, n);
  }

  lemma AnswersDecide(e: Envelope, r: Request, n: int, now: int, a: Answer, m: Retries)
    requires Records(e, r, n, now, a) && n >= 1
    ensures RecordedAsAnswered(e, r, n, now, a, m)
  {
    hide SmsKey, UssdKey, Recorded, SlotOf, Lookup, Backoff.Delay, Owned;
    RecordingTouchesOwnSlot(m, e, r, n, now, a, SlotOf(r));
    BackoffIsPositive(n);
  }

  /** A first send is recorded as its answer says. */
  lemma FirstIsRecordedAsAnswered(r: Request, now: int, a: Answer, m: Retries)
    ensures RecordedAsAnswered(First(r, now, a), r, 1, now, a, m)
  {
    hide Records, First, RecordedAsAnswered;
    FirstRecords(r, now, a);
    AnswersDecide(First(r, now, a), r, 1, now, a, m);
  }

  /** So is every replay. */
  lemma ReplayIsRecordedAsAnswered(e: Envelope, now: int, a: Answer, m: Retries)
    requires Owned(e)
    ensures RecordedAsAnswered(Replayed(e, now, a), RequestOf(e), e.attempt + 1, now, a, m)
  {
    hide Records, Replayed, RecordedAsAnswered, SmsKey, UssdKey;
    assert e.attempt >= 1;
    hide Owned;
    ReplayRecords(e, now, a);
    AnswersDecide(Replayed(e, now, a), RequestOf(e), e.attempt + 1, now, a, m);
  }

  // ---------- Envelopes whose fields were lost ----------

  /** The attempt numbers of the envelope and its plan agree, as far as they are set. */
  predicate NumbersAgree(e: Envelope) {
    && e.attempt >= 0 && e.plan.attempt >= 0 && (e.attempt > 0 || e.plan.attempt > 0)
    && (e.attempt > 0 && e.plan.attempt > 0 ==> e.attempt == e.plan.attempt)
    && (e.nextAttempt > 0 ==> e.nextAttempt == Sent(e) + 1) && (e.plan.nextAttempt > 0 ==> e.plan.nextAttempt == Sent(e) + 1)
  }

  function Sent(e: Envelope): int {
    if e.attempt > e.plan.attempt then e.attempt else e.plan.attempt
  }

  /** Whichever of the numbers a stored envelope has lost, its replay is the next attempt; with none left, it starts over. */
  lemma ReplayIsNextAttempt(e: Envelope, now: int, a: Answer)
    requires e.HasReplayPayload()
    ensures NumbersAgree(e) ==> Replayed(e, now, a).attempt == Sent(e) + 1
    ensures e.attempt <= 0 && e.plan.attempt <= 0 && e.nextAttempt <= 0 && e.plan.nextAttempt <= 0 ==> Replayed(e, now, a).attempt == 1
  {
    hide SmsKey, UssdKey, Retryable, RetryDelay, TrimSpace, Trimmed;
  }

  // ---------- Session keys ----------

  /** Sessions with different plain identifiers have different keys. */
  lemma SessionKeysDiffer(q: UssdRequest, r: UssdRequest)
    requires PlainId(q.sessionId) && PlainId(r.sessionId) && UssdKey(q) == UssdKey(r)
    ensures q.sessionId == r.sessionId
  {
    PlainSession(q);
    PlainSession(r);
    AfterPart("ussd-session:", q.sessionId, r.sessionId);
  }

  lemma PlainSession(r: UssdRequest)
    requires PlainId(r.sessionId)
    ensures UssdKey(r) == "ussd-session:" + r.sessionId
  {
    hide TrimDashes, Dashed;
    var id := r.sessionId;
    assert id[0] in id && id[|id| - 1] in id;
    assert TrimSpace(id) == id;
    TokensStay(id);
  }

  /** Without a message identifier the peer stands in for it, and without a session identifier the command. */
  lemma KeysOfNameless(q: SmsRequest, r: UssdRequest)
    requires TrimSpace(q.messageId) == "" && PlainId(q.peer) && q.partNo >= 1
    requires TrimSpace(r.sessionId) == "" && PlainId(r.command)
    ensures SmsKey(q) == "sms-submit:" + q.peer + ":part-" + Decimal(q.partNo)
    ensures UssdKey(r) == "ussd-session:" + r.command
  {
    hide Decimal, TrimDashes, Dashed, TrimSpace;
    PlainToken(q.peer);
    PlainToken(r.command);
  }

  lemma PlainToken(id: string)
    requires PlainId(id)
    ensures Token(id) == id && TrimSpace(id) == id
  {
    hide TrimDashes, Dashed;
    assert id[0] in id && id[|id| - 1] in id;
    assert Trimmed(id);
    TokensStay(id);
  }

  lemma {:induction false} DashedAppend(a: string, b: string)
    requires forall c <- a :: TokenChar(c)
    ensures Dashed(a + b, false) == a + Dashed(b, false)
  {
    if a == [] {
      assert a + b == b;
    } else {
      assert (a + b)[1..] == a[1..] + b;
      DashedAppend(a[1..], b);
    }
  }

  lemma {:induction false} DashedStretch(gap: string, b: string)
    requires (forall c <- gap :: !TokenChar(c)) && IsToken(b)
    ensures Dashed(gap + b, true) == b
  {
    if gap == [] {
      assert gap + b == b && b == [b[0]] + b[1..] && TokenChar(b[0]);
      assert Dashed(b, true) == Dashed(b, false);
      TokensStay(b);
    } else {
      assert (gap + b)[1..] == gap[1..] + b && gap[0] in gap;
      DashedStretch(gap[1..], b);
    }
  }

  lemma DashedWords(a: string, gap: string, b: string)
    requires PlainId(a) && PlainId(b) && gap != [] && (forall c <- gap :: !TokenChar(c))
    ensures Dashed(a + (gap + b), false) == a + ['-'] + b
  {
    hide TokenChar;
    assert gap[0] in gap && (gap + b)[1..] == gap[1..] + b && (gap + b)[0] == gap[0];
    DashedAppend(a, gap + b);
    DashedStretch(gap[1..], b);
    Regrouped(a, ['-'], b);
  }

  lemma StaysTrimmed(a: string, gap: string, b: string)
    requires PlainId(a) && PlainId(b)
    ensures TrimSpace(a + (gap + b)) == a + (gap + b)
  {
    var text := a + (gap + b);
    assert a[0] in a && b[|b| - 1] in b && text[0] == a[0] && text[|text| - 1] == b[|b| - 1];
    assert Trimmed(text);
  }

  /** A stretch of other characters between two words becomes one dash. */
  lemma WordsAreDashed(a: string, gap: string, b: string)
    requires PlainId(a) && PlainId(b) && gap != [] && (forall c <- gap :: !TokenChar(c))
    ensures Token(a + (gap + b)) == a + ['-'] + b
  {
    hide TrimDashes, TrimSpace;
    DashedWords(a, gap, b);
    StaysTrimmed(a, gap, b);
    var dashed := a + ['-'] + b;
    assert dashed[0] == a[0] && dashed[|dashed| - 1] == b[|b| - 1];
  }
}
