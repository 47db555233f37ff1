/**
 What becomes of a message that is sent once and then replayed from the retry store: the plan made
 after each answer, the envelope that records it, and runs of the service over the whole store.
 */
module RetryChain {
  import opened Wrappers
  import opened Text
  import opened RetryQueue
  import Backoff

  function FirstNonEmpty(a: string, b: string): (r: string)
    ensures Trimmed(r)
  {
    if TrimSpace(a) != "" then TrimSpace(a) else TrimSpace(b)
  }

  // ---------- Policy and plan ----------

  datatype Policy = Policy(maxAttempts: int, baseDelay: int, maxDelay: int)

  const DEFAULT_POLICY := Policy(4, 1_000_000_000, 300_000_000_000)

  /** The policy of options that leave it out. */
  const UNSET_POLICY := Policy(0, 0, 0)

  function Normalized(p: Policy): (r: Policy)
    ensures r.maxAttempts > 0 && 0 < r.baseDelay <= r.maxDelay
    ensures p.maxAttempts > 0 && 0 < p.baseDelay <= p.maxDelay ==> r == p
    ensures p == UNSET_POLICY ==> r == DEFAULT_POLICY
    ensures (p.maxAttempts > 0 ==> r.maxAttempts == p.maxAttempts) && (p.baseDelay > 0 ==> r.baseDelay == p.baseDelay)
    ensures p.maxDelay > 0 ==> r.maxDelay == if p.maxDelay < r.baseDelay then r.baseDelay else p.maxDelay
  {
    var attempts := if p.maxAttempts > 0 then p.maxAttempts else DEFAULT_POLICY.maxAttempts;
    var base := if p.baseDelay > 0 then p.baseDelay else DEFAULT_POLICY.baseDelay;
    var max := if p.maxDelay > 0 then p.maxDelay else DEFAULT_POLICY.maxDelay;
    Policy(attempts, base, if max < base then base else max)
  }

  /** What the SIP layer makes of a response; code zero means that there was none. */
  datatype Decision = Decision(
    code: int, recoverable: bool, registrationNeeded: bool, targetFailover: bool,
    redirectUri: string, candidate: string, retryAfter: Option<int>)

  /** A transport's answer: a response, and whether an error, if any, is recoverable. */
  datatype Answer = Answer(response: Decision, error: Option<bool>)

  predicate RetryableResponse(d: Decision) {
    if 200 <= d.code < 300 then false
    else if 300 <= d.code < 400 then d.targetFailover || d.redirectUri != "" || d.candidate != ""
    else if d.code == 401 || d.code == 407 || d.code == 408 || d.code == 429 || 500 <= d.code < 600 then true
    else d.recoverable || d.registrationNeeded
  }

  predicate Retryable(a: Answer) {
    if a.response.code != 0 then RetryableResponse(a.response) else a.error == Some(true)
  }

  function NormalOperation(operation: string): string {
    if operation == SMS_SUBMIT || operation == USSD_SESSION then operation else SMS_SUBMIT
  }

  function RetryDelay(a: Answer, attempt: int, policy: Policy): (d: int)
    ensures d >= 0
  {
    var delay := if a.response.code != 0 && a.response.retryAfter.Some? then a.response.retryAfter.value
                 else Backoff.Delay(policy.baseDelay, policy.maxDelay, attempt);
    if delay < 0 then 0 else delay
  }

  function MakePlan(operation: string, a: Answer, attempt: int, policy: Policy, now: int, idempotencyKey: string, sessionKey: string): Plan {
    var p := Normalized(policy);
    var n := if attempt <= 0 then 1 else attempt;
    var id, session := TrimSpace(idempotencyKey), TrimSpace(sessionKey);
    var key := FirstNonEmpty(id, session);
    if !Retryable(a) || n >= p.maxAttempts then
      Plan(NormalOperation(operation), false, true, false, n, 0, p.maxAttempts, 0, 0, key, id, session)
    else
      var delay := RetryDelay(a, n, p);
      Plan(NormalOperation(operation), true, false, key != "", n, n + 1, p.maxAttempts,
           delay, if now == 0 then 0 else now + delay, key, id, session)
  }

  // ---------- Keys ----------

  predicate TokenChar(c: char) {
    LetterOrDigit(c) || c == '.' || c == '_' || c == '-'
  }

  predicate IsToken(s: string) {
    s != [] && forall c <- s :: TokenChar(c)
  }

  /** Token characters as they are, and a dash for every stretch of others. */
  function Dashed(s: string, lastDash: bool): (t: string)
    ensures forall c <- t :: TokenChar(c)
  {
    if s == [] then []
    else if TokenChar(s[0]) then [s[0]] + Dashed(s[1..], false)
    else if lastDash then Dashed(s[1..], true)
    else ['-'] + Dashed(s[1..], true)
  }

  function TrimDashes(s: string): (t: string)
    ensures forall c <- t :: c in s
    ensures t == [] || (t[0] != '-' && t[|t| - 1] != '-')
    ensures s == [] || (s[0] != '-' && s[|s| - 1] != '-') ==> t == s
  {
    if s != [] && s[0] == '-' then TrimDashes(s[1..])
    else if s != [] && s[|s| - 1] == '-' then TrimDashes(s[..|s| - 1])
    else s
  }

  function Token(value: string): (t: string)
    ensures IsToken(t)
  {
    var out := TrimDashes(Dashed(TrimSpace(value), false));
    if TrimSpace(value) == "" || out == "" then "sms" else out
  }

  lemma DashedStep(v: string, i: nat, lastDash: bool)
    requires i < |v|
    ensures Dashed(v[i..], lastDash) ==
            (if TokenChar(v[i]) then [v[i]] else if lastDash then [] else ['-']) + Dashed(v[i + 1..], !TokenChar(v[i]))
  {
    assert v[i..][1..] == v[i + 1..];
  }

  method WriteDashed(v: string) returns (b: string)
    ensures b == Dashed(v, false)
  {
    hide Dashed, TokenChar;
    b := "";
    var lastDash := false;
    assert v[0..] == v;
    assert b + Dashed(v, false) == Dashed(v, false);
    for i := 0 to |v|
      invariant b + Dashed(v[i..], lastDash) == Dashed(v, false)
    {
      DashedStep(v, i, lastDash);
      var out := if TokenChar(v[i]) then [v[i]] else if lastDash then [] else ['-'];
      Regrouped(b, out, Dashed(v[i + 1..], !TokenChar(v[i])));
      b, lastDash := b + out, !TokenChar(v[i]);
    }
    assert v[|v|..] == [];
    NothingDashed(lastDash);
  }

  lemma NothingDashed(lastDash: bool)
    ensures Dashed([], lastDash) == []
  {
  }

  method SmsToken(value: string) returns (token: string)
    ensures token == Token(value)
  {
    hide Dashed, TrimDashes, TrimSpace;
    var v := TrimSpace(value);
    if v == "" {
      return "sms";
    }
    var b := WriteDashed(v);
    token := TrimDashes(b);
    if token == "" {
      return "sms";
    }
  }

  lemma {:induction false} TokensStay(s: string)
    requires IsToken(s)
    ensures Dashed(s, false) == s
  {
    if |s| > 1 {
      assert IsToken(s[1..]);
      TokensStay(s[1..]);
    }
    assert s == [s[0]] + s[1..];
  }

  function SmsKey(r: SmsRequest): string {
    var partNo: nat := if r.partNo <= 0 then 1 else r.partNo;
    var id := TrimSpace(r.messageId);
    var base := if id != "" then id else if TrimSpace(r.peer) != "" then TrimSpace(r.peer) else "message";
    "sms-submit:" + Token(base) + ":part-" + Decimal(partNo)
  }

  function UssdKey(r: UssdRequest): string {
    var id := TrimSpace(r.sessionId);
    var base := if id != "" then id else FirstNonEmpty(r.command, FirstNonEmpty(r.input, "session"));
    "ussd-session:" + Token(base)
  }

  // A key's ends are never blank.

  lemma SmsKeyTrimmed(r: SmsRequest)
    ensures Trimmed(SmsKey(r)) && SmsKey(r) != ""
  {
    var partNo: nat := if r.partNo <= 0 then 1 else r.partNo;
    var key := SmsKey(r);
    DecimalDigits(partNo);
    var digits := Decimal(partNo);
    assert key[|key| - 1] == digits[|digits| - 1];
    assert digits[|digits| - 1] in digits;
    assert key[0] == 's';
  }

  lemma UssdKeyTrimmed(r: UssdRequest)
    ensures Trimmed(UssdKey(r)) && UssdKey(r) != ""
  {
    hide Token, FirstNonEmpty;
    var id := TrimSpace(r.sessionId);
    var token := Token(if id != "" then id else FirstNonEmpty(r.command, FirstNonEmpty(r.input, "session")));
    var key := UssdKey(r);
    assert token[|token| - 1] in token;
    assert key[|key| - 1] == token[|token| - 1];
    assert key[0] == 'u';
  }

  // ---------- Envelopes ----------

  function NewEnvelope(plan: Plan, payload: Payload, now: int): Envelope {
    var operation := NormalOperation(plan.operation);
    var id0, session0, key0 := TrimSpace(plan.idempotencyKey), TrimSpace(plan.sessionKey), TrimSpace(plan.retryKey);
    var sms := operation == SMS_SUBMIT && payload.smsSubmit.Some?;
    var ussd := operation == USSD_SESSION && payload.ussd.Some?;
    var id := if sms && id0 == "" then SmsKey(payload.smsSubmit.value) else id0;
    var session := if ussd && session0 == "" then UssdKey(payload.ussd.value) else session0;
    var key := if key0 != "" then key0 else if sms then id else if ussd then session else "";
    var pending := plan.retry && !plan.terminal && key != "";
    var due := if !pending then 0
               else if plan.nextAttemptAt == 0 && now != 0 then now + plan.delay
               else plan.nextAttemptAt;
    Envelope(key, operation, if pending then Pending else Terminal, plan.attempt, plan.nextAttempt, id, session, due, now, plan, payload)
  }

  datatype Options = Options(attempt: int, policy: Policy, now: int, idempotencyKey: string, sessionKey: string)

  function SmsEnvelope(r: SmsRequest, a: Answer, o: Options): Envelope {
    var id := if TrimSpace(o.idempotencyKey) != "" then TrimSpace(o.idempotencyKey) else SmsKey(r);
    NewEnvelope(MakePlan(SMS_SUBMIT, a, o.attempt, o.policy, o.now, id, o.sessionKey), Payload(Some(r), None), o.now)
  }

  function UssdEnvelope(r: UssdRequest, a: Answer, o: Options): Envelope {
    var session := if TrimSpace(o.sessionKey) != "" then TrimSpace(o.sessionKey) else UssdKey(r);
    NewEnvelope(MakePlan(USSD_SESSION, a, o.attempt, o.policy, o.now, o.idempotencyKey, session), Payload(None, Some(r)), o.now)
  }

  function ReplayAttempt(e: Envelope): int {
    if e.nextAttempt > 0 then e.nextAttempt
    else if e.plan.nextAttempt > 0 then e.plan.nextAttempt
    else if e.attempt > 0 then e.attempt + 1
    else if e.plan.attempt > 0 then e.plan.attempt + 1
    else 1
  }

  /** The envelope recorded after replaying one. */
  function Replayed(e: Envelope, now: int, a: Answer): Envelope
    requires e.HasReplayPayload()
  {
    if e.operation == SMS_SUBMIT then
      SmsEnvelope(e.payload.smsSubmit.value, a, Options(ReplayAttempt(e), UNSET_POLICY, now, FirstNonEmpty(e.idempotencyKey, e.key), ""))
    else
      UssdEnvelope(e.payload.ussd.value, a, Options(ReplayAttempt(e), UNSET_POLICY, now, "", FirstNonEmpty(e.sessionKey, e.key)))
  }

  datatype Request = Sms(sms: SmsRequest) | Ussd(ussd: UssdRequest)

  /** The envelope recorded after a first send. */
  function First(r: Request, now: int, a: Answer): Envelope {
    match r
    case Sms(q) => SmsEnvelope(q, a, Options(1, UNSET_POLICY, now, "", ""))
    case Ussd(q) => UssdEnvelope(q, a, Options(1, UNSET_POLICY, now, "", ""))
  }

  function Key(r: Request): string {
    match r
    case Sms(q) => SmsKey(q)
    case Ussd(q) => UssdKey(q)
  }

  function OperationOf(r: Request): string {
    if r.Sms? then SMS_SUBMIT else USSD_SESSION
  }

  function SlotOf(r: Request): Slot {
    Slot(OperationOf(r), Key(r))
  }

  function PayloadOf(r: Request): Payload {
    match r
    case Sms(q) => Payload(Some(q), None)
    case Ussd(q) => Payload(None, Some(q))
  }

  /** What an envelope made at a time, for a request, after the n-th send and its answer, looks like. */
  ghost predicate Records(e: Envelope, r: Request, n: int, now: int, a: Answer) {
    && e.operation == OperationOf(r) && e.key == Key(r) && e.payload == PayloadOf(r)
    && (if r.Sms? then e.idempotencyKey else e.sessionKey) == Key(r)
    && e.attempt == n && e.createdAt == now
    && (e.IsPending() <==> Retryable(a) && n < 4)
    && (e.IsTerminal() <==> !e.IsPending()) && e.state == (if e.IsPending() then Pending else Terminal)
    && (e.IsPending() ==>
          && e.nextAttempt == n + 1
          && e.plan.delay == RetryDelay(a, n, DEFAULT_POLICY)
          && e.dueAt == if now == 0 then 0 else now + e.plan.delay)
  }

  lemma SmsRecords(r: SmsRequest, n: int, now: int, a: Answer, key: string)
    requires n >= 1 && (key == "" || key == SmsKey(r))
    ensures Records(SmsEnvelope(r, a, Options(n, UNSET_POLICY, now, key, "")), Sms(r), n, now, a)
  {
    hide SmsKey, Retryable, RetryDelay;
    SmsKeyTrimmed(r);
  }

  lemma UssdRecords(r: UssdRequest, n: int, now: int, a: Answer, key: string)
    requires n >= 1 && (key == "" || key == UssdKey(r))
    ensures Records(UssdEnvelope(r, a, Options(n, UNSET_POLICY, now, "", key)), Ussd(r), n, now, a)
  {
    hide UssdKey, Retryable, RetryDelay;
    UssdKeyTrimmed(r);
  }

  /** A pending envelope that a first send or a replay left in the store. */
  predicate Owned(e: Envelope) {
    && e.HasReplayPayload() && e.IsPending()
    && var r := RequestOf(e);
       && e.operation == OperationOf(r) && e.key == Key(r) && e.payload == PayloadOf(r)
       && (if r.Sms? then e.idempotencyKey else e.sessionKey) == Key(r)
       && 1 <= e.attempt < 4 && e.nextAttempt == e.attempt + 1
  }

  function RequestOf(e: Envelope): Request
    requires e.HasReplayPayload()
  {
    if e.operation == SMS_SUBMIT then Sms(e.payload.smsSubmit.value) else Ussd(e.payload.ussd.value)
  }

  lemma RequestKeyTrimmed(r: Request)
    ensures Trimmed(Key(r)) && TrimSpace(Key(r)) == Key(r) != ""
  {
    match r
    case Sms(q) => SmsKeyTrimmed(q);
    case Ussd(q) => UssdKeyTrimmed(q);
  }

  lemma RecordsAreOwned(e: Envelope, r: Request, n: int, now: int, a: Answer)
    requires Records(e, r, n, now, a) && n >= 1
    ensures e.Place() == SlotOf(r) && TrimSpace(e.key) == e.key != ""
    ensures e.IsPending() ==> Owned(e) && RequestOf(e) == r && e.Storable()
  {
    hide SmsKey, UssdKey, Retryable, RetryDelay;
    RequestKeyTrimmed(r);
  }

  lemma FirstRecords(r: Request, now: int, a: Answer)
    ensures Records(First(r, now, a), r, 1, now, a)
  {
    hide Records;
    match r
    case Sms(q) => SmsRecords(q, 1, now, a, "");
    case Ussd(q) => UssdRecords(q, 1, now, a, "");
  }

  /** A replay of a stored envelope is the same request's next send, under the same key. */
  lemma ReplayRecords(e: Envelope, now: int, a: Answer)
    requires Owned(e)
    ensures Records(Replayed(e, now, a), RequestOf(e), e.attempt + 1, now, a)
  {
    hide Records, SmsKey, UssdKey, SmsEnvelope, UssdEnvelope;
    assert FirstNonEmpty(e.key, e.key) == e.key by {
      RequestKeyTrimmed(RequestOf(e));
    }
    match RequestOf(e)
    case Sms(q) => SmsRecords(q, e.attempt + 1, now, a, e.key);
    case Ussd(q) => UssdRecords(q, e.attempt + 1, now, a, e.key);
  }

  /** The key a replay hands on. */
  function CarriedKey(e: Envelope): string {
    TrimSpace(if e.operation == SMS_SUBMIT then e.idempotencyKey else e.sessionKey)
  }

  /** For envelopes made elsewhere: a replay keeps the key exactly when the one it hands on is blank or the same. */
  lemma ReplayKeepsKeyIff(e: Envelope, now: int, a: Answer)
    requires e.IsDue(now)
    ensures Replayed(e, now, a).key == TrimSpace(e.key) <==> CarriedKey(e) == "" || CarriedKey(e) == TrimSpace(e.key)
  {
    hide SmsKey, UssdKey, Retryable, RetryDelay, TrimSpace;
  }

  // ---------- Recording in the store ----------

  function Recorded(m: Retries, e: Envelope): Retries {
    if TrimSpace(e.key) == "" then m
    else if e.IsPending() then MapUpsert(m, e)
    else MapDelete(m, e.operation, e.key)
  }

  /** Recording fills or clears the request's own slot and no other. */
  lemma RecordingTouchesOwnSlot(m: Retries, e: Envelope, r: Request, n: int, now: int, a: Answer, slot: Slot)
    requires Records(e, r, n, now, a) && n >= 1
    ensures Lookup(Recorded(m, e), slot) ==
            if slot != SlotOf(r) then Lookup(m, slot) else if Retryable(a) && n < 4 then Some(e) else None
  {
    hide SmsKey, UssdKey, Retryable, RetryDelay;
    RecordsAreOwned(e, r, n, now, a);
  }

  class Service {
    const hasStore: bool
    var store: Retries

    constructor (hasStore: bool)
      ensures this.hasStore == hasStore && store == map[]
    {
      this.hasStore, store := hasStore, map[];
    }

    /** The store's own error is ignored: a refused write leaves it as it was. */
    method RecordRetry(e: Envelope, accepted: bool) returns (upserted: bool, deleted: bool)
      modifies this
      ensures store == if hasStore && accepted then Recorded(old(store), e) else old(store)
      ensures upserted == (hasStore && e.IsPending())
      ensures deleted == (hasStore && TrimSpace(e.key) != "" && !e.IsPending())
    {
      if !hasStore || TrimSpace(e.key) == "" {
        return false, false;
      }
      if e.IsPending() {
        if accepted {
          store := MapUpsert(store, e);
        }
        return true, false;
      }
      if accepted {
        store := MapDelete(store, e.operation, e.key);
      }
      return false, true;
    }

    /** Replaying sends once, if the envelope is due and there is a transport, and records the outcome. */
    method Replay(e: Envelope, now: int, transport: Option<Answer>, accepted: bool)
      returns (replayed: bool, next: Option<Envelope>, upserted: bool, deleted: bool)
      modifies this
      ensures replayed == (e.IsDue(now) && transport.Some?)
      ensures next == if replayed then Some(Replayed(e, now, transport.value)) else None
      ensures store == if replayed && hasStore && accepted then Recorded(old(store), next.value) else old(store)
      ensures upserted ==> replayed && next.value.IsPending()
    {
      replayed, next, upserted, deleted := false, None, false, false;
      if !e.IsDue(now) || transport.None? {
        return;
      }
      replayed, next := true, Some(Replayed(e, now, transport.value));
      upserted, deleted := RecordRetry(next.value, accepted);
    }
  }

  // ---------- One chain ----------

  /** A first send and replays of the envelope each send leaves, as long as there is one that is due. */
  predicate IsChain(r: Request, chain: seq<Envelope>, times: seq<int>, answers: seq<Answer>) {
    && 0 < |chain| == |times| == |answers|
    && (forall t <- times :: t > 0)
    && chain[0] == First(r, times[0], answers[0])
    && forall i :: 0 < i < |chain| ==> chain[i - 1].IsDue(times[i]) && chain[i] == Replayed(chain[i - 1], times[i], answers[i])
  }

  lemma {:induction false} ChainRecords(r: Request, chain: seq<Envelope>, times: seq<int>, answers: seq<Answer>, i: nat)
    requires IsChain(r, chain, times, answers) && i < |chain|
    ensures Records(chain[i], r, i + 1, times[i], answers[i])
  {
    hide Records, First, Replayed;
    if i == 0 {
      FirstRecords(r, times[0], answers[0]);
    } else {
      ChainRecords(r, chain, times, answers, i - 1);
      RecordsAreOwned(chain[i - 1], r, i, times[i - 1], answers[i - 1]);
      assert chain[i - 1].IsDue(times[i]);
      AttemptOf(chain[i - 1], r, i, times[i - 1], answers[i - 1]);
      ReplayRecords(chain[i - 1], times[i], answers[i]);
    }
  }

  lemma AttemptOf(e: Envelope, r: Request, n: int, now: int, a: Answer)
    requires Records(e, r, n, now, a)
    ensures e.attempt == n
    ensures e.IsPending() ==> Retryable(a) && n < 4
    ensures now > 0 ==> (forall later :: e.IsDue(later) ==> later >= now + RetryDelay(a, n, DEFAULT_POLICY))
  {
    hide SmsKey, UssdKey, Retryable, RetryDelay;
  }

  lemma ChainLink(r: Request, chain: seq<Envelope>, times: seq<int>, answers: seq<Answer>, i: nat)
    requires IsChain(r, chain, times, answers) && i < |chain|
    ensures chain[i].attempt == i + 1 && chain[i].Place() == SlotOf(r)
    ensures i + 1 < |chain| ==> i + 1 < 4 && Retryable(answers[i]) && times[i + 1] >= times[i] + RetryDelay(answers[i], i + 1, DEFAULT_POLICY)
  {
    hide Records, First, Replayed, RetryDelay, Retryable, Envelope.IsDue, Envelope.IsPending, SlotOf;
    ChainRecords(r, chain, times, answers, i);
    RecordsAreOwned(chain[i], r, i + 1, times[i], answers[i]);
    AttemptOf(chain[i], r, i + 1, times[i], answers[i]);
    if i + 1 < |chain| {
      assert chain[i + 1 - 1].IsDue(times[i + 1]);
      DueIsPending(chain[i], times[i + 1]);
      assert times[i] in times;
    }
  }

  /**
   Whatever the transport answers, a chain has at most four sends, numbered from one, all under one key;
   every answer but the last was retryable; and each send waits for the delay planned after the one before.
   */
  lemma ChainIsBounded(r: Request, chain: seq<Envelope>, times: seq<int>, answers: seq<Answer>)
    requires IsChain(r, chain, times, answers)
    ensures |chain| <= 4
    ensures forall i :: 0 <= i < |chain| ==> chain[i].attempt == i + 1 && chain[i].Place() == SlotOf(r)
    ensures forall i :: 0 <= i < |chain| - 1 ==> Retryable(answers[i]) && times[i + 1] >= times[i] + RetryDelay(answers[i], i + 1, DEFAULT_POLICY)
  {
    hide RetryDelay, Retryable, SlotOf, First, Replayed, Envelope.IsDue;
    forall i | 0 <= i < |chain|
      ensures chain[i].attempt == i + 1 && chain[i].Place() == SlotOf(r)
    {
      ChainLink(r, chain, times, answers, i);
    }
    forall i | 0 <= i < |chain| - 1
      ensures Retryable(answers[i]) && times[i + 1] >= times[i] + RetryDelay(answers[i], i + 1, DEFAULT_POLICY)
    {
      ChainLink(r, chain, times, answers, i);
    }
    if |chain| > 4 {
      ChainLink(r, chain, times, answers, 3);
    }
  }

  /** The store after every envelope of a chain was recorded. */
  function StoreAfter(m: Retries, chain: seq<Envelope>): Retries {
    if chain == [] then m else Recorded(StoreAfter(m, chain[..|chain| - 1]), chain[|chain| - 1])
  }

  lemma {:induction false} StoreAlongChain(m: Retries, r: Request, chain: seq<Envelope>, times: seq<int>, answers: seq<Answer>, i: nat, slot: Slot)
    requires IsChain(r, chain, times, answers) && i < |chain|
    ensures Lookup(StoreAfter(m, chain[..i + 1]), slot) ==
            if slot != SlotOf(r) then Lookup(m, slot) else if Retryable(answers[i]) && i < 3 then Some(chain[i]) else None
  {
    hide Records, First, Replayed, Retryable, SlotOf, Recorded, Lookup, Envelope.IsDue;
    assert chain[..i + 1][..i] == chain[..i];
    if i > 0 {
      StoreAlongChain(m, r, chain, times, answers, i - 1, slot);
    }
    ChainRecords(r, chain, times, answers, i);
    RecordingTouchesOwnSlot(StoreAfter(m, chain[..i]), chain[i], r, i + 1, times[i], answers[i], slot);
  }

  /**
   A chain works on one record: it is stored while a retry is planned, the final step removes that very
   record, and no other slot of the store is touched.
   */
  lemma ChainCleansUp(m: Retries, r: Request, chain: seq<Envelope>, times: seq<int>, answers: seq<Answer>, slot: Slot)
    requires IsChain(r, chain, times, answers)
    ensures Lookup(StoreAfter(m, chain), slot) ==
            if slot != SlotOf(r) then Lookup(m, slot)
            else if Retryable(answers[|chain| - 1]) && |chain| < 4 then Some(chain[|chain| - 1])
            else None
  {
    hide First, Replayed, Retryable, SlotOf, Lookup, Envelope.IsDue, StoreAfter;
    var i := |chain| - 1;
    StoreAlongChain(m, r, chain, times, answers, i, slot);
    assert chain[..i + 1] == chain;
  }

  lemma DueIsPending(e: Envelope, now: int)
    requires e.IsDue(now)
    ensures e.IsPending()
  {
  }

  // ---------- Parts of distinct messages ----------

  /** Identifiers like the ones the service makes: tokens with no dash at either end. */
  predicate PlainId(id: string) {
    IsToken(id) && id[0] != '-' && id[|id| - 1] != '-'
  }

  predicate PlainPart(r: SmsRequest) {
    PlainId(r.messageId) && r.partNo >= 1
  }

  lemma PlainKey(r: SmsRequest)
    requires PlainPart(r)
    ensures SmsKey(r) == "sms-submit:" + r.messageId + ":part-" + Decimal(r.partNo)
  {
    hide Decimal, TrimDashes, Dashed;
    var id := r.messageId;
    assert id[0] in id && id[|id| - 1] in id;
    assert TrimSpace(id) == id;
    TokensStay(id);
  }

  lemma {:induction false} SplitAtColon(a: string, x: string, b: string, y: string)
    requires ':' !in a && ':' !in b && a + [':'] + x == b + [':'] + y
    ensures a == b && x == y
  {
    IndexAfter(a, ':', x);
    IndexAfter(b, ':', y);
    assert a == (a + [':'] + x)[..|a|] && x == (a + [':'] + x)[|a| + 1..];
    assert b == (b + [':'] + y)[..|b|] && y == (b + [':'] + y)[|b| + 1..];
  }

  lemma AfterPrefix(p: string, a: string, m: string, x: string)
    ensures (p + a + ([':'] + m) + x)[|p|..] == a + [':'] + (m + x)
  {
  }

  lemma AfterPart(p: string, x: string, y: string)
    requires p + x == p + y
    ensures x == y
  {
    assert (p + x)[|p|..] == x && (p + y)[|p|..] == y;
  }

  /** Different parts, and parts of different messages, have different keys. */
  lemma PartKeysDiffer(q: SmsRequest, r: SmsRequest)
    requires PlainPart(q) && PlainPart(r) && SmsKey(q) == SmsKey(r)
    ensures q.messageId == r.messageId && q.partNo == r.partNo
  {
    hide SmsKey, Decimal;
    PlainKey(q);
    PlainKey(r);
    AfterPrefix("sms-submit:", q.messageId, "part-", Decimal(q.partNo));
    AfterPrefix("sms-submit:", r.messageId, "part-", Decimal(r.partNo));
    assert ":part-" == [':'] + "part-";
    SplitAtColon(q.messageId, "part-" + Decimal(q.partNo), r.messageId, "part-" + Decimal(r.partNo));
    AfterPart("part-", Decimal(q.partNo), Decimal(r.partNo));
    DecimalInjective(q.partNo, r.partNo);
  }

  // ---------- Four sends ----------

  const UNREACHABLE := Answer(Decision(0, false, false, false, "", "", None), Some(true))

  /** Four sends do happen: a peer that stays unreachable is tried that often. */
  lemma FourSendsAreReached(r: Request) returns (chain: seq<Envelope>, times: seq<int>, answers: seq<Answer>)
    ensures IsChain(r, chain, times, answers) && |chain| == 4
  {
    hide First, Replayed, Records, Owned, SmsKey, UssdKey, Envelope.IsDue;
    var gap := DEFAULT_POLICY.maxDelay;
    var e := First(r, 1, UNREACHABLE);
    FirstRecords(r, 1, UNREACHABLE);
    var e2 := NextSend(e, r, 1, 1, 1 + gap);
    var e3 := NextSend(e2, r, 2, 1 + gap, 1 + 2 * gap);
    var e4 := NextSend(e3, r, 3, 1 + 2 * gap, 1 + 3 * gap);
    chain, times := [e, e2, e3, e4], [1, 1 + gap, 1 + 2 * gap, 1 + 3 * gap];
    answers := [UNREACHABLE, UNREACHABLE, UNREACHABLE, UNREACHABLE];
  }

  lemma NextSend(e: Envelope, r: Request, n: int, now: int, later: int) returns (next: Envelope)
    requires Records(e, r, n, now, UNREACHABLE) && 1 <= n < 4 && 0 < now && now + DEFAULT_POLICY.maxDelay <= later
    ensures e.IsDue(later) && next == Replayed(e, later, UNREACHABLE) && Records(next, r, n + 1, later, UNREACHABLE)
  {
    hide SmsKey, UssdKey, Replayed;
    RecordsAreOwned(e, r, n, now, UNREACHABLE);
    Backoff.Monotone(DEFAULT_POLICY.baseDelay, DEFAULT_POLICY.maxDelay, n, n);
    next := Replayed(e, later, UNREACHABLE);
    ReplayRecords(e, later, UNREACHABLE);
  }
}
