/** The API worker's side of the quota gate: `checkDailyWriteQuota` before every write,
    `getQuotaStatus` for the status endpoint, and `resetDailyQuota` for the scheduled trigger.
    The day key and resume instant of "now" are parameters (see module JstTime). */
module QuotaClient {
  import opened Wrappers
  import opened QuotaGate

  /** `Partial<QuotaDoState>`: the gate's JSON reply as the worker reads it. JSON `null` and a
      missing field read alike here, since the worker only tests them with `!` and `??`. */
  datatype QuotaPayload = QuotaPayload(
    dayKey: Option<string>, state: Option<QuotaState>, count: Option<int>,
    limit: Option<int>, resumeAt: Option<string>)

  /** The gate call as the handler sees it: a decoded reply, or an exception (gate unreachable,
      storage failure, undecodable body). */
  datatype GateCall = Answered(payload: QuotaPayload) | Threw

  /** What the worker does with the request: go on with the write, or answer with an error body. */
  datatype Verdict = Proceed | Respond(status: int, code: string, resumeAt: Option<string>)

  /** The value the worker reports from `getQuotaStatus`. */
  datatype QuotaStatus = QuotaStatus(dayKey: string, state: QuotaState, count: int, limit: int, resumeAt: string)

  const DEFAULT_DAILY_WRITE_LIMIT := 300
  const SERVICE_PAUSED_DAILY_QUOTA := "SERVICE_PAUSED_DAILY_QUOTA"
  const INTERNAL_SERVER_ERROR := "INTERNAL_SERVER_ERROR"

  /** `Number(env.DAILY_WRITE_LIMIT ?? 300)`, for settings that are integers. */
  function ConfiguredLimit(setting: Option<int>): (limit: int)
    ensures setting.None? ==> limit == DEFAULT_DAILY_WRITE_LIMIT
    ensures setting.Some? ==> limit == setting.value
  {
    setting.GetOr(DEFAULT_DAILY_WRITE_LIMIT)
  }

  /** The JSON body of a gate reply, decoded: every field of a record; the sentinel's
      `{dayKey: null, count: 0, limit: 0, state: open, resumeAt: null}`; no field at all in an
      error body `{code}`. */
  function ReplyPayload(reply: Reply): (p: QuotaPayload)
    ensures reply.Record? ==> p == QuotaPayload(Some(reply.record.dayKey), Some(reply.record.state),
      Some(reply.record.count), Some(reply.record.limit), Some(reply.record.resumeAt))
    ensures reply.Sentinel? ==> p == QuotaPayload(None, Some(Open), Some(0), Some(0), None)
    ensures reply.Error? ==> p == QuotaPayload(None, None, None, None, None)
  {
    match reply
    case Record(r) => QuotaPayload(Some(r.dayKey), Some(r.state), Some(r.count), Some(r.limit), Some(r.resumeAt))
    case Sentinel => QuotaPayload(None, Some(Open), Some(0), Some(0), None)
    case Error(_, _) => QuotaPayload(None, None, None, None, None)
  }

  /** The consume call the worker sends. */
  function ConsumeCall(limit: int, dayKey: string, resumeAt: string): Request {
    Request("POST", "/consume", Payload(Some(dayKey), Some(limit), Some(resumeAt)))
  }

  /** The force-reset call the scheduled trigger sends. */
  function ResetCall(limit: int, dayKey: string, resumeAt: string): Request {
    Request("POST", "/force-reset", Payload(Some(dayKey), Some(limit), Some(resumeAt)))
  }

  /** `checkDailyWriteQuota`'s decision: block with 503 exactly on a paused reply, carrying the
      reply's resume instant or the locally computed one; let every other reply through,
      including a 400 body; an exception reaches the error handler, which answers 500. */
  function CheckDailyWriteQuota(call: GateCall, localResumeAt: string): (v: Verdict)
    ensures v.Respond? && v.status == 503 <==> call.Answered? && call.payload.state == Some(Paused)
    ensures v.Respond? && v.status == 503 ==>
      v.code == SERVICE_PAUSED_DAILY_QUOTA && v.resumeAt == Some(call.payload.resumeAt.GetOr(localResumeAt))
    ensures v == Proceed <==> call.Answered? && call.payload.state != Some(Paused)
    ensures call.Threw? ==> v == Respond(500, INTERNAL_SERVER_ERROR, None)
  {
    match call
    case Threw => Respond(500, INTERNAL_SERVER_ERROR, None)
    case Answered(payload) =>
      if payload.state == Some(Paused) then
        Respond(503, SERVICE_PAUSED_DAILY_QUOTA, Some(payload.resumeAt.GetOr(localResumeAt)))
      else Proceed
  }

  /** `!payload.dayKey || !payload.resumeAt || !payload.limit`: missing, empty or zero. */
  predicate NeedsFallback(payload: QuotaPayload) {
    || payload.dayKey.None? || payload.dayKey == Some("")
    || payload.resumeAt.None? || payload.resumeAt == Some("")
    || payload.limit.None? || payload.limit == Some(0)
  }

  /** `getQuotaStatus`'s mapping: a reply without a day key or resume instant, or with a falsy
      limit, is replaced by today's open window with count 0 and the configured limit;
      otherwise the reply's fields are kept, with open and 0 for a missing state and count. */
  function GetQuotaStatus(payload: QuotaPayload, today: string, setting: Option<int>, nextMidnight: string)
    : (s: QuotaStatus)
    ensures NeedsFallback(payload) ==>
      s == QuotaStatus(today, Open, 0, ConfiguredLimit(setting), nextMidnight)
    ensures !NeedsFallback(payload) ==>
      && s.dayKey == payload.dayKey.value && s.resumeAt == payload.resumeAt.value
      && s.limit == payload.limit.value
      && s.state == payload.state.GetOr(Open) && s.count == payload.count.GetOr(0)
  {
    if NeedsFallback(payload) then
      QuotaStatus(today, Open, 0, ConfiguredLimit(setting), nextMidnight)
    else
      QuotaStatus(payload.dayKey.value, payload.state.GetOr(Open), payload.count.GetOr(0),
                  payload.limit.GetOr(ConfiguredLimit(setting)), payload.resumeAt.value)
  }

  /** `checkDailyWriteQuota` end to end: one consume against the gate, then the decision. */
  method CheckWrite(gate: QuotaGateObject, setting: Option<int>, today: string, resumeAt: string)
    returns (v: Verdict)
    requires gate.Valid()
    modifies gate
    ensures gate.Valid()
    ensures var (stored, reply) := Handle(old(gate.storage), ConsumeCall(ConfiguredLimit(setting), today, resumeAt));
      gate.storage == stored && v == CheckDailyWriteQuota(Answered(ReplyPayload(reply)), resumeAt)
  {
    var reply := gate.Fetch(ConsumeCall(ConfiguredLimit(setting), today, resumeAt));
    v := CheckDailyWriteQuota(Answered(ReplyPayload(reply)), resumeAt);
  }

  /** `getQuotaStatus` end to end: a status read against the gate, then the mapping. */
  method QuotaStatusOf(gate: QuotaGateObject, setting: Option<int>, today: string, nextMidnight: string)
    returns (s: QuotaStatus)
    requires gate.Valid()
    modifies gate
    ensures gate.Valid() && gate.storage == old(gate.storage)
    ensures s == GetQuotaStatus(ReplyPayload(StatusReply(gate.storage)), today, setting, nextMidnight)
  {
    var reply := gate.Fetch(Request("GET", "/status", Payload(None, None, None)));
    s := GetQuotaStatus(ReplyPayload(reply), today, setting, nextMidnight);
  }

  /** `resetDailyQuota`: the scheduled force-reset; its reply is discarded. */
  method ResetDailyQuota(gate: QuotaGateObject, setting: Option<int>, today: string, resumeAt: string)
    requires gate.Valid()
    modifies gate
    ensures gate.Valid()
    ensures gate.storage == Handle(old(gate.storage), ResetCall(ConfiguredLimit(setting), today, resumeAt)).0
  {
    var _ := gate.Fetch(ResetCall(ConfiguredLimit(setting), today, resumeAt));
  }

  // ---------------------------------------------------------------------------------------
  // Gate and worker together

  /** A write is refused exactly when the consume left the gate paused: the worker's 503 and the
      gate's stored state agree. */
  lemma {:induction false} BlockedIffGatePaused(stored: Option<QuotaRecord>, limit: int, today: string, resumeAt: string)
    requires limit >= 1 && today != "" && resumeAt != ""
    ensures var (next, reply) := Handle(stored, ConsumeCall(limit, today, resumeAt));
      var v := CheckDailyWriteQuota(Answered(ReplyPayload(reply)), resumeAt);
      && next.Some?
      && (v.Respond? <==> next.value.state == Paused)
      && (v.Respond? ==> v == Respond(503, SERVICE_PAUSED_DAILY_QUOTA, Some(next.value.resumeAt)))
  {
    var input := ConsumeInput(today, limit, resumeAt);
    assert Validate(ConsumeCall(limit, today, resumeAt).body) == Some(input);
    var (next, reply) := Handle(stored, ConsumeCall(limit, today, resumeAt));
    assert next == Some(Consumed(stored, input)) && reply == Record(next.value);
  }

  /** A configured limit of zero or less makes the gate answer 400, and a 400 lets the write
      through: such a configuration disables the quota instead of blocking writes. */
  lemma {:induction false} NonPositiveLimitLetsWritesThrough(stored: Option<QuotaRecord>, limit: int, today: string, resumeAt: string)
    requires limit <= 0
    ensures var (next, reply) := Handle(stored, ConsumeCall(limit, today, resumeAt));
      && next == stored && reply == Error(400, INVALID_CONSUME_PAYLOAD)
      && CheckDailyWriteQuota(Answered(ReplyPayload(reply)), resumeAt) == Proceed
  {
    assert Validate(ConsumeCall(limit, today, resumeAt).body).None?;
  }

  /** A gate that never stored anything reports today's open window with the configured limit;
      a gate holding a well-formed record reports exactly that record. */
  lemma StatusReportsStoredRecord(stored: Option<QuotaRecord>, today: string, setting: Option<int>, nextMidnight: string)
    requires StoredWellFormed(stored)
    ensures var s := GetQuotaStatus(ReplyPayload(StatusReply(stored)), today, setting, nextMidnight);
      match stored
      case None => s == QuotaStatus(today, Open, 0, ConfiguredLimit(setting), nextMidnight)
      case Some(r) => s == QuotaStatus(r.dayKey, r.state, r.count, r.limit, r.resumeAt)
  {
  }
}
