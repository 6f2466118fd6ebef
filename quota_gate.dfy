/** The daily write-quota gate: a single serialised actor that owns one persisted quota record
    and answers `POST /consume`, `POST /force-reset` and `GET /status`.

    The hosting runtime runs one call at a time, so the actor is a sequential class whose
    `storage` field stands for the durable key `quota-state`. Storage hands back copies, so the
    record is a value: the in-place updates of the source become record updates of a local. */
module QuotaGate {
  import opened Wrappers

  datatype QuotaState = Open | Paused

  /** The persisted record. */
  datatype QuotaRecord = QuotaRecord(dayKey: string, count: int, limit: int, state: QuotaState, resumeAt: string)

  /** A JSON body `Partial<ConsumeInput>`: an absent field is `None`. Fields of another JSON
      type are not represented: the source's truthiness guard would accept, say, a string
      limit, which this model cannot express. */
  datatype Payload = Payload(dayKey: Option<string>, limit: Option<int>, resumeAt: Option<string>)

  /** A body that passed validation. */
  datatype ConsumeInput = ConsumeInput(dayKey: string, limit: int, resumeAt: string)

  /** What reaches the actor: HTTP method, URL path and JSON body (ignored by `/status`). */
  datatype Request = Request(httpMethod: string, path: string, body: Payload)

  /** What the actor answers: a stored record (200), the never-initialised sentinel of `/status`
      (200, `{dayKey: null, count: 0, limit: 0, state: open, resumeAt: null}`), or an error body. */
  datatype Reply = Record(record: QuotaRecord) | Sentinel | Error(status: int, code: string)

  datatype Route = ConsumeRoute | ResetRoute | StatusRoute | NoRoute

  const INVALID_CONSUME_PAYLOAD := "INVALID_CONSUME_PAYLOAD"
  const INVALID_RESET_PAYLOAD := "INVALID_RESET_PAYLOAD"
  const NOT_FOUND := "NOT_FOUND"

  /** The dispatch of `fetch` on method and path. */
  function RouteOf(httpMethod: string, path: string): (r: Route)
    ensures r == ConsumeRoute <==> httpMethod == "POST" && path == "/consume"
    ensures r == ResetRoute <==> httpMethod == "POST" && path == "/force-reset"
    ensures r == StatusRoute <==> httpMethod == "GET" && path == "/status"
  {
    if httpMethod == "POST" && path == "/consume" then ConsumeRoute
    else if httpMethod == "POST" && path == "/force-reset" then ResetRoute
    else if httpMethod == "GET" && path == "/status" then StatusRoute
    else NoRoute
  }

  /** The guard `!body.dayKey || !body.resumeAt || !body.limit || body.limit <= 0`: an empty
      string and a zero limit are falsy, so both are rejected with the missing fields. */
  function Validate(body: Payload): (r: Option<ConsumeInput>)
    ensures r.Some? <==> (&& body.dayKey.Some? && body.dayKey.value != ""
                          && body.resumeAt.Some? && body.resumeAt.value != ""
                          && body.limit.Some? && body.limit.value > 0)
    ensures r.Some? ==> r.value == ConsumeInput(body.dayKey.value, body.limit.value, body.resumeAt.value)
  {
    match (body.dayKey, body.limit, body.resumeAt)
    case (Some(d), Some(l), Some(t)) =>
      if d == "" || t == "" || l <= 0 then None else Some(ConsumeInput(d, l, t))
    case _ => None
  }

  /** A stored record belongs to the window of `dayKey`. */
  predicate SameWindow(stored: Option<QuotaRecord>, dayKey: string) {
    stored.Some? && stored.value.dayKey == dayKey
  }

  /** `ensureWindow`: a missing record or one of another day gives a fresh open window; a
      record of the same day keeps its count and state and adopts the incoming limit and
      resume instant, even a limit lower than the count already reached. */
  function EnsureWindow(stored: Option<QuotaRecord>, input: ConsumeInput): (r: QuotaRecord)
    ensures r.dayKey == input.dayKey && r.limit == input.limit && r.resumeAt == input.resumeAt
    ensures SameWindow(stored, input.dayKey) ==> r.count == stored.value.count && r.state == stored.value.state
    ensures !SameWindow(stored, input.dayKey) ==> r.count == 0 && r.state == Open
  {
    if stored.None? || stored.value.dayKey != input.dayKey then
      QuotaRecord(input.dayKey, 0, input.limit, Open, input.resumeAt)
    else
      stored.value.(limit := input.limit, resumeAt := input.resumeAt)
  }

  /** The admission rule applied to the windowed record: paused stays paused, a consume that
      would pass the limit pauses without counting, any other consume counts one. */
  function Admit(record: QuotaRecord): (r: QuotaRecord)
    ensures r.dayKey == record.dayKey && r.limit == record.limit && r.resumeAt == record.resumeAt
    ensures record.state == Paused ==> r == record
    ensures record.state == Open && record.count + 1 > record.limit ==> r == record.(state := Paused)
    ensures record.state == Open && record.count + 1 <= record.limit ==> r == record.(count := record.count + 1)
  {
    if record.state == Paused then record
    else if record.count + 1 > record.limit then record.(state := Paused)
    else record.(count := record.count + 1)
  }

  /** The record a valid consume stores and returns: the request's day, limit and resume
      instant; the count carried over from a same-day record (0 otherwise), plus one exactly
      when the window is open and that one more stays within the limit, and then open. */
  function Consumed(stored: Option<QuotaRecord>, input: ConsumeInput): (r: QuotaRecord)
    ensures r.dayKey == input.dayKey && r.limit == input.limit && r.resumeAt == input.resumeAt
    ensures var carried := if SameWindow(stored, input.dayKey) then stored.value.count else 0;
      var open := !SameWindow(stored, input.dayKey) || stored.value.state == Open;
      && (open && carried + 1 <= input.limit ==> r.count == carried + 1 && r.state == Open)
      && (!(open && carried + 1 <= input.limit) ==> r.count == carried && r.state == Paused)
  {
    Admit(EnsureWindow(stored, input))
  }

  /** The record a valid force-reset stores and returns: the request's window, open at count
      0, whatever was stored; a consume right after it counts one under any positive limit. */
  function Reset(input: ConsumeInput): (r: QuotaRecord)
    ensures r.dayKey == input.dayKey && r.limit == input.limit && r.resumeAt == input.resumeAt
    ensures r.count == 0 && r.state == Open
    ensures input.limit >= 1 ==> Consumed(Some(r), input).count == 1
  {
    QuotaRecord(input.dayKey, 0, input.limit, Open, input.resumeAt)
  }

  /** The reply of `/status`: the sentinel exactly when nothing is stored, else the record. */
  function StatusReply(stored: Option<QuotaRecord>): (reply: Reply)
    ensures reply.Sentinel? <==> stored.None?
    ensures stored.Some? ==> reply == Record(stored.value)
    ensures !reply.Error?
  {
    match stored
    case None => Sentinel
    case Some(record) => Record(record)
  }

  /** One call of the actor: the new stored record and the reply. This is the specification
      that `QuotaGateObject.Fetch` meets. Storage changes only with a record reply, and then it
      holds that record; an error reply and a status read leave it as it was. */
  function Handle(stored: Option<QuotaRecord>, request: Request): (r: (Option<QuotaRecord>, Reply))
    ensures r.1.Error? ==> r.0 == stored
    ensures r.0 != stored ==> r.1.Record? && r.0 == Some(r.1.record)
    ensures RouteOf(request.httpMethod, request.path) == StatusRoute ==> r == (stored, StatusReply(stored))
    ensures RouteOf(request.httpMethod, request.path) == NoRoute ==> r == (stored, Error(404, NOT_FOUND))
    ensures RouteOf(request.httpMethod, request.path) in {ConsumeRoute, ResetRoute} ==>
      (r.1.Error? <==> Validate(request.body).None?) && (r.1.Record? ==> r.0 == Some(r.1.record))
  {
    match RouteOf(request.httpMethod, request.path)
    case ConsumeRoute =>
      (match Validate(request.body)
       case None => (stored, Error(400, INVALID_CONSUME_PAYLOAD))
       case Some(input) => var r := Consumed(stored, input); (Some(r), Record(r)))
    case ResetRoute =>
      (match Validate(request.body)
       case None => (stored, Error(400, INVALID_RESET_PAYLOAD))
       case Some(input) => var r := Reset(input); (Some(r), Record(r)))
    case StatusRoute => (stored, StatusReply(stored))
    case NoRoute => (stored, Error(404, NOT_FOUND))
  }

  /** The invariant of every record the actor stores. `count <= limit` holds only while open:
      a same-day call that lowers the limit below the count pauses with the count kept. */
  predicate WellFormed(record: QuotaRecord) {
    && record.dayKey != "" && record.resumeAt != ""
    && record.limit >= 1 && record.count >= 0
    && (record.state == Open ==> record.count <= record.limit)
  }

  predicate StoredWellFormed(stored: Option<QuotaRecord>) {
    stored.Some? ==> WellFormed(stored.value)
  }

  /** The actor `QuotaGateDO`. */
  class QuotaGateObject {
    /** The durable key `quota-state`: `None` until the first consume or force-reset. */
    var storage: Option<QuotaRecord>

    ghost predicate Valid()
      reads this
    {
      StoredWellFormed(storage)
    }

    constructor ()
      ensures Valid() && storage == None
    {
      storage := None;
    }

    /** `fetch`: one request, run to completion before the next one starts. */
    method Fetch(request: Request) returns (reply: Reply)
      requires Valid()
      modifies this
      ensures Valid()
      ensures (storage, reply) == Handle(old(storage), request)
    {
      var route := RouteOf(request.httpMethod, request.path);
      if route == ConsumeRoute {
        var input := Validate(request.body);
        if input.None? {
          return Error(400, INVALID_CONSUME_PAYLOAD);
        }
        var current := storage;
        var record := EnsureWindow(current, input.value);
        if record.state == Paused {
          storage := Some(record);
          return Record(record);
        }
        if record.count + 1 > record.limit {
          record := record.(state := Paused);
          storage := Some(record);
          return Record(record);
        }
        record := record.(count := record.count + 1);
        storage := Some(record);
        return Record(record);
      }
      if route == ResetRoute {
        var input := Validate(request.body);
        if input.None? {
          return Error(400, INVALID_RESET_PAYLOAD);
        }
        var record := QuotaRecord(input.value.dayKey, 0, input.value.limit, Open, input.value.resumeAt);
        storage := Some(record);
        return Record(record);
      }
      if route == StatusRoute {
        var record := storage;
        if record.None? {
          return Sentinel;
        }
        return Record(record.value);
      }
      return Error(404, NOT_FOUND);
    }
  }
}
