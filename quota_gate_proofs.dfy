/** Properties of the quota gate's transition function `QuotaGate.Handle`: what one call of each
    kind does, the invariant every stored record keeps, and what a run of calls adds up to. */
module QuotaGateProofs {
  import opened Wrappers
  import opened QuotaGate
  import opened Seqs

  function Min(a: int, b: int): int { if a <= b then a else b }

  /** A consume request whose body carries every field. */
  function ConsumeRequest(input: ConsumeInput): Request {
    Request("POST", "/consume", Payload(Some(input.dayKey), Some(input.limit), Some(input.resumeAt)))
  }

  /** A force-reset request whose body carries every field. */
  function ResetRequest(input: ConsumeInput): Request {
    Request("POST", "/force-reset", Payload(Some(input.dayKey), Some(input.limit), Some(input.resumeAt)))
  }

  function StatusRequest(): Request {
    Request("GET", "/status", Payload(None, None, None))
  }

  predicate ValidInput(input: ConsumeInput) {
    input.dayKey != "" && input.resumeAt != "" && input.limit >= 1
  }

  /** Calls run one after another, in arrival order: the final stored record and every reply. */
  function Run(stored: Option<QuotaRecord>, requests: seq<Request>): (r: (Option<QuotaRecord>, seq<Reply>))
    ensures |r.1| == |requests|
    decreases |requests|
  {
    if requests == [] then (stored, [])
    else
      var (next, reply) := Handle(stored, requests[0]);
      var (last, replies) := Run(next, requests[1..]);
      (last, [reply] + replies)
  }

  predicate IsOpenReply(reply: Reply) {
    reply.Record? && reply.record.state == Open
  }

  /** The number of replies that let a write through. */
  function OpenReplies(replies: seq<Reply>): (n: nat)
    ensures n <= |replies|
  {
    if replies == [] then 0 else (if IsOpenReply(replies[0]) then 1 else 0) + OpenReplies(replies[1..])
  }

  // ---------------------------------------------------------------------------------------
  // One call

  /** A consume or force-reset whose body is missing a field, has an empty string or a limit
      of zero or less answers 400 with the route's code and leaves storage as it was. */
  lemma InvalidPayloadRejected(stored: Option<QuotaRecord>, request: Request)
    requires RouteOf(request.httpMethod, request.path) in {ConsumeRoute, ResetRoute}
    requires || request.body.dayKey.None? || request.body.dayKey == Some("")
             || request.body.resumeAt.None? || request.body.resumeAt == Some("")
             || request.body.limit.None? || request.body.limit.value <= 0
    ensures Handle(stored, request).0 == stored
    ensures Handle(stored, request).1 == Error(400,
      if request.path == "/consume" then INVALID_CONSUME_PAYLOAD else INVALID_RESET_PAYLOAD)
  {
  }

  /** Without a stored record, or with one of another day, a valid consume opens a fresh window
      and counts one: the reply is count 1 and open whatever the earlier state was. */
  lemma NewWindowCountsOne(stored: Option<QuotaRecord>, input: ConsumeInput)
    requires ValidInput(input)
    requires !SameWindow(stored, input.dayKey)
    ensures Handle(stored, ConsumeRequest(input)) ==
      (Some(QuotaRecord(input.dayKey, 1, input.limit, Open, input.resumeAt)),
       Record(QuotaRecord(input.dayKey, 1, input.limit, Open, input.resumeAt)))
  {
  }

  /** A same-day consume keeps count and state from storage and takes limit and resume instant
      from the request; it counts one exactly when the record is open and below the new limit,
      and otherwise returns the record paused with the count unchanged. */
  lemma SameWindowCarriesOver(record: QuotaRecord, input: ConsumeInput)
    requires ValidInput(input) && record.dayKey == input.dayKey
    ensures var (stored, reply) := Handle(Some(record), ConsumeRequest(input));
      && stored.Some? && reply == Record(stored.value)
      && stored.value.dayKey == record.dayKey
      && stored.value.limit == input.limit && stored.value.resumeAt == input.resumeAt
      && (if record.state == Open && record.count + 1 <= input.limit
          then stored.value.count == record.count + 1 && stored.value.state == Open
          else stored.value.count == record.count && stored.value.state == Paused)
  {
  }

  /** Paused is sticky within a day: every later same-day consume, whatever limit it brings,
      answers paused with the count unchanged, and still rewrites the record. */
  lemma PausedStaysPaused(record: QuotaRecord, input: ConsumeInput)
    requires ValidInput(input) && record.dayKey == input.dayKey && record.state == Paused
    ensures Handle(Some(record), ConsumeRequest(input)) ==
      (Some(record.(limit := input.limit, resumeAt := input.resumeAt)),
       Record(record.(limit := input.limit, resumeAt := input.resumeAt)))
  {
  }

  /** An increment never takes the count past the limit in force at that call. */
  lemma IncrementWithinLimit(stored: Option<QuotaRecord>, input: ConsumeInput)
    requires ValidInput(input)
    ensures var before := if SameWindow(stored, input.dayKey) then stored.value.count else 0;
      var after := Consumed(stored, input);
      after.count == before || (after.count == before + 1 && after.count <= input.limit && after.state == Open)
  {
  }

  /** A force-reset stores and returns a fresh open window whatever was stored, and repeating it
      with the same arguments gives the identical record. */
  lemma ForceResetIdempotent(stored: Option<QuotaRecord>, input: ConsumeInput)
    requires ValidInput(input)
    ensures var (s1, r1) := Handle(stored, ResetRequest(input));
      && s1 == Some(QuotaRecord(input.dayKey, 0, input.limit, Open, input.resumeAt)) && r1 == Record(s1.value)
      && Handle(s1, ResetRequest(input)) == (s1, r1)
  {
  }

  /** Status never writes: it answers the stored record verbatim, or the sentinel. */
  lemma StatusReadsOnly(stored: Option<QuotaRecord>)
    ensures Handle(stored, StatusRequest()).0 == stored
    ensures Handle(stored, StatusRequest()).1 == if stored.None? then Sentinel else Record(stored.value)
  {
  }

  /** Any other method or path answers 404 and leaves storage as it was. */
  lemma UnknownRouteNotFound(stored: Option<QuotaRecord>, request: Request)
    requires !(request.httpMethod == "POST" && request.path in {"/consume", "/force-reset"})
    requires !(request.httpMethod == "GET" && request.path == "/status")
    ensures Handle(stored, request) == (stored, Error(404, NOT_FOUND))
  {
  }

  /** Reading the status between two calls changes nothing about the second call. */
  lemma StatusIsTransparent(stored: Option<QuotaRecord>, request: Request)
    ensures Run(stored, [StatusRequest(), request]).0 == Handle(stored, request).0
    ensures Run(stored, [StatusRequest(), request]).1[1] == Handle(stored, request).1
  {
    var both := [StatusRequest(), request];
    var one := [request];
    assert both[1..] == one && one[0] == request && one[1..] == [];
    var (s1, r1) := Handle(stored, request);
    assert Run(s1, one[1..]) == (s1, []);
    assert Run(stored, one) == (Run(s1, one[1..]).0, [r1] + Run(s1, one[1..]).1);
    assert [r1] + [] == [r1];
  }

  /** A status read right after a call returns exactly that call's record. */
  lemma StatusAfterConsume(stored: Option<QuotaRecord>, input: ConsumeInput)
    requires ValidInput(input)
    ensures var (s1, r1) := Handle(stored, ConsumeRequest(input));
      Handle(s1, StatusRequest()).1 == r1
  {
  }

  /** Every call keeps every stored record well formed: in particular an open record never
      holds more than its limit. */
  lemma HandleKeepsWellFormed(stored: Option<QuotaRecord>, request: Request)
    requires StoredWellFormed(stored)
    ensures StoredWellFormed(Handle(stored, request).0)
    ensures Handle(stored, request).1.Record? ==> WellFormed(Handle(stored, request).1.record)
  {
    match RouteOf(request.httpMethod, request.path)
    case ConsumeRoute =>
      if Validate(request.body).Some? {
        var input := Validate(request.body).value;
        var w := EnsureWindow(stored, input);
        assert w.state == Open ==> w.count >= 0;
      }
    case ResetRoute =>
    case StatusRoute =>
    case NoRoute =>
  }

  /** `count <= limit` is not an invariant of paused records: a same-day consume that brings a
      lower limit keeps the count and pauses. */
  lemma LoweredLimitKeepsCount()
    ensures var record := QuotaRecord("2024-01-01", 5, 10, Open, "2024-01-01T15:00:00.000Z");
      var input := ConsumeInput("2024-01-01", 3, "2024-01-01T15:00:00.000Z");
      WellFormed(record) && Consumed(Some(record), input) == QuotaRecord("2024-01-01", 5, 3, Paused, input.resumeAt)
  {
  }

  // ---------------------------------------------------------------------------------------
  // Runs of calls

  /** From a paused same-day record, `n` consumes with the same arguments all answer paused
      with the count unchanged. */
  lemma {:induction false} PausedRun(record: QuotaRecord, input: ConsumeInput, n: nat)
    requires ValidInput(input) && record.dayKey == input.dayKey && record.state == Paused
    ensures var (last, replies) := Run(Some(record), Repeat(ConsumeRequest(input), n));
      && last == (if n == 0 then Some(record) else Some(record.(limit := input.limit, resumeAt := input.resumeAt)))
      && forall i :: 0 <= i < n ==> replies[i] == Record(record.(limit := input.limit, resumeAt := input.resumeAt))
    decreases n
  {
    if n > 0 {
      var rest := Repeat(ConsumeRequest(input), n - 1);
      assert Repeat(ConsumeRequest(input), n)[1..] == rest;
      var next := record.(limit := input.limit, resumeAt := input.resumeAt);
      assert Handle(Some(record), ConsumeRequest(input)) == (Some(next), Record(next));
      PausedRun(next, input, n - 1);
    }
  }

  /** The record a window holds after `k` consumes with the same arguments: the count stops
      at the limit, and the consume that finds the limit reached pauses. */
  function AfterAttempts(input: ConsumeInput, k: int): QuotaRecord {
    QuotaRecord(input.dayKey, Min(k, input.limit), input.limit, if k > input.limit then Paused else Open,
                input.resumeAt)
  }

  /** From an open same-day record with count `c` at most the limit `L`, `n` consumes with the
      same arguments answer counts c+1, c+2, ... open up to `L`, and then `L` paused. */
  lemma OpenRun(c: int, input: ConsumeInput, n: nat)
    requires ValidInput(input) && 0 <= c <= input.limit
    ensures var start := QuotaRecord(input.dayKey, c, input.limit, Open, input.resumeAt);
      var (last, replies) := Run(Some(start), Repeat(ConsumeRequest(input), n));
      && (forall i :: 0 <= i < n ==> replies[i] == Record(AfterAttempts(input, c + i + 1)))
      && OpenReplies(replies) == Min(n, input.limit - c)
      && last == if n == 0 then Some(start) else Some(AfterAttempts(input, c + n))
  {
    var start := QuotaRecord(input.dayKey, c, input.limit, Open, input.resumeAt);
    OpenRunShape(c, input, n);
    OpenCount(Run(Some(start), Repeat(ConsumeRequest(input), n)).1, input, c);
  }

  /** The replies and the final record of such a run. */
  lemma {:induction false} OpenRunShape(c: int, input: ConsumeInput, n: nat)
    requires ValidInput(input) && 0 <= c <= input.limit
    ensures var start := QuotaRecord(input.dayKey, c, input.limit, Open, input.resumeAt);
      var (last, replies) := Run(Some(start), Repeat(ConsumeRequest(input), n));
      && (forall i :: 0 <= i < n ==> replies[i] == Record(AfterAttempts(input, c + i + 1)))
      && last == if n == 0 then Some(start) else Some(AfterAttempts(input, c + n))
    decreases n
  {
    if n > 0 {
      if c == input.limit {
        AtLimitRun(input, n);
      } else {
        var request := ConsumeRequest(input);
        var rest := Repeat(request, n - 1);
        assert Repeat(request, n)[1..] == rest;
        ConsumeStep(c, input);
        OpenRunShape(c + 1, input, n - 1);
        var start := QuotaRecord(input.dayKey, c, input.limit, Open, input.resumeAt);
        var replies := Run(Some(start), Repeat(request, n)).1;
        var tailReplies := Run(Some(AfterAttempts(input, c + 1)), rest).1;
        assert replies == [Record(AfterAttempts(input, c + 1))] + tailReplies;
        forall i | 1 <= i < n ensures replies[i] == Record(AfterAttempts(input, c + i + 1)) {
          assert replies[i] == tailReplies[i - 1];
        }
      }
    }
  }

  /** From an open record at the limit, the first consume pauses and every later one stays
      paused. */
  lemma AtLimitRun(input: ConsumeInput, n: nat)
    requires ValidInput(input) && n > 0
    ensures var start := QuotaRecord(input.dayKey, input.limit, input.limit, Open, input.resumeAt);
      var (last, replies) := Run(Some(start), Repeat(ConsumeRequest(input), n));
      && (forall i :: 0 <= i < n ==> replies[i] == Record(AfterAttempts(input, input.limit + i + 1)))
      && last == Some(AfterAttempts(input, input.limit + n))
  {
    var request := ConsumeRequest(input);
    var rest := Repeat(request, n - 1);
    assert Repeat(request, n)[1..] == rest;
    var first := AfterAttempts(input, input.limit + 1);
    ConsumeStep(input.limit, input);
    PausedRun(first, input, n - 1);
    var start := QuotaRecord(input.dayKey, input.limit, input.limit, Open, input.resumeAt);
    var replies := Run(Some(start), Repeat(request, n)).1;
    assert replies == [Record(first)] + Run(Some(first), rest).1;
    forall i | 0 <= i < n ensures replies[i] == Record(AfterAttempts(input, input.limit + i + 1)) {
      assert AfterAttempts(input, input.limit + i + 1) == first;
    }
  }

  /** Replies that follow `AfterAttempts` from count `c` let min(n, L - c) writes through. */
  lemma {:induction false} OpenCount(replies: seq<Reply>, input: ConsumeInput, c: int)
    requires 0 <= c <= input.limit
    requires forall i :: 0 <= i < |replies| ==> replies[i] == Record(AfterAttempts(input, c + i + 1))
    ensures OpenReplies(replies) == Min(|replies|, input.limit - c)
    decreases |replies|
  {
    if replies != [] {
      if c == input.limit {
        forall i | 0 <= i < |replies| ensures replies[i] == Record(AfterAttempts(input, c + 1)) {
          assert replies[i] == Record(AfterAttempts(input, c + i + 1));
        }
        AllPausedNoneOpen(replies, AfterAttempts(input, c + 1));
      } else {
        forall i | 0 <= i < |replies| - 1 ensures replies[1..][i] == Record(AfterAttempts(input, c + 1 + i + 1)) {
          assert replies[1..][i] == replies[i + 1];
        }
        OpenCount(replies[1..], input, c + 1);
      }
    }
  }

  /** One consume on an open same-day record with count `c` at most the limit. */
  lemma ConsumeStep(c: int, input: ConsumeInput)
    requires ValidInput(input) && 0 <= c <= input.limit
    ensures var start := QuotaRecord(input.dayKey, c, input.limit, Open, input.resumeAt);
      Handle(Some(start), ConsumeRequest(input)) ==
        (Some(AfterAttempts(input, c + 1)), Record(AfterAttempts(input, c + 1)))
  {
  }

  /** Replies that all carry one paused record let nothing through. */
  lemma {:induction false} AllPausedNoneOpen(replies: seq<Reply>, record: QuotaRecord)
    requires record.state == Paused
    requires forall i :: 0 <= i < |replies| ==> replies[i] == Record(record)
    ensures OpenReplies(replies) == 0
  {
    if replies != [] {
      AllPausedNoneOpen(replies[1..], record);
    }
  }

  /** With a fixed limit `L`, `N` same-day consumes from a fresh window answer min(N, L) times
      open, with counts 1, 2, ..., then `L` paused, and leave the count at min(N, L). */
  lemma FreshWindowRun(stored: Option<QuotaRecord>, input: ConsumeInput, n: nat)
    requires ValidInput(input) && !SameWindow(stored, input.dayKey)
    ensures var (last, replies) := Run(stored, Repeat(ConsumeRequest(input), n));
      && (forall i :: 0 <= i < n ==> replies[i] == Record(QuotaRecord(input.dayKey, Min(i + 1, input.limit),
            input.limit, if i + 1 > input.limit then Paused else Open, input.resumeAt)))
      && OpenReplies(replies) == Min(n, input.limit)
      && (n > 0 ==> last.Some? && last.value.count == Min(n, input.limit) && last.value.count <= input.limit)
  {
    var zero := QuotaRecord(input.dayKey, 0, input.limit, Open, input.resumeAt);
    SameRunAsZero(stored, zero, input, Repeat(ConsumeRequest(input), n));
    OpenRun(0, input, n);
    var replies := Run(stored, Repeat(ConsumeRequest(input), n)).1;
    forall i | 0 <= i < n
      ensures replies[i] == Record(QuotaRecord(input.dayKey, Min(i + 1, input.limit), input.limit,
                                               if i + 1 > input.limit then Paused else Open, input.resumeAt))
    {
      assert replies[i] == Record(AfterAttempts(input, 0 + i + 1));
    }
  }

  /** A fresh window and a stored open record of the same day with count 0 behave alike. */
  lemma SameRunAsZero(stored: Option<QuotaRecord>, zero: QuotaRecord, input: ConsumeInput, requests: seq<Request>)
    requires ValidInput(input) && !SameWindow(stored, input.dayKey)
    requires zero == QuotaRecord(input.dayKey, 0, input.limit, Open, input.resumeAt)
    requires requests == [] || requests[0] == ConsumeRequest(input)
    ensures requests != [] ==> Run(stored, requests) == Run(Some(zero), requests)
  {
    if requests != [] {
      FirstConsumeAlike(stored, zero, input);
    }
  }

  /** The first consume of a new window answers as on a zero record of that day. */
  lemma FirstConsumeAlike(stored: Option<QuotaRecord>, zero: QuotaRecord, input: ConsumeInput)
    requires ValidInput(input) && !SameWindow(stored, input.dayKey)
    requires zero == QuotaRecord(input.dayKey, 0, input.limit, Open, input.resumeAt)
    ensures Handle(stored, ConsumeRequest(input)) == Handle(Some(zero), ConsumeRequest(input))
  {
    assert EnsureWindow(Some(zero), input) == EnsureWindow(stored, input);
  }

  /** A consume that stays in the window of `dayKey`: a valid body names that day; an invalid
      body is allowed and answers 400. */
  predicate StaysInWindow(request: Request, dayKey: string) {
    && RouteOf(request.httpMethod, request.path) == ConsumeRoute
    && (Validate(request.body).Some? ==> Validate(request.body).value.dayKey == dayKey)
  }

  /** No write is lost or double-counted: over any run of consumes within one day's window, even
      with the limit changing from call to call, the count grows by exactly the number of
      replies that let a write through. */
  lemma {:induction false} CountEqualsOpenReplies(record: QuotaRecord, requests: seq<Request>)
    requires forall i :: 0 <= i < |requests| ==> StaysInWindow(requests[i], record.dayKey)
    ensures var (last, replies) := Run(Some(record), requests);
      last.Some? && last.value.dayKey == record.dayKey && last.value.count == record.count + OpenReplies(replies)
    decreases |requests|
  {
    if requests != [] {
      var (next, reply) := Handle(Some(record), requests[0]);
      assert next.Some? && next.value.dayKey == record.dayKey;
      assert next.value.count == record.count + (if IsOpenReply(reply) then 1 else 0);
      assert forall i :: 0 <= i < |requests[1..]| ==> StaysInWindow(requests[1..][i], record.dayKey) by {
        forall i | 0 <= i < |requests[1..]| ensures StaysInWindow(requests[1..][i], record.dayKey) {
          assert requests[1..][i] == requests[i + 1];
        }
      }
      CountEqualsOpenReplies(next.value, requests[1..]);
      var (last, replies) := Run(Some(record), requests);
      assert replies[1..] == Run(next, requests[1..]).1;
    }
  }

  /** Every stored record stays well formed along any run from a well-formed start. */
  lemma {:induction false} RunKeepsWellFormed(stored: Option<QuotaRecord>, requests: seq<Request>)
    requires StoredWellFormed(stored)
    ensures StoredWellFormed(Run(stored, requests).0)
    decreases |requests|
  {
    if requests != [] {
      HandleKeepsWellFormed(stored, requests[0]);
      RunKeepsWellFormed(Handle(stored, requests[0]).0, requests[1..]);
    }
  }

  /** A worked day: limit 3 on 2024-01-01 gives counts 1, 2, 3 open and 3 paused; a status
      read then shows 3 paused and a fifth consume stays paused at 3; the next day opens at 1. */
  lemma Scenarios()
    ensures var day1 := ConsumeInput("2024-01-01", 3, "2024-01-01T15:00:00.000Z");
      var (afterFour, replies) := Run(None, Repeat(ConsumeRequest(day1), 4));
      && replies == [Record(QuotaRecord("2024-01-01", 1, 3, Open, day1.resumeAt)),
                     Record(QuotaRecord("2024-01-01", 2, 3, Open, day1.resumeAt)),
                     Record(QuotaRecord("2024-01-01", 3, 3, Open, day1.resumeAt)),
                     Record(QuotaRecord("2024-01-01", 3, 3, Paused, day1.resumeAt))]
      && Handle(afterFour, StatusRequest()) == (afterFour, Record(QuotaRecord("2024-01-01", 3, 3, Paused, day1.resumeAt)))
      && Handle(afterFour, ConsumeRequest(day1)).1 == Record(QuotaRecord("2024-01-01", 3, 3, Paused, day1.resumeAt))
      && Handle(afterFour, ConsumeRequest(ConsumeInput("2024-01-02", 3, "2024-01-02T15:00:00.000Z"))).1
         == Record(QuotaRecord("2024-01-02", 1, 3, Open, "2024-01-02T15:00:00.000Z"))
  {
    var day1 := ConsumeInput("2024-01-01", 3, "2024-01-01T15:00:00.000Z");
    FreshWindowRun(None, day1, 4);
    var (afterFour, replies) := Run(None, Repeat(ConsumeRequest(day1), 4));
    OpenRun(0, day1, 4);
    SameRunAsZero(None, QuotaRecord("2024-01-01", 0, 3, Open, day1.resumeAt), day1, Repeat(ConsumeRequest(day1), 4));
  }
}
