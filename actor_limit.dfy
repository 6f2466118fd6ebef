/** The per-address limiter of group create/join requests: one row per client address in the
    `daily_actor_limits` table, upserted on every request and then compared with the limit. */
module ActorLimit {
  import opened Wrappers
  import opened Text

  /** A row of `daily_actor_limits` (`updated_at` is left out). */
  datatype LimitRow = LimitRow(dayKey: string, count: int)

  /** `Number(env.DAILY_JOIN_CREATE_LIMIT_PER_ACTOR ?? 40)`: an integer, or NaN / an infinity. */
  datatype NumberValue = Finite(value: int) | NotFinite

  const DEFAULT_JOIN_CREATE_LIMIT := 40
  const TOO_MANY_REQUESTS := "TOO_MANY_REQUESTS"

  function LimitSetting(setting: Option<NumberValue>): NumberValue {
    setting.GetOr(Finite(DEFAULT_JOIN_CREATE_LIMIT))
  }

  /** A non-finite or non-positive limit turns the check off. */
  predicate Enabled(limit: NumberValue) {
    limit.Finite? && limit.value > 0
  }

  /** The `INSERT ... ON CONFLICT DO UPDATE` with its two `CASE` expressions: a row of the same
      day counts one more; a new row, or a row of another day, restarts at 1 with today's key. */
  function Upsert(row: Option<LimitRow>, today: string): (r: LimitRow)
    ensures r.dayKey == today
    ensures row.Some? && row.value.dayKey == today ==> r.count == row.value.count + 1
    ensures !(row.Some? && row.value.dayKey == today) ==> r.count == 1
  {
    match row
    case None => LimitRow(today, 1)
    case Some(stored) =>
      LimitRow(if stored.dayKey == today then stored.dayKey else today,
               if stored.dayKey == today then stored.count + 1 else 1)
  }

  /** The decision on the row read back: 429 only for today's row above the limit. */
  predicate Blocked(current: Option<LimitRow>, today: string, limit: int) {
    current.Some? && current.value.dayKey == today && current.value.count > limit
  }

  /** `split(',')[0]`: the text before the first comma (the whole text when there is none). */
  function FirstField(s: string): (r: string)
    ensures |r| <= |s| && r == s[..|r|]
    ensures ',' !in r
    ensures |r| < |s| ==> s[|r|] == ','
  {
    if s == [] || s[0] == ',' then [] else [s[0]] + FirstField(s[1..])
  }

  /** `header('cf-connecting-ip') ?? header('x-forwarded-for') ?? header('x-real-ip')`: the
      first of the three headers that is present, even with an empty value. */
  function ForwardedHeader(headers: map<string, string>): (v: Option<string>)
    ensures "cf-connecting-ip" in headers ==> v == Some(headers["cf-connecting-ip"])
    ensures "cf-connecting-ip" !in headers && "x-forwarded-for" in headers ==>
      v == Some(headers["x-forwarded-for"])
    ensures "cf-connecting-ip" !in headers && "x-forwarded-for" !in headers && "x-real-ip" in headers ==>
      v == Some(headers["x-real-ip"])
    ensures v.None? <==> "cf-connecting-ip" !in headers && "x-forwarded-for" !in headers && "x-real-ip" !in headers
  {
    if "cf-connecting-ip" in headers then Some(headers["cf-connecting-ip"])
    else if "x-forwarded-for" in headers then Some(headers["x-forwarded-for"])
    else if "x-real-ip" in headers then Some(headers["x-real-ip"])
    else None
  }

  /** `readActorIp`: the chosen header's first comma-separated field, trimmed; `unknown` when no
      header is present or that field is blank. The address is a piece of the header's value. */
  function ReadActorIp(headers: map<string, string>): (ip: string)
    ensures ip != [] && ',' !in ip
    ensures ip == "unknown" || (!IsWhitespace(ip[0]) && !IsWhitespace(ip[|ip| - 1]))
    ensures ForwardedHeader(headers).None? ==> ip == "unknown"
    ensures ForwardedHeader(headers).Some? ==>
      var v := ForwardedHeader(headers).value;
      && (Trim(FirstField(v)) == "" ==> ip == "unknown")
      && (Trim(FirstField(v)) != "" ==> ip == Trim(FirstField(v)) && exists i :: SegmentAt(v, i, ip))
  {
    var forwarded := ForwardedHeader(headers);
    if forwarded.None? || forwarded.value == "" then "unknown"
    else
      var first := Trim(FirstField(forwarded.value));
      FieldOfHeader(forwarded.value, first);
      if first == "" then "unknown" else first
  }

  /** The trimmed first field sits inside the header's value and holds no comma. */
  lemma FieldOfHeader(v: string, field: string)
    requires field == Trim(FirstField(v))
    ensures ',' !in field
    ensures exists i :: SegmentAt(v, i, field)
  {
    var f := FirstField(v);
    var i :| TrimmedAt(f, i, field);
    SegmentOfPrefix(v, f, i, field);
    SegmentAvoids(f, i, field, ',');
  }

  /** An empty `cf-connecting-ip` does not fall through to the other headers: `??` only skips
      absent values, and the empty value then reads as `unknown`. */
  lemma EmptyPrimaryHeaderIsUnknown(headers: map<string, string>)
    requires "cf-connecting-ip" in headers && headers["cf-connecting-ip"] == ""
    ensures ReadActorIp(headers) == "unknown"
  {
  }

  const ACTOR_KEY_PREFIX := "join-create:"

  /** The key of the limiter row: the caller's address can be read back from it, so callers
      with different addresses have different rows. */
  function ActorKey(headers: map<string, string>): (key: string)
    ensures |key| > |ACTOR_KEY_PREFIX| && key[..|ACTOR_KEY_PREFIX|] == ACTOR_KEY_PREFIX
    ensures key[|ACTOR_KEY_PREFIX|..] == ReadActorIp(headers)
  {
    ACTOR_KEY_PREFIX + ReadActorIp(headers)
  }

  /** The `daily_actor_limits` table as the limiter sees it. */
  class ActorLimitTable {
    var rows: map<string, LimitRow>

    constructor ()
      ensures rows == map[]
    {
      rows := map[];
    }

    /** `checkJoinCreateActorLimit`: upsert the caller's row, read it back and decide; returns
        true when the request is refused with 429. */
    method CheckJoinCreateActorLimit(setting: Option<NumberValue>, today: string, headers: map<string, string>)
      returns (blocked: bool)
      modifies this
      ensures !Enabled(LimitSetting(setting)) ==> !blocked && rows == old(rows)
      ensures Enabled(LimitSetting(setting)) ==>
        var key := ActorKey(headers);
        && rows == old(rows)[key := Upsert(if key in old(rows) then Some(old(rows)[key]) else None, today)]
        && blocked == (rows[key].count > LimitSetting(setting).value)
    {
      var limit := LimitSetting(setting);
      if !Enabled(limit) {
        return false;
      }
      var key := ActorKey(headers);
      var existing := if key in rows then Some(rows[key]) else None;
      rows := rows[key := Upsert(existing, today)];
      var current := if key in rows then Some(rows[key]) else None;
      blocked := Blocked(current, today, limit.value);
    }
  }

  /** The row after `k` requests of one day from the same address. */
  function UpsertTimes(row: Option<LimitRow>, today: string, k: nat): Option<LimitRow>
  {
    if k == 0 then row else Some(Upsert(UpsertTimes(row, today, k - 1), today))
  }

  /** Within one day the row counts the requests of that day: `k` requests after a row of
      another day (or none) leave count `k`, after today's row they add `k`. */
  lemma {:induction false} UpsertCountsRequests(row: Option<LimitRow>, today: string, k: nat)
    requires k >= 1
    ensures UpsertTimes(row, today, k).Some?
    ensures UpsertTimes(row, today, k).value.dayKey == today
    ensures UpsertTimes(row, today, k).value.count ==
      if row.Some? && row.value.dayKey == today then row.value.count + k else k
  {
    if k > 1 {
      UpsertCountsRequests(row, today, k - 1);
    }
  }

  /** Every address gets exactly `limit` create/join requests a day: the k-th request of a new
      day is refused exactly when k exceeds the limit. */
  lemma DailyAllowance(row: Option<LimitRow>, today: string, k: nat, limit: int)
    requires k >= 1 && limit > 0
    requires !(row.Some? && row.value.dayKey == today)
    ensures Blocked(UpsertTimes(row, today, k), today, limit) <==> k > limit
  {
    UpsertCountsRequests(row, today, k);
  }
}
