# renrakun core, modelled in Dafny

renrakun is a household request app. A member of a group asks the others to buy items or to
visit a store, and the recipients get a push notification and an inbox entry. This project
models the parts of it that decide things:

- **The daily write-quota gate** (`QuotaGateDO`). It is a single serialised actor that stores
  one quota record and answers consume, force-reset and status calls. Module `QuotaGate` holds
  the model, and `QuotaGateProofs` holds properties of single calls and of runs of calls.
- **The API worker around the gate** (`QuotaClient`). `checkDailyWriteQuota` runs before every
  write, `getQuotaStatus` serves the status endpoint, and `resetDailyQuota` is the scheduled
  reset.
- **The per-address create/join limiter** (`ActorLimit`). This covers its SQL upsert rule, its
  threshold and `readActorIp`.
- **The worker's self-contained helpers.** `ApiHelpers` has `timingSafeEqual`,
  `createInClause`, the `qtyByItem` aggregation of a new request and the ack/complete status
  rules. `Base64Url` has `toBase64Url`/`fromBase64Url`, with `btoa` and the forgiving `atob`.
- **Day keys and the resume instant** (`JstTime`). The key is `YYYY-MM-DD` and the resume
  instant is the next 00:00 at UTC+9, both built from the calendar parts of the UTC+9 date.
- **The shared request schemas and the built-in catalog** (`Schemas`, `Text`, `Catalog`).
- **The web-push key handling** (`Push`). This covers VAPID public-key parsing (section 3.2 of
  RFC 8292), private-key normalisation and the classification of push replies.
- **The web client's cart, request composer and auto-sync throttle** (`Cart`, `Composer`,
  `AutoSync`).

Modules whose source updates state in place are classes with `modifies` clauses:

- the gate's storage (`QuotaGate.QuotaGateObject`);
- the limiter table (`ActorLimit.ActorLimitTable`);
- the two refs of the auto-sync throttle (`AutoSync.AutoSyncGuard`).

Loops of the source are methods with loop invariants, each proved against a function:
`TimingSafeEqual`, `QtyByItem`, `ToBase64Url` and `FromBase64Url`. The worker's three calls
into the gate (`QuotaClient.CheckWrite`, `QuotaStatusOf` and `ResetDailyQuota`) are methods
outside any class that act on a `QuotaGateObject`. Everything else is functions and lemmas.

Inputs that come from outside are parameters:

- the clock;
- the calendar parts `Intl` extracts;
- the configured limits;
- the request headers;
- the verdict of zod's URL check;
- the outcome of a gate call that may throw.

Where the code's behaviour is surprising, the model follows the code:

- **A 400 from the gate lets the write through.** A configured limit of zero or less is refused
  by the gate and disables the quota rather than blocking writes
  (`QuotaClient.NonPositiveLimitLetsWritesThrough`). Only an exception from the gate call stops
  the write, with a 500 from the error handler. Failing closed would keep the quota in force; the code fails open.
- **`count <= limit` holds only while the limit stays fixed.** A same-day consume that lowers
  the limit keeps the count and pauses (`QuotaGateProofs.LoweredLimitKeepsCount`). What always
  holds is that an increment never passes the limit in force at that call, and that an open
  record never counts past its limit.
- **This version of `createRequestSchema` refuses every visit request.** The web client sends a
  visit request with an empty `itemIds` and an `intent` field. The shared schema here wants 1
  to 50 item ids and exports no `RequestIntent`. So every visit the client's guard lets through
  is refused as `INVALID_PAYLOAD` (`Composer.VisitSendFailsSchema`). The client and the shared
  package evidently come from different versions, so this is recorded as it stands rather than
  corrected.

## Model

| member | source | states |
|---|---|---|
| QuotaGate.RouteOf | apps/api/src/quota-do.ts:53-119 | consume is POST /consume, force-reset is POST /force-reset, status is GET /status; the converse of each holds too |
| QuotaGate.Validate | apps/api/src/quota-do.ts:58-60 | a body is accepted iff dayKey and resumeAt are present and non-empty and limit is present and positive; the accepted input carries those three fields |
| QuotaGate.EnsureWindow | apps/api/src/quota-do.ts:37-51 | the window takes the incoming dayKey, limit and resumeAt; a same-day record keeps its count and state; otherwise count 0 and open |
| QuotaGate.Admit | apps/api/src/quota-do.ts:69-82 | paused stays as it is; open with count + 1 > limit pauses without counting; otherwise the count grows by exactly one and the record stays open |
| QuotaGate.Consumed | apps/api/src/quota-do.ts:62-82 | a valid consume answers the request's dayKey, limit and resumeAt; the count carried from a same-day record (0 otherwise) rises by one and stays open iff the window was open and one more fits the limit, and otherwise it is kept and paused |
| QuotaGate.Reset | apps/api/src/quota-do.ts:84-99 | a valid force-reset answers the request's window at count 0, open, whatever was stored; a consume right after it counts 1 |
| QuotaGate.StatusReply | apps/api/src/quota-do.ts:102-117 | the sentinel iff nothing is stored, otherwise the stored record; never an error |
| QuotaGate.Handle | apps/api/src/quota-do.ts:53-120 | one call as (new storage, reply): an error reply leaves storage as it was, storage changes only to the record replied, status and unknown routes write nothing, and a consume or force-reset errs iff its body fails validation |
| QuotaGate.QuotaGateObject.constructor | apps/api/src/quota-do.ts:26-31 | a new actor has nothing stored |
| QuotaGate.QuotaGateObject.Fetch | apps/api/src/quota-do.ts:53-120 | the new storage and the reply are those of `Handle` on the old storage, and every stored record stays well formed |
| QuotaGateProofs.InvalidPayloadRejected | apps/api/src/quota-do.ts:56-89 | a consume or force-reset with a field missing, an empty string or a non-positive limit answers 400 with the route's code and leaves storage as it was |
| QuotaGateProofs.NewWindowCountsOne | apps/api/src/quota-do.ts:37-82 | with nothing stored, or a record of another day, a valid consume stores and answers count 1, open, with the incoming limit and resumeAt |
| QuotaGateProofs.SameWindowCarriesOver | apps/api/src/quota-do.ts:48-82 | a same-day consume keeps dayKey, takes limit and resumeAt from the request, counts one iff open and below the new limit, and otherwise answers paused with the count unchanged |
| QuotaGateProofs.PausedStaysPaused | apps/api/src/quota-do.ts:69-72 | a paused same-day record answers paused with its count for any incoming limit, and is rewritten with the new limit and resumeAt |
| QuotaGateProofs.IncrementWithinLimit | apps/api/src/quota-do.ts:74-82 | a consume either leaves the count as it was or raises it by one to at most the limit in force, and then it is open |
| QuotaGateProofs.ForceResetIdempotent | apps/api/src/quota-do.ts:91-99 | a force-reset stores and answers {dayKey, 0, limit, open, resumeAt} whatever was stored; repeating it changes nothing |
| QuotaGateProofs.StatusReadsOnly | apps/api/src/quota-do.ts:102-117 | status leaves storage as it was and answers the stored record, or the sentinel when nothing is stored |
| QuotaGateProofs.UnknownRouteNotFound | apps/api/src/quota-do.ts:119 | any other method or path answers 404 NOT_FOUND and leaves storage as it was |
| QuotaGateProofs.StatusIsTransparent | apps/api/src/quota-do.ts:102-117 | a status read before any call changes neither what that call stores nor what it answers |
| QuotaGateProofs.StatusAfterConsume | apps/api/src/quota-do.ts:62-117 | a status read right after a consume answers exactly the consume's reply |
| QuotaGateProofs.HandleKeepsWellFormed | apps/api/src/quota-do.ts:37-99 | every call keeps the stored record well formed (non-empty keys, limit >= 1, count >= 0, count <= limit while open), and every record it answers is well formed |
| QuotaGateProofs.LoweredLimitKeepsCount | apps/api/src/quota-do.ts:48-50 | count 5 under limit 10 followed by a same-day consume with limit 3 leaves count 5 paused under limit 3, so count <= limit is not invariant |
| QuotaGateProofs.PausedRun | apps/api/src/quota-do.ts:69-72 | n consumes on a paused same-day record all answer the same paused record |
| QuotaGateProofs.OpenRun | apps/api/src/quota-do.ts:69-82 | from open count c <= L, n consumes answer counts c+1, c+2, and so on, open up to L and then L paused; min(n, L - c) let writes through |
| QuotaGateProofs.AtLimitRun | apps/api/src/quota-do.ts:74-78 | from open count L, every one of n consumes answers L paused |
| QuotaGateProofs.FreshWindowRun | apps/api/src/quota-do.ts:37-82 | with a fixed limit L, N consumes from a fresh window answer counts min(i+1, L), let min(N, L) writes through and leave count min(N, L) <= L |
| QuotaGateProofs.CountEqualsOpenReplies | apps/api/src/quota-do.ts:62-82 | over any run of consumes within one day, even with the limit changing, the count grows by exactly the number of open replies |
| QuotaGateProofs.RunKeepsWellFormed | apps/api/src/quota-do.ts:53-120 | every stored record stays well formed along any sequence of calls |
| QuotaGateProofs.Scenarios | apps/api/src/quota-do.ts:56-117 | limit 3: counts 1, 2, 3 open and then 3 paused; status shows 3 paused; another consume stays paused; the next day opens at 1 |
| QuotaClient.ConfiguredLimit | apps/api/src/index.ts:1225 | an unset limit is 300, a set one is taken as it is |
| QuotaClient.ReplyPayload | apps/api/src/quota-do.ts:105-119 | the worker reads every field of a record reply, the sentinel's open/0/0 with no dayKey and no resumeAt, and no field of an error body |
| QuotaClient.CheckDailyWriteQuota | apps/api/src/index.ts:1239-1248 | 503 SERVICE_PAUSED_DAILY_QUOTA iff the reply is paused, carrying the reply's resumeAt or else the local one; any other reply, a 400 body included, proceeds; a thrown call gives 500 |
| QuotaClient.GetQuotaStatus | apps/api/src/index.ts:1151-1167 | a reply missing dayKey or resumeAt, or with limit absent or 0, gives today's open window with count 0, the configured limit and the next midnight; otherwise the reply's fields, with open and 0 as defaults |
| QuotaClient.CheckWrite | apps/api/src/index.ts:1224-1249 | one consume against the gate with the configured limit; the gate's new storage and the verdict are those of the gate and the decision functions |
| QuotaClient.QuotaStatusOf | apps/api/src/index.ts:1145-1168 | a status read against the gate leaves its storage as it was and reports the mapped reply |
| QuotaClient.ResetDailyQuota | apps/api/src/index.ts:1251-1261 | the gate's storage becomes what a force-reset with the configured limit stores |
| QuotaClient.BlockedIffGatePaused | apps/api/src/index.ts:1224-1248 | for a valid configuration a consume always stores a record, and the write is refused iff that record is paused, with its resumeAt in the 503 |
| QuotaClient.NonPositiveLimitLetsWritesThrough | apps/api/src/index.ts:1225-1248 | with a limit <= 0 the gate answers 400 without touching storage, and the worker proceeds with the write |
| QuotaClient.StatusReportsStoredRecord | apps/api/src/index.ts:1151-1167 | a gate with nothing stored reports today's open window with the configured limit; a gate holding a well-formed record reports exactly that record |
| ActorLimit.Upsert | apps/api/src/index.ts:1185-1198 | the row always ends with today's key; a row of today counts one more, a new row or a row of another day restarts at 1 |
| ActorLimit.FirstField | apps/api/src/index.ts:1173 | `split(',')[0]`: the longest prefix without a comma, which is followed by a comma or ends the text |
| ActorLimit.ForwardedHeader | apps/api/src/index.ts:1171 | cf-connecting-ip if present, else x-forwarded-for if present, else x-real-ip if present, else none; an empty value counts as present |
| ActorLimit.ReadActorIp | apps/api/src/index.ts:1170-1174 | with no header, or a chosen value whose first comma field trims to empty, `unknown`; otherwise exactly that trimmed first field, which is a piece of the chosen value, non-empty and comma-free |
| ActorLimit.EmptyPrimaryHeaderIsUnknown | apps/api/src/index.ts:1171-1173 | an empty cf-connecting-ip gives `unknown`, whatever the other headers say |
| ActorLimit.ActorKey | apps/api/src/index.ts:1183 | `join-create:` followed by the caller's address, which can be read back from the key, so different addresses get different rows |
| ActorLimit.Blocked | apps/api/src/index.ts:1214-1215 | a request is refused iff the row read back is today's and its count exceeds the limit |
| ActorLimit.ActorLimitTable.CheckJoinCreateActorLimit | apps/api/src/index.ts:1176-1222 | a non-finite or non-positive limit refuses nothing and touches no row; otherwise the caller's row is upserted and the request is refused iff its new count exceeds the limit |
| ActorLimit.UpsertCountsRequests | apps/api/src/index.ts:1185-1198 | k requests of one day leave count k after a row of another day or none, and add k to a row of today |
| ActorLimit.DailyAllowance | apps/api/src/index.ts:1214-1221 | on a new day the k-th request from one address is refused iff k exceeds the limit |
| ApiHelpers.TimingSafeEqual | apps/api/src/index.ts:949-956 | true iff the two byte arrays are equal (same length and every byte pair equal) |
| ApiHelpers.CreateInClause | apps/api/src/index.ts:873-878 | n <= 0 fails; otherwise n `?` joined by `,` (length 2n - 1) |
| ApiHelpers.Distinct | apps/api/src/index.ts:558 | the keys of the insertion-ordered map: the elements of the ids, each once |
| ApiHelpers.Tally | apps/api/src/index.ts:554-556 | the map's keys are the ids sent, and each maps to its number of occurrences |
| ApiHelpers.QtyByItem | apps/api/src/index.ts:554-558 | the loop yields the distinct ids in first-occurrence order and each id's number of occurrences |
| ApiHelpers.TallyAppend | apps/api/src/index.ts:555 | one more id raises its quantity by one (from 0 when new) and changes no other |
| ApiHelpers.TallyTotal | apps/api/src/index.ts:554-558 | the quantities add up to the number of ids sent |
| ApiHelpers.Ack | apps/api/src/index.ts:733-736 | requested becomes acknowledged; any other status is left as it is |
| ApiHelpers.Complete | apps/api/src/index.ts:780 | any status becomes completed |
| ApiHelpers.StatusUpdatesMoveForward | apps/api/src/index.ts:733-780 | neither update moves a request backwards, both are idempotent, and an ack after completion leaves it completed |
| Base64Url.Latin1 | apps/api/src/index.ts:895-897 | the binary string has one character per byte, whose code is that byte |
| Base64Url.Btoa | apps/api/src/index.ts:898 | `btoa` succeeds iff every character is at most U+00FF |
| Base64Url.AtobBtoa | apps/api/src/index.ts:898-904 | `btoa` of a binary string is base64 of its bytes (section 4 of RFC 4648), and `atob` of that gives the binary string back |
| Base64Url.Padding | apps/api/src/index.ts:903 | `(4 - n % 4) % 4` copies of `=`: fewer than four, bringing n to a multiple of 4 |
| Base64Url.Atob | apps/api/src/index.ts:904 | `atob` succeeds iff what is left after skipping whitespace and one or two final `=` (on a multiple of 4) is alphabet characters of a length not 1 more than a multiple of 4, and then gives three bytes per four characters |
| Base64Url.StripTrailingPad | apps/api/src/index.ts:898 | `replace(/=+$/g, '')`: the longest prefix that does not end in `=`, the rest being all `=` |
| Base64Url.ReplaceChar | apps/api/src/index.ts:898 | every occurrence of one character is replaced, and every other character kept |
| Base64Url.ToBase64Url | apps/api/src/index.ts:893-899 | the output decodes back to the bytes, uses only `A-Z a-z 0-9 - _` and has length ceil(4n/3) |
| Base64Url.FromBase64Url | apps/api/src/index.ts:901-910 | the byte-filling loop returns the decoding of the normalised, re-padded value, or fails where `atob` throws |
| Base64Url.UrlEncode | apps/api/src/index.ts:893-899 | the output is the unpadded base64 with `+` and `/` replaced (the `=` that `btoa` adds are exactly those stripped), uses only `A-Z a-z 0-9 - _`, has length ceil(4n/3) and is never 1 more than a multiple of 4 long |
| Base64Url.UrlDecode | apps/api/src/index.ts:901-910 | every value of `A-Z a-z 0-9 - _` whose length is not 1 more than a multiple of 4 decodes, to three bytes per four characters |
| Base64Url.UrlRoundTrip | apps/api/src/index.ts:893-910 | `fromBase64Url(toBase64Url(b)) == b` for every byte sequence |
| Base64Url.OneLeftOverThrows | apps/api/src/push.ts:32-33 | 4k + 1 alphabet characters always make `atob` throw |
| Base64Url.NormaliseCanonical | apps/api/src/push.ts:53 | an encoder output decodes, and re-encodes to itself |
| Base64Url.PaddedKeyNormalises | apps/api/src/push.ts:30-39 | a key written with `=` padding decodes like the unpadded one |
| Base64Url.NormaliseDropsPadding | apps/api/src/push.ts:53 | `AA==` decodes to one zero byte |
| Base64Url.ZeroByteEncoding | apps/api/src/push.ts:22-28 | one zero byte encodes as `AA` |
| Base64Url.NormaliseClearsSpareBits | apps/api/src/push.ts:53 | `AB` also decodes to one zero byte: the spare bits are dropped |
| Push.ParsePublicKey | apps/api/src/push.ts:41-49 | succeeds iff the key decodes to 65 bytes starting with 0x04; a point of the wrong shape fails with the source's message; an undecodable key fails with `invalid base64`, this model's own label for the `DOMException` that `atob` throws |
| Push.ParseSplitsPoint | apps/api/src/push.ts:46-48 | x and y are 43 characters each and decode to 32 bytes each, and 0x04, x and y together are the decoded key |
| Push.NormalisePrivateKey | apps/api/src/push.ts:53 | defined iff the key decodes, and then it decodes to the same bytes |
| Push.VapidJwk | apps/api/src/push.ts:51-61 | key material exists iff the public key parses and the private key decodes; x and y are the parsed coordinates and d decodes as the private key |
| Push.ClassifyReply | apps/api/src/push.ts:90-94 | ok iff the status is 200-299, expired iff it is 404 or 410, and an expired reply is never ok |
| Push.ParseAcceptsEveryPoint | apps/api/src/push.ts:41-48 | every uncompressed point is accepted, with the encoder's output for its two halves |
| Push.NormaliseKeepsCanonical | apps/api/src/push.ts:53 | a canonical key is passed on unchanged, and normalising twice equals normalising once |
| Push.ParseRefusesWrongLength | apps/api/src/push.ts:43-45 | a key of any length but 65 bytes is refused with the point message |
| JstTime.NumberString | apps/api/src/time.ts:19 | `String(n)` is never empty |
| JstTime.PadStart2 | apps/api/src/time.ts:19 | `padStart(2, '0')` keeps a string of two or more characters and left-fills a shorter one with `0` to length 2 |
| JstTime.DayKey | apps/api/src/time.ts:17-20 | the key of valid parts is the year in four digits, `-`, the month in two, `-`, the day in two |
| JstTime.PadFixed | apps/api/src/time.ts:19 | a padded number below 100 is its two fixed digits |
| JstTime.DayKeyLength | apps/api/src/time.ts:19 | the key of a four-digit year, a month 1-12 and a day 1-31 has exactly ten characters |
| JstTime.DayKeyInjective | apps/api/src/time.ts:19 | equal keys of valid parts come from equal dates |
| JstTime.DayKeyOrder | apps/api/src/time.ts:19 | for four-digit years the string order of keys is the calendar order of the dates, in both directions |
| JstTime.NextJstMidnight | apps/api/src/time.ts:22-26 | for years from 100 on, the resume instant is a 00:00 at UTC+9, and the UTC+9 day it starts is the one after the parts' date |
| JstTime.DateUtc | apps/api/src/time.ts:24 | `Date.UTC` gives the start of day `MakeDay` plus the hours, with years 0-99 read as 1900-1999 |
| JstTime.ResumeWithinADay | apps/api/src/time.ts:22-25 | when the parts are the UTC+9 date of instant t, t < resumeAt <= t + 24 h |
| JstTime.ResumeIsJstMidnight | apps/api/src/time.ts:24 | the resume instant is 15:00 UTC |
| JstTime.SameKeySameResume | apps/api/src/time.ts:17-26 | equal day keys give equal resume instants |
| JstTime.MakeDay | apps/api/src/time.ts:24 | within a year the day number is the days before the year, the days before the month and the date minus 1; months 12-23 count in the next year |
| JstTime.MonthRollsOver | apps/api/src/time.ts:24 | the day after a month's last day is the first of the next month |
| JstTime.YearRollsOver | apps/api/src/time.ts:24 | the day after December 31 is January 1 of the next year |
| JstTime.YearLength | apps/api/src/time.ts:24 | a year has 366 days iff it is a leap year, and 365 otherwise |
| JstTime.EpochIsDayZero | apps/api/src/time.ts:24 | 1970-01-01 is day 0 |
| JstTime.LeapFebruary | apps/api/src/time.ts:24 | February 2024 has 29 days |
| JstTime.CommonFebruary | apps/api/src/time.ts:24 | February 2023 has 28 days |
| Text.Trim | packages/shared/src/index.ts:45 | the result is the input with a whitespace prefix and a whitespace suffix cut off, and it neither starts nor ends with whitespace |
| Text.TrimEmptyIff | packages/shared/src/index.ts:46 | a string trims to empty iff it is all whitespace |
| Text.TrimIdempotent | packages/shared/src/index.ts:45 | trimming twice equals trimming once |
| Text.TrimSpaced | packages/shared/src/index.ts:46 | a core padded with one space on each side trims to the core |
| Schemas.TrimmedWithin | packages/shared/src/index.ts:45 | `z.string().trim().min(lo).max(hi)`: accepted iff the trimmed length is within bounds, and the trimmed text is handed on |
| Schemas.ParseCreateGroup | packages/shared/src/index.ts:44-48 | accepted iff the trimmed deviceId has 8-120 characters, displayName 1-40 and passphrase 6-64; the result is the trimmed fields |
| Schemas.ParseJoinGroup | packages/shared/src/index.ts:50-55 | the same bounds plus a trimmed inviteToken of 8-120 characters; the result is the trimmed fields |
| Schemas.ParseCreateRequest | packages/shared/src/index.ts:57-62 | accepted iff the ids are non-empty, the store is absent or non-empty and there are 1-50 non-empty item ids; no field is trimmed |
| Schemas.ParseCustomTab | packages/shared/src/index.ts:64-66 | accepted iff the trimmed name has 1-30 characters |
| Schemas.ParseCustomItem | packages/shared/src/index.ts:68-71 | accepted iff tabId is non-empty and the trimmed name has 1-30 characters; tabId is kept as it is |
| Schemas.ParsePushSubscription | packages/shared/src/index.ts:73-83 | accepted iff groupId, memberId and both keys are non-empty and the endpoint is a URL |
| Schemas.TrimmedIdempotent | packages/shared/src/index.ts:45 | a trimmed field parses to itself |
| Schemas.CreateGroupIdempotent | packages/shared/src/index.ts:44-48 | parsing an accepted group again accepts it unchanged |
| Schemas.JoinGroupIdempotent | packages/shared/src/index.ts:50-55 | parsing an accepted join again accepts it unchanged |
| Schemas.CustomTabIdempotent | packages/shared/src/index.ts:64-66 | parsing an accepted tab again accepts it unchanged |
| Schemas.CustomItemIdempotent | packages/shared/src/index.ts:68-71 | parsing an accepted item again accepts it unchanged |
| Schemas.BlankDisplayNameRejected | packages/shared/src/index.ts:46-53 | a whitespace-only display name is refused by both group schemas |
| Schemas.BlankCustomNameRejected | packages/shared/src/index.ts:65-70 | a whitespace-only custom tab or item name is refused |
| Schemas.SpacedNameCountsTrimmed | packages/shared/src/index.ts:46 | a display name with one space on each side (`" abc "`) is judged and handed on as its core (`"abc"`) |
| Catalog.SystemCatalogConsistent | packages/shared/src/index.ts:122-239 | the built-in catalog has unique tab, item and store ids, every item under a built-in tab, everything marked as system and no store bound to a group |
| Catalog.SystemTabIds | packages/shared/src/index.ts:122-128 | the five tab ids are unique |
| Catalog.SystemItemIds | packages/shared/src/index.ts:130-201 | the ten item ids are unique |
| Catalog.SystemStoreIds | packages/shared/src/index.ts:203-239 | the five store ids are unique |
| Catalog.SystemItemsUnderTabs | packages/shared/src/index.ts:122-201 | every item's tabId names a built-in tab |
| Cart.AddToCart | apps/web/src/App.tsx:1323-1328 | the chosen item's quantity goes up by one (from 0 when absent) and no other entry changes; a new key goes last |
| Cart.Remove | apps/web/src/App.tsx:1366-1367 | the key order without the deleted key, every other key kept |
| Cart.DecreaseFromCart | apps/web/src/App.tsx:1362-1373 | a quantity of one or less (or none) deletes the entry; a larger one goes down by one in place; no other entry changes |
| Cart.DeleteKeepsValid | apps/web/src/App.tsx:1367 | deleting a key keeps the key order and the quantities in step |
| Cart.AddThenDecrease | apps/web/src/App.tsx:1323-1373 | adding an item and then decreasing it gives back the cart |
| Cart.DecreaseThenAdd | apps/web/src/App.tsx:1323-1373 | decreasing an item held at least twice and adding it back gives back the cart |
| Cart.CartEntries | apps/web/src/App.tsx:972 | the entries are the keys with a positive quantity, each once, with its quantity, in the cart's key order filtered to those keys |
| Cart.CartCount | apps/web/src/App.tsx:973 | at least one per entry, and 0 iff no quantity is positive |
| Cart.PositivePart | apps/web/src/App.tsx:972 | the map of the cart's positive quantities |
| Cart.Expand | apps/web/src/App.tsx:1389-1392 | the flatMap holds as many ids as the entries' quantities add up to, which is what `cartCount` shows |
| Cart.ExpandIds | apps/web/src/App.tsx:1389-1392 | every id of the buy request is an id of the entries, and every entry's id occurs |
| Cart.ExpandCount | apps/web/src/App.tsx:1389-1392 | each id occurs in the buy request as often as the entry's quantity |
| Cart.ExpandDistinct | apps/web/src/App.tsx:1389-1392 | the server's distinct ids of the buy request are the entries' ids in cart order |
| Cart.CartRoundTrip | apps/web/src/App.tsx:1389-1392 | the server's aggregation of the buy request gives back the cart's positive entries in the cart's key order, and the request's length is `cartCount` |
| Composer.SwitchIntent | apps/web/src/App.tsx:1338-1352 | the new intent is taken; only buy to visit empties the cart; an error line that is one of the two guard messages is cleared |
| Composer.SwitchKeepsCart | apps/web/src/App.tsx:1338-1352 | switching to the current intent, or from visit to buy, keeps the cart |
| Composer.SendRequest | apps/web/src/App.tsx:1375-1399 | no session does nothing; a buy without entries or a visit without a store is refused with its message; otherwise the call carries the store, the intent, and for a buy the cart expanded (its aggregation is the cart) or for a visit no ids |
| Composer.BuySendPassesSchema | apps/web/src/App.tsx:1389-1398 | a buy the guard sends, from a cart of at most 50 items with non-empty ids, passes the request schema |
| Composer.VisitSendFailsSchema | apps/web/src/App.tsx:1389-1398 | a visit is sent iff a store is chosen, and the request schema refuses every visit sent |
| AutoSync.AutoSyncGuard.constructor | apps/web/src/App.tsx:689-690 | nothing is in flight and the last start is 0 |
| AutoSync.AutoSyncGuard.Start | apps/web/src/App.tsx:795-803 | a refresh starts iff there is a session, none is in flight, nothing is loading and 5000 ms have passed since the last start; a start marks one in flight at now, and otherwise nothing changes |
| AutoSync.AutoSyncGuard.Finish | apps/web/src/App.tsx:807-808 | the in-flight flag drops and the last start stays |
| AutoSync.AutoSyncGuard.ResetSession | apps/web/src/App.tsx:853-857 | without a session both refs return to their initial values |
| AutoSync.StartsAreSpaced | apps/web/src/App.tsx:793-803 | every start is an attempt, the first at least 5000 ms after the last start, and consecutive starts at least 5000 ms apart |
| AutoSync.NoStartWithinInterval | apps/web/src/App.tsx:799-800 | attempts within 5000 ms of the last start start nothing |

## Left out

- JavaScript numbers are integers here. NaN, fractions and the coercions of `Number(...)` are not modelled, except that the limiter's setting may be non-finite.
- The Durable Object runtime is out: storage I/O, the stub `fetch`, JSON encoding and decoding, and the platform's serialisation of calls. Storage is a field, and calls are method invocations, one at a time.
- `ensureWindow` updates the loaded record in place. Storage hands back copies, so the model updates a value, and no aliasing is modelled.
- The times passed to the gate are opaque strings. The worker sends them unchanged, and the gate only tests them for emptiness.
- `toISOString` formatting of the resume instant is out. `JstTime` gives the instant in epoch milliseconds.
- `Intl.DateTimeFormat` extraction (`extractParts`) and the time zone database are out. The year, month and day are inputs, assumed to be the UTC+9 date of the instant.
- `Date.UTC`'s clipping of time values to ±8.64e15 ms is not modelled. Its mapping of years 0-99 to 1900-1999 is modelled, and the lemmas about the resume instant are stated for years from 100 on.
- Hono routing, CORS and header middleware, authentication, the order of checks inside route handlers and the full `onError` mapping are out. Only the 500 for an exception from the gate call is modelled.
- D1 execution is out: queries, batches, joins and `updated_at`. Only the `CASE` rules of the limiter upsert and of the ack/complete updates are modelled.
- Crypto is out: PBKDF2 and SHA-256 hashing, `crypto.getRandomValues`, UUIDs, and the ES256/JWT signing of `createVapidJwt` via `jose`. `VapidJwk` stops at the key material.
- The push `fetch` and its headers are out. `ClassifyReply` takes the status code, and `ok` is derived from it as the Fetch standard defines `response.ok`.
- Lengths count code points, not UTF-16 code units.
- zod's type checks are out: wrong types, missing fields reported as issues, unknown keys. The nested shape of `pushSubscriptionSchema` is flattened.
- zod's URL check is out. `ParsePushSubscription` takes its verdict as a parameter.
- `atob` skips ASCII whitespace. The model removes it, but no lemma is about inputs that contain it.
- JavaScript orders integer-like object keys (such as `"10"`) before the others. `Cart` keeps plain insertion order, which is what the app's item ids (`sys-item-*` and UUIDs) get.
- React state, effects, timers, rendering and the asynchrony of the handlers are out. The throttle is its sequential guard: `Start` and `Finish` bracket a refresh, and `Starts` describes attempts that each finish before the next.
- Composer.SendRequest: the `setIsLoading(true)` and `setErrorText('')` just before the API call are not modelled. The decision records only what is refused or sent, and the model has no loading flag.
- `handleSendRequest` after the API call is out: the toast, the reset of cart, store and intent, and the reload.
- `sendRequest` itself is out (apps/web/src/api.ts is not part of this model).
- `getJstDayKey` and `getNextJstMidnightIso` each read their own clock, so two calls near midnight may see different days. The model gives both the same parts.
