/** The request-body schemas shared by the web client and the API, as the checks they make.
    A `trim()` field is measured after trimming and is handed on trimmed; the other fields are
    taken as they are. Fields of the wrong type and unknown fields are not modelled: every
    input below already has its fields as strings. */
module Schemas {
  import opened Wrappers
  import opened Text

  datatype CreateGroupInput = CreateGroupInput(deviceId: string, displayName: string, passphrase: string)

  datatype JoinGroupInput =
    JoinGroupInput(inviteToken: string, deviceId: string, displayName: string, passphrase: string)

  datatype CreateRequestInput =
    CreateRequestInput(groupId: string, senderMemberId: string, storeId: Option<string>, itemIds: seq<string>)

  datatype CustomTabInput = CustomTabInput(name: string)

  datatype CustomItemInput = CustomItemInput(tabId: string, name: string)

  datatype PushSubscriptionInput =
    PushSubscriptionInput(groupId: string, memberId: string, endpoint: string, p256dh: string, auth: string)

  const MAX_REQUEST_ITEMS := 50

  /** `z.string().trim().min(lo).max(hi)`: the trimmed text, if its length is within bounds. */
  function TrimmedWithin(s: string, lo: nat, hi: nat): (r: Option<string>)
    ensures r.Some? <==> lo <= |Trim(s)| <= hi
    ensures r.Some? ==> r.value == Trim(s)
  {
    var t := Trim(s);
    if lo <= |t| <= hi then Some(t) else None
  }

  /** `createGroupSchema.safeParse`: the trimmed fields, or `None` when one is out of bounds. */
  function ParseCreateGroup(input: CreateGroupInput): (r: Option<CreateGroupInput>)
    ensures r.Some? <==>
      && 8 <= |Trim(input.deviceId)| <= 120
      && 1 <= |Trim(input.displayName)| <= 40
      && 6 <= |Trim(input.passphrase)| <= 64
    ensures r.Some? ==>
      r.value == CreateGroupInput(Trim(input.deviceId), Trim(input.displayName), Trim(input.passphrase))
  {
    match (TrimmedWithin(input.deviceId, 8, 120), TrimmedWithin(input.displayName, 1, 40),
           TrimmedWithin(input.passphrase, 6, 64))
    case (Some(deviceId), Some(displayName), Some(passphrase)) =>
      Some(CreateGroupInput(deviceId, displayName, passphrase))
    case _ => None
  }

  /** `joinGroupSchema.safeParse`: the invitation token and the same three fields. */
  function ParseJoinGroup(input: JoinGroupInput): (r: Option<JoinGroupInput>)
    ensures r.Some? <==>
      && 8 <= |Trim(input.inviteToken)| <= 120
      && ParseCreateGroup(CreateGroupInput(input.deviceId, input.displayName, input.passphrase)).Some?
    ensures r.Some? ==>
      r.value == JoinGroupInput(Trim(input.inviteToken), Trim(input.deviceId), Trim(input.displayName),
                                Trim(input.passphrase))
  {
    match (TrimmedWithin(input.inviteToken, 8, 120),
           ParseCreateGroup(CreateGroupInput(input.deviceId, input.displayName, input.passphrase)))
    case (Some(token), Some(g)) => Some(JoinGroupInput(token, g.deviceId, g.displayName, g.passphrase))
    case _ => None
  }

  /** `createRequestSchema`: non-empty ids, an absent or non-empty store and 1 to 50 non-empty
      item ids. No field is trimmed. */
  predicate ValidCreateRequest(input: CreateRequestInput) {
    && input.groupId != [] && input.senderMemberId != []
    && (input.storeId.None? || input.storeId.value != [])
    && 1 <= |input.itemIds| <= MAX_REQUEST_ITEMS
    && forall i :: 0 <= i < |input.itemIds| ==> input.itemIds[i] != []
  }

  /** `createRequestSchema.safeParse`: the input itself when valid. */
  function ParseCreateRequest(input: CreateRequestInput): (r: Option<CreateRequestInput>)
    ensures r.Some? <==> ValidCreateRequest(input)
    ensures r.Some? ==> r.value == input
    ensures input.itemIds == [] ==> r.None?
    ensures |input.itemIds| > MAX_REQUEST_ITEMS ==> r.None?
  {
    if ValidCreateRequest(input) then Some(input) else None
  }

  /** `createCustomTabSchema.safeParse`. */
  function ParseCustomTab(input: CustomTabInput): (r: Option<CustomTabInput>)
    ensures r.Some? <==> 1 <= |Trim(input.name)| <= 30
    ensures r.Some? ==> r.value == CustomTabInput(Trim(input.name))
  {
    match TrimmedWithin(input.name, 1, 30)
    case Some(name) => Some(CustomTabInput(name))
    case None => None
  }

  /** `createCustomItemSchema.safeParse`: the tab id is not trimmed, the name is. */
  function ParseCustomItem(input: CustomItemInput): (r: Option<CustomItemInput>)
    ensures r.Some? <==> input.tabId != [] && 1 <= |Trim(input.name)| <= 30
    ensures r.Some? ==> r.value == CustomItemInput(input.tabId, Trim(input.name))
  {
    if input.tabId == [] then None
    else
      match TrimmedWithin(input.name, 1, 30)
      case Some(name) => Some(CustomItemInput(input.tabId, name))
      case None => None
  }

  /** `pushSubscriptionSchema`: `endpointIsUrl` is the verdict of zod's URL check on the
      endpoint, which is library behaviour and an input here. */
  predicate ValidPushSubscription(input: PushSubscriptionInput, endpointIsUrl: bool) {
    && input.groupId != [] && input.memberId != []
    && endpointIsUrl
    && input.p256dh != [] && input.auth != []
  }

  /** `pushSubscriptionSchema.safeParse`: the input itself when valid; a missing key or caller
      id, or an endpoint that is not a URL, is refused. No field is trimmed. */
  function ParsePushSubscription(input: PushSubscriptionInput, endpointIsUrl: bool)
    : (r: Option<PushSubscriptionInput>)
    ensures r.Some? <==> ValidPushSubscription(input, endpointIsUrl)
    ensures r.Some? ==> r.value == input
    ensures !endpointIsUrl || input.p256dh == [] || input.auth == [] ==> r.None?
  {
    if ValidPushSubscription(input, endpointIsUrl) then Some(input) else None
  }

  // ---------------------------------------------------------------------------------------
  // Properties

  /** Parsing what a parse returned accepts it again and changes nothing. */
  lemma CreateGroupIdempotent(g: CreateGroupInput)
    requires ParseCreateGroup(g).Some?
    ensures ParseCreateGroup(ParseCreateGroup(g).value) == ParseCreateGroup(g)
  {
    TrimmedIdempotent(g.deviceId, 8, 120);
    TrimmedIdempotent(g.displayName, 1, 40);
    TrimmedIdempotent(g.passphrase, 6, 64);
  }

  /** A trimmed field parses to itself. */
  lemma TrimmedIdempotent(s: string, lo: nat, hi: nat)
    requires TrimmedWithin(s, lo, hi).Some?
    ensures TrimmedWithin(TrimmedWithin(s, lo, hi).value, lo, hi) == TrimmedWithin(s, lo, hi)
  {
    TrimIdempotent(s);
  }

  lemma JoinGroupIdempotent(j: JoinGroupInput)
    requires ParseJoinGroup(j).Some?
    ensures ParseJoinGroup(ParseJoinGroup(j).value) == ParseJoinGroup(j)
  {
    TrimmedIdempotent(j.inviteToken, 8, 120);
    CreateGroupIdempotent(CreateGroupInput(j.deviceId, j.displayName, j.passphrase));
  }

  lemma CustomTabIdempotent(t: CustomTabInput)
    requires ParseCustomTab(t).Some?
    ensures ParseCustomTab(ParseCustomTab(t).value) == ParseCustomTab(t)
  {
    TrimmedIdempotent(t.name, 1, 30);
  }

  lemma CustomItemIdempotent(i: CustomItemInput)
    requires ParseCustomItem(i).Some?
    ensures ParseCustomItem(ParseCustomItem(i).value) == ParseCustomItem(i)
  {
    TrimmedIdempotent(i.name, 1, 30);
  }

  /** A display name made only of whitespace is refused by both group schemas. */
  lemma BlankDisplayNameRejected(g: CreateGroupInput, j: JoinGroupInput)
    requires forall k :: 0 <= k < |g.displayName| ==> IsWhitespace(g.displayName[k])
    requires forall k :: 0 <= k < |j.displayName| ==> IsWhitespace(j.displayName[k])
    ensures ParseCreateGroup(g).None? && ParseJoinGroup(j).None?
  {
    TrimEmptyIff(g.displayName);
    TrimEmptyIff(j.displayName);
  }

  /** A blank custom tab or item name is refused. */
  lemma BlankCustomNameRejected(t: CustomTabInput, i: CustomItemInput)
    requires forall k :: 0 <= k < |t.name| ==> IsWhitespace(t.name[k])
    requires forall k :: 0 <= k < |i.name| ==> IsWhitespace(i.name[k])
    ensures ParseCustomTab(t).None? && ParseCustomItem(i).None?
  {
    TrimEmptyIff(t.name);
    TrimEmptyIff(i.name);
  }

  /** Lengths are counted after trimming: a display name with a space on each side, such as
      `" abc "` for three characters, is accepted or refused as its core would be, and is handed
      on as the core. */
  lemma SpacedNameCountsTrimmed(g: CreateGroupInput, core: string)
    requires core != [] && !IsWhitespace(core[0]) && !IsWhitespace(core[|core| - 1])
    requires g.displayName == " " + core + " "
    ensures ParseCreateGroup(g) == ParseCreateGroup(g.(displayName := core))
    ensures ParseCreateGroup(g).Some? ==> ParseCreateGroup(g).value.displayName == core
  {
    TrimSpaced(core);
    TrimKeepsInner(core);
  }
}
