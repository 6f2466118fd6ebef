/** The request composer of the web client: the buy/visit intent, the cart it holds, the error
    line the two intent buttons may clear, and the checks `handleSendRequest` makes before it
    calls the API. */
module Composer {
  import opened Wrappers
  import ApiHelpers
  import Cart
  import Schemas

  /** `RequestIntent`: ask for items to be bought, or ask someone to visit a store. */
  datatype Intent = Buy | Visit

  datatype ComposerState = ComposerState(intent: Intent, cart: Cart.CartState, errorText: string)

  /** What `handleSendRequest` does: nothing without a session, an error line without a call,
      or a call carrying these fields. */
  datatype SendDecision =
    | NoSession
    | Refused(errorText: string)
    | Send(storeId: Option<string>, itemIds: seq<string>, intent: Intent)

  /** `switchIntent`: the error line is cleared when it is one of the two messages the send
      guard shows; then, unless the intent stays, buy to visit empties the cart. */
  function SwitchIntent(s: ComposerState, next: Intent, visitRequiredText: string, cartEmptyText: string)
    : (r: ComposerState)
    ensures r.intent == next
    ensures s.intent == Buy && next == Visit ==> r.cart == Cart.EMPTY_CART
    ensures !(s.intent == Buy && next == Visit) ==> r.cart == s.cart
    ensures r.errorText == if s.errorText == visitRequiredText || s.errorText == cartEmptyText then "" else s.errorText
  {
    var errorText :=
      if s.errorText == "" then s.errorText
      else if s.errorText == visitRequiredText || s.errorText == cartEmptyText then ""
      else s.errorText;
    if next == s.intent then s.(errorText := errorText)
    else if s.intent == Buy && next == Visit then ComposerState(next, Cart.EMPTY_CART, errorText)
    else ComposerState(next, s.cart, errorText)
  }

  /** A selected store id is truthy: present and not empty. */
  predicate StoreChosen(selectedStoreId: Option<string>) {
    selectedStoreId.Some? && selectedStoreId.value != ""
  }

  /** `handleSendRequest` up to the API call: a buy needs an entry with a positive quantity, a
      visit needs a chosen store; a buy sends each item id as often as its quantity, a visit no
      item ids. */
  function SendRequest(hasSession: bool, s: ComposerState, selectedStoreId: Option<string>,
                       cartEmptyText: string, visitRequiredText: string): (d: SendDecision)
    requires Cart.Valid(s.cart)
    ensures !hasSession <==> d == NoSession
    ensures d.Send? <==>
      hasSession && (s.intent == Buy ==> Cart.CartEntries(s.cart) != []) && (s.intent == Visit ==> StoreChosen(selectedStoreId))
    ensures d.Refused? && s.intent == Buy ==> d.errorText == cartEmptyText
    ensures d.Refused? && s.intent == Visit ==> d.errorText == visitRequiredText
    ensures d.Send? ==> d.intent == s.intent && d.storeId == selectedStoreId
    ensures d.Send? && s.intent == Buy ==>
      && ApiHelpers.Distinct(d.itemIds) == Cart.PositiveKeys(s.cart.order, s.cart.qty)
      && ApiHelpers.Tally(d.itemIds) == Cart.PositivePart(s.cart)
      && 1 <= |d.itemIds| == Cart.CartCount(s.cart)
    ensures d.Send? && s.intent == Visit ==> d.itemIds == []
  {
    var entries := Cart.CartEntries(s.cart);
    if !hasSession then NoSession
    else if s.intent == Buy && |entries| == 0 then Refused(cartEmptyText)
    else if s.intent == Visit && !StoreChosen(selectedStoreId) then Refused(visitRequiredText)
    else
      Cart.CartRoundTrip(s.cart);
      Send(selectedStoreId, if s.intent == Buy then Cart.Expand(entries) else [], s.intent)
  }

  // ---------------------------------------------------------------------------------------
  // Properties

  /** Switching to the intent already chosen, or from visit to buy, keeps the cart; only buy to
      visit empties it. Switching twice lands on the second intent. */
  lemma SwitchKeepsCart(s: ComposerState, next: Intent, visitRequiredText: string, cartEmptyText: string)
    ensures SwitchIntent(s, s.intent, visitRequiredText, cartEmptyText).cart == s.cart
    ensures SwitchIntent(s, s.intent, visitRequiredText, cartEmptyText).intent == s.intent
    ensures s.intent == Visit ==> SwitchIntent(s, Buy, visitRequiredText, cartEmptyText).cart == s.cart
    ensures SwitchIntent(SwitchIntent(s, next, visitRequiredText, cartEmptyText), s.intent, visitRequiredText, cartEmptyText).intent == s.intent
  {
  }

  /** A buy request the guard lets through passes the request schema when its ids are
      non-empty, the caller ids are non-empty, the store is absent or non-empty and the cart
      holds at most 50 items. */
  lemma BuySendPassesSchema(s: ComposerState, selectedStoreId: Option<string>, cartEmptyText: string,
                            visitRequiredText: string, groupId: string, memberId: string)
    requires Cart.Valid(s.cart) && s.intent == Buy
    requires forall k :: k in s.cart.qty ==> k != ""
    requires groupId != "" && memberId != ""
    requires selectedStoreId.None? || selectedStoreId.value != ""
    requires Cart.CartCount(s.cart) <= Schemas.MAX_REQUEST_ITEMS
    ensures var d := SendRequest(true, s, selectedStoreId, cartEmptyText, visitRequiredText);
      d.Send? ==> Schemas.ParseCreateRequest(Schemas.CreateRequestInput(groupId, memberId, d.storeId, d.itemIds)).Some?
  {
    var d := SendRequest(true, s, selectedStoreId, cartEmptyText, visitRequiredText);
    if d.Send? {
      var tally := ApiHelpers.Tally(d.itemIds);
      assert tally == Cart.PositivePart(s.cart);
      forall i | 0 <= i < |d.itemIds| ensures d.itemIds[i] != "" {
        assert d.itemIds[i] in tally;
      }
    }
  }

  /** A visit request sends no item ids, and this version of the request schema wants at
      least one: every visit the guard lets through is refused by the server with
      `INVALID_PAYLOAD`. */
  lemma VisitSendFailsSchema(s: ComposerState, selectedStoreId: Option<string>, cartEmptyText: string,
                             visitRequiredText: string, groupId: string, memberId: string)
    requires Cart.Valid(s.cart) && s.intent == Visit
    ensures var d := SendRequest(true, s, selectedStoreId, cartEmptyText, visitRequiredText);
      && (d.Send? <==> StoreChosen(selectedStoreId))
      && (d.Send? ==> Schemas.ParseCreateRequest(Schemas.CreateRequestInput(groupId, memberId, d.storeId, d.itemIds)).None?)
  {
  }
}
