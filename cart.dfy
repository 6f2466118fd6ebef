/** The web client's shopping cart: a JavaScript object from item id to quantity. Its keys are
    kept in insertion order, which `Object.entries` reports; `order` holds that order and
    `qty` the values. The item ids are not integer-like, so no key is reordered. */
module Cart {
  import ApiHelpers
  import opened Seqs

  datatype CartState = CartState(order: seq<string>, qty: map<string, int>)

  /** One `[itemId, qty]` pair of `cartEntries`. */
  datatype CartEntry = CartEntry(itemId: string, qty: int)

  const EMPTY_CART := CartState([], map[])

  /** The key order lists every key once. */
  predicate Valid(c: CartState) {
    && (forall i, j :: 0 <= i < j < |c.order| ==> c.order[i] != c.order[j])
    && (forall k :: k in c.qty ==> k in c.order)
    && (forall i :: 0 <= i < |c.order| ==> c.order[i] in c.qty)
  }

  /** Every stored quantity is at least one, as the two updaters keep it. */
  predicate Positive(c: CartState) {
    forall k :: k in c.qty ==> c.qty[k] >= 1
  }

  /** `current[itemId] ?? 0`. */
  function Quantity(c: CartState, itemId: string): int {
    if itemId in c.qty then c.qty[itemId] else 0
  }

  /** `handleAddToCart`: `{ ...current, [itemId]: (current[itemId] ?? 0) + 1 }`; a new key goes
      to the end of the order, an existing one keeps its place. */
  function AddToCart(c: CartState, itemId: string): (r: CartState)
    requires Valid(c)
    ensures Valid(r)
    ensures itemId in r.qty && Quantity(r, itemId) == Quantity(c, itemId) + 1
    ensures forall k :: k != itemId ==> (k in r.qty <==> k in c.qty) && Quantity(r, k) == Quantity(c, k)
    ensures r.order == if itemId in c.qty then c.order else c.order + [itemId]
    ensures Positive(c) ==> Positive(r)
  {
    CartState(if itemId in c.qty then c.order else c.order + [itemId],
              c.qty[itemId := Quantity(c, itemId) + 1])
  }

  /** `s` without `x`, the others in their order. */
  function Remove(s: seq<string>, x: string): (r: seq<string>)
    requires forall i, j :: 0 <= i < j < |s| ==> s[i] != s[j]
    ensures forall y :: y in r <==> y in s && y != x
    ensures x !in s ==> r == s
    ensures forall i, j :: 0 <= i < j < |r| ==> r[i] != r[j]
  {
    if s == [] then []
    else
      var init, last := s[..|s| - 1], s[|s| - 1];
      assert s == init + [last];
      assert last !in init;
      var rest := Remove(init, x);
      if last == x then rest
      else
        var r := rest + [last];
        assert forall i :: 0 <= i < |rest| ==> r[i] == rest[i] && rest[i] in rest;
        r
  }

  /** `handleDecreaseFromCart`: a quantity of one or less (or none) deletes the key, a larger
      one goes down by one in place. */
  function DecreaseFromCart(c: CartState, itemId: string): (r: CartState)
    requires Valid(c)
    ensures Valid(r)
    ensures Quantity(c, itemId) <= 1 ==> itemId !in r.qty && r.order == Remove(c.order, itemId)
    ensures Quantity(c, itemId) > 1 ==> itemId in r.qty && Quantity(r, itemId) == Quantity(c, itemId) - 1 && r.order == c.order
    ensures forall k :: k != itemId ==> (k in r.qty <==> k in c.qty) && Quantity(r, k) == Quantity(c, k)
    ensures Positive(c) ==> Positive(r)
  {
    var q := Quantity(c, itemId);
    if q <= 1 then DeleteKeepsValid(c, itemId); CartState(Remove(c.order, itemId), c.qty - {itemId})
    else CartState(c.order, c.qty[itemId := q - 1])
  }

  /** `delete next[itemId]` drops the key from the order too. */
  lemma DeleteKeepsValid(c: CartState, itemId: string)
    requires Valid(c)
    ensures Valid(CartState(Remove(c.order, itemId), c.qty - {itemId}))
  {
    var order := Remove(c.order, itemId);
    forall i | 0 <= i < |order| ensures order[i] in c.qty - {itemId} {
      assert order[i] in order;
    }
  }

  /** Adding an item and then taking it away again gives back the cart. */
  lemma AddThenDecrease(c: CartState, itemId: string)
    requires Valid(c) && Positive(c)
    ensures DecreaseFromCart(AddToCart(c, itemId), itemId) == c
  {
    if itemId in c.qty {
      AddThenDecreaseHeld(c, itemId);
    } else {
      AddThenDecreaseNew(c, itemId);
    }
  }

  lemma AddThenDecreaseHeld(c: CartState, itemId: string)
    requires Valid(c) && Positive(c) && itemId in c.qty
    ensures DecreaseFromCart(AddToCart(c, itemId), itemId) == c
  {
    var q := c.qty[itemId];
    var added := CartState(c.order, c.qty[itemId := q + 1]);
    assert AddToCart(c, itemId) == added;
    assert DecreaseFromCart(added, itemId) == CartState(c.order, c.qty[itemId := q + 1][itemId := q]);
    assert c.qty[itemId := q + 1][itemId := q] == c.qty;
  }

  lemma AddThenDecreaseNew(c: CartState, itemId: string)
    requires Valid(c) && itemId !in c.qty
    ensures DecreaseFromCart(AddToCart(c, itemId), itemId) == c
  {
    NewKeyOrder(c, itemId);
    NewKeyQty(c, itemId);
  }

  lemma NewKeyOrder(c: CartState, itemId: string)
    requires Valid(c) && itemId !in c.qty
    ensures DecreaseFromCart(AddToCart(c, itemId), itemId).order == c.order
  {
    assert itemId !in c.order;
    RemoveLast(c.order, itemId);
  }

  lemma NewKeyQty(c: CartState, itemId: string)
    requires Valid(c) && itemId !in c.qty
    ensures DecreaseFromCart(AddToCart(c, itemId), itemId).qty == c.qty
  {
    assert c.qty[itemId := 1] - {itemId} == c.qty;
  }

  /** Removing a key just appended gives back the order before it. */
  lemma RemoveLast(s: seq<string>, x: string)
    requires forall i, j :: 0 <= i < j < |s| ==> s[i] != s[j]
    requires x !in s
    ensures forall i, j :: 0 <= i < j < |s + [x]| ==> (s + [x])[i] != (s + [x])[j]
    ensures Remove(s + [x], x) == s
  {
    var t := s + [x];
    assert t[..|t| - 1] == s;
  }

  /** Taking away one of an item held at least twice and adding it back gives back the cart. */
  lemma DecreaseThenAdd(c: CartState, itemId: string)
    requires Valid(c) && Quantity(c, itemId) >= 2
    ensures AddToCart(DecreaseFromCart(c, itemId), itemId) == c
  {
    var r := AddToCart(DecreaseFromCart(c, itemId), itemId);
    assert r.qty == c.qty;
  }

  // ---------------------------------------------------------------------------------------
  // cartEntries, cartCount and the itemIds of a buy request

  /** The ids of `entries`, in order. */
  function EntryIds(entries: seq<CartEntry>): (ids: seq<string>)
    ensures |ids| == |entries| && forall i :: 0 <= i < |entries| ==> ids[i] == entries[i].itemId
  {
    seq(|entries|, i requires 0 <= i < |entries| => entries[i].itemId)
  }

  /** The quantity recorded for `x` in `entries` (the last one, 0 when none). */
  function EntryQty(entries: seq<CartEntry>, x: string): int {
    if entries == [] then 0
    else if entries[|entries| - 1].itemId == x then entries[|entries| - 1].qty
    else EntryQty(entries[..|entries| - 1], x)
  }

  /** Entries with distinct ids and positive quantities. */
  predicate WellFormedEntries(entries: seq<CartEntry>) {
    && (forall i, j :: 0 <= i < j < |entries| ==> entries[i].itemId != entries[j].itemId)
    && (forall i :: 0 <= i < |entries| ==> entries[i].qty > 0)
  }

  /** `order` filtered to the keys whose quantity is positive, in the same order. */
  function PositiveKeys(order: seq<string>, qty: map<string, int>): seq<string>
    requires forall k :: k in order ==> k in qty
  {
    if order == [] then []
    else
      var init, last := order[..|order| - 1], order[|order| - 1];
      assert forall k :: k in init ==> k in order;
      PositiveKeys(init, qty) + (if qty[last] > 0 then [last] else [])
  }

  /** The `[key, qty]` pairs with `qty > 0`, in key order, over the keys in `order`. */
  function Entries(order: seq<string>, qty: map<string, int>): (r: seq<CartEntry>)
    requires forall k :: k in order ==> k in qty
    requires forall i, j :: 0 <= i < j < |order| ==> order[i] != order[j]
    ensures WellFormedEntries(r)
    ensures forall k :: k in EntryIds(r) <==> k in order && qty[k] > 0
    ensures forall k :: k in EntryIds(r) ==> EntryQty(r, k) == qty[k]
    ensures EntryIds(r) == PositiveKeys(order, qty)
  {
    if order == [] then []
    else
      var init, last := order[..|order| - 1], order[|order| - 1];
      assert order == init + [last];
      var e := Entries(init, qty);
      assert last !in EntryIds(e);
      if qty[last] > 0 then AppendEntry(e, CartEntry(last, qty[last])); e + [CartEntry(last, qty[last])]
      else e
  }

  /** Appending an entry with a new id and a positive quantity. */
  lemma AppendEntry(entries: seq<CartEntry>, e: CartEntry)
    requires WellFormedEntries(entries) && e.itemId !in EntryIds(entries) && e.qty > 0
    ensures WellFormedEntries(entries + [e])
    ensures EntryIds(entries + [e]) == EntryIds(entries) + [e.itemId]
    ensures EntryQty(entries + [e], e.itemId) == e.qty
    ensures forall x :: x != e.itemId ==> EntryQty(entries + [e], x) == EntryQty(entries, x)
  {
    var r := entries + [e];
    assert r[..|r| - 1] == entries;
    forall i | 0 <= i < |entries| ensures r[i].itemId != e.itemId {
      assert EntryIds(entries)[i] == entries[i].itemId;
    }
  }

  /** `cartEntries`: `Object.entries(cart).filter(([, qty]) => qty > 0)`. */
  function CartEntries(c: CartState): (r: seq<CartEntry>)
    requires Valid(c)
    ensures WellFormedEntries(r)
    ensures forall k :: k in EntryIds(r) <==> k in c.qty && c.qty[k] > 0
    ensures forall k :: k in EntryIds(r) ==> EntryQty(r, k) == c.qty[k]
    ensures EntryIds(r) == PositiveKeys(c.order, c.qty)
  {
    Entries(c.order, c.qty)
  }

  /** The sum of the quantities of `entries`. */
  function Sum(entries: seq<CartEntry>): (total: int)
    ensures WellFormedEntries(entries) ==> total >= |entries|
  {
    if entries == [] then 0 else Sum(entries[..|entries| - 1]) + entries[|entries| - 1].qty
  }

  /** `cartCount`: the number of items in the cart, at least one per item held; it is 0
      exactly when no quantity is positive. */
  function CartCount(c: CartState): (n: int)
    requires Valid(c)
    ensures n >= |CartEntries(c)|
    ensures n == 0 <==> forall k :: k in c.qty ==> c.qty[k] <= 0
  {
    var entries := CartEntries(c);
    assert entries != [] ==> entries[0].itemId in EntryIds(entries);
    Sum(entries)
  }

  /** `entries.flatMap(([itemId, qty]) => new Array(qty).fill(itemId))`. */
  function Expand(entries: seq<CartEntry>): (ids: seq<string>)
    requires WellFormedEntries(entries)
    ensures |ids| == Sum(entries)
  {
    if entries == [] then []
    else
      var e := entries[|entries| - 1];
      Expand(entries[..|entries| - 1]) + Repeat(e.itemId, e.qty)
  }

  /** Every id of the buy request is an id of the entries. */
  lemma {:induction false} ExpandIds(entries: seq<CartEntry>)
    requires WellFormedEntries(entries)
    ensures forall x :: x in Expand(entries) <==> x in EntryIds(entries)
  {
    if entries != [] {
      var init := entries[..|entries| - 1];
      ExpandIds(init);
      EntryIdsLast(entries);
    }
  }

  /** The server counts each id of the buy request as often as the cart holds it. */
  lemma {:induction false} ExpandCount(entries: seq<CartEntry>, x: string)
    requires WellFormedEntries(entries)
    ensures ApiHelpers.Count(Expand(entries), x) == (if x in EntryIds(entries) then EntryQty(entries, x) else 0)
  {
    if entries != [] {
      var init, e := entries[..|entries| - 1], entries[|entries| - 1];
      var front, back := Expand(init), Repeat(e.itemId, e.qty);
      assert Expand(entries) == front + back;
      ExpandCount(init, x);
      CountAppend(front, back, x);
      CountRepeat(e.itemId, e.qty, x);
      LastEntry(entries, x);
    }
  }

  /** What the last entry adds to the ids and the quantities of the others. */
  lemma LastEntry(entries: seq<CartEntry>, x: string)
    requires WellFormedEntries(entries) && entries != []
    ensures var init, e := entries[..|entries| - 1], entries[|entries| - 1];
      && WellFormedEntries(init)
      && (x in EntryIds(entries) <==> x in EntryIds(init) || x == e.itemId)
      && (x == e.itemId ==> x !in EntryIds(init) && EntryQty(entries, x) == e.qty)
      && (x != e.itemId ==> EntryQty(entries, x) == EntryQty(init, x))
  {
    var init, e := entries[..|entries| - 1], entries[|entries| - 1];
    EntryIdsLast(entries);
    forall k | 0 <= k < |init| ensures EntryIds(init)[k] != e.itemId {
      assert entries[k].itemId != entries[|entries| - 1].itemId;
    }
  }

  /** The server's distinct ids of the buy request are the cart's ids in cart order. */
  lemma {:induction false} ExpandDistinct(entries: seq<CartEntry>)
    requires WellFormedEntries(entries)
    ensures ApiHelpers.Distinct(Expand(entries)) == EntryIds(entries)
  {
    if entries != [] {
      var init, e := entries[..|entries| - 1], entries[|entries| - 1];
      LastEntry(entries, e.itemId);
      ExpandDistinct(init);
      ExpandIds(init);
      DistinctStep(entries);
    }
  }

  /** The last entry adds its id, which is new, after the distinct ids of the others. */
  lemma DistinctStep(entries: seq<CartEntry>)
    requires WellFormedEntries(entries) && entries != []
    requires var init := entries[..|entries| - 1];
      && WellFormedEntries(init)
      && ApiHelpers.Distinct(Expand(init)) == EntryIds(init)
      && entries[|entries| - 1].itemId !in Expand(init)
    ensures ApiHelpers.Distinct(Expand(entries)) == EntryIds(entries)
  {
    var init, e := entries[..|entries| - 1], entries[|entries| - 1];
    assert Expand(entries) == Expand(init) + Repeat(e.itemId, e.qty);
    DistinctAppendRepeat(Expand(init), e.itemId, e.qty);
    EntryIdsLast(entries);
  }

  lemma EntryIdsLast(entries: seq<CartEntry>)
    requires entries != []
    ensures EntryIds(entries) == EntryIds(entries[..|entries| - 1]) + [entries[|entries| - 1].itemId]
  {
    var ids, front := EntryIds(entries), EntryIds(entries[..|entries| - 1]);
    assert |ids| == |front| + 1;
    forall i | 0 <= i < |front| ensures ids[i] == front[i] {
    }
  }

  lemma {:induction false} CountAppend(a: seq<string>, b: seq<string>, x: string)
    ensures ApiHelpers.Count(a + b, x) == ApiHelpers.Count(a, x) + ApiHelpers.Count(b, x)
  {
    if b == [] {
      assert a + b == a;
    } else {
      var init := b[..|b| - 1];
      CountAppend(a, init, x);
      assert (a + b)[..|a + b| - 1] == a + init;
    }
  }

  lemma {:induction false} CountRepeat(y: string, n: nat, x: string)
    ensures ApiHelpers.Count(Repeat(y, n), x) == if x == y then n else 0
  {
    if n > 0 {
      CountRepeat(y, n - 1, x);
      assert Repeat(y, n)[..n - 1] == Repeat(y, n - 1);
    }
  }

  lemma {:induction false} DistinctAppendRepeat(a: seq<string>, x: string, n: nat)
    requires n >= 1 && x !in a
    ensures ApiHelpers.Distinct(a + Repeat(x, n)) == ApiHelpers.Distinct(a) + [x]
  {
    var s := a + Repeat(x, n);
    if n == 1 {
      assert s[..|s| - 1] == a;
    } else {
      DistinctAppendRepeat(a, x, n - 1);
      assert s[..|s| - 1] == a + Repeat(x, n - 1);
      assert x in a + Repeat(x, n - 1);
    }
  }

  /** The positive entries of the cart as a map. */
  function PositivePart(c: CartState): (m: map<string, nat>)
    ensures forall k :: k in m <==> k in c.qty && c.qty[k] > 0
  {
    map k | k in c.qty && c.qty[k] > 0 :: c.qty[k] as nat
  }

  /** Sending the cart and aggregating as `POST /api/requests` does gives back the cart: the
      server's keys are the cart's positive entries in cart order, with the cart's quantities,
      and the request holds `cartCount` ids. */
  lemma CartRoundTrip(c: CartState)
    requires Valid(c)
    ensures ApiHelpers.Distinct(Expand(CartEntries(c))) == PositiveKeys(c.order, c.qty)
    ensures ApiHelpers.Tally(Expand(CartEntries(c))) == PositivePart(c)
    ensures |Expand(CartEntries(c))| == CartCount(c)
  {
    var entries := CartEntries(c);
    var ids := Expand(entries);
    ExpandDistinct(entries);
    ExpandIds(entries);
    forall x | x in ids ensures ApiHelpers.Count(ids, x) == c.qty[x] {
      ExpandCount(entries, x);
    }
    assert ApiHelpers.Tally(ids).Keys == PositivePart(c).Keys;
  }
}
