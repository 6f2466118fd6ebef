/** Self-contained helpers of the API worker: constant-time comparison, SQL placeholder lists,
    the item tally of a new request and the request-status rules of ack and complete. */
module ApiHelpers {
  import opened Wrappers

  // ---------------------------------------------------------------------------------------
  // timingSafeEqual

  /** `timingSafeEqual`: unequal lengths answer false at once; otherwise every byte pair is
      XORed into `diff` with OR, so the loop never exits early, and the answer is `diff == 0`. */
  method TimingSafeEqual(left: seq<bv8>, right: seq<bv8>) returns (equal: bool)
    ensures equal <==> left == right
  {
    if |left| != |right| {
      return false;
    }
    var diff: bv8 := 0;
    var i := 0;
    while i < |left|
      invariant 0 <= i <= |left|
      invariant diff == 0 <==> forall j :: 0 <= j < i ==> left[j] == right[j]
    {
      var d := left[i] ^ right[i];
      OrZero(diff, d);
      diff := diff | d;
      i := i + 1;
    }
    equal := diff == 0;
  }

  /** An OR of two bit patterns is zero exactly when both are. */
  lemma OrZero(a: bv8, d: bv8)
    ensures a | d == 0 <==> a == 0 && d == 0
  {
  }

  // ---------------------------------------------------------------------------------------
  // createInClause

  /** `createInClause(n)`: `n` question marks joined by commas; `n <= 0` throws. */
  function CreateInClause(n: int): (r: Result<string>)
    ensures n <= 0 <==> r.Failure?
    ensures r.Success? ==> |r.value| == 2 * n - 1
    ensures r.Success? ==> forall i :: 0 <= i < |r.value| ==> r.value[i] == (if i % 2 == 0 then '?' else ',')
  {
    if n <= 0 then Failure("IN clause requires at least one value") else Success(Placeholders(n))
  }

  /** `new Array(n).fill('?').join(',')` for n >= 1. */
  function Placeholders(n: nat): (r: string)
    requires n >= 1
    ensures |r| == 2 * n - 1
    ensures forall i :: 0 <= i < |r| ==> r[i] == (if i % 2 == 0 then '?' else ',')
  {
    if n == 1 then "?" else Placeholders(n - 1) + ",?"
  }

  // ---------------------------------------------------------------------------------------
  // qtyByItem

  /** The number of occurrences of `x` in `s`. */
  function Count(s: seq<string>, x: string): (n: nat)
    ensures n <= |s|
    ensures n > 0 <==> x in s
  {
    if s == [] then 0 else Count(s[..|s| - 1], x) + (if s[|s| - 1] == x then 1 else 0)
  }

  /** The distinct elements of `s`, in the order of their first occurrence. */
  function Distinct(s: seq<string>): (d: seq<string>)
    ensures forall x :: x in d <==> x in s
    ensures forall i, j :: 0 <= i < j < |d| ==> d[i] != d[j]
  {
    if s == [] then []
    else if s[|s| - 1] in s[..|s| - 1] then Distinct(s[..|s| - 1])
    else Distinct(s[..|s| - 1]) + [s[|s| - 1]]
  }

  /** Each distinct element of `s` with its number of occurrences. */
  function Tally(s: seq<string>): (m: map<string, nat>)
    ensures m.Keys == set x | x in s
    ensures forall x :: x in m ==> m[x] == Count(s, x)
  {
    map x | x in s :: Count(s, x)
  }

  /** The sum of `m` over the keys in `keys`. */
  function Total(keys: seq<string>, m: map<string, nat>): nat
    requires forall k :: k in keys ==> k in m
  {
    if keys == [] then 0 else Total(keys[..|keys| - 1], m) + m[keys[|keys| - 1]]
  }

  /** The `qtyByItem` loop of `POST /api/requests`: an insertion-ordered map from item id to
      quantity, given here as its key order and its contents. */
  method QtyByItem(itemIds: seq<string>) returns (keys: seq<string>, qty: map<string, nat>)
    ensures keys == Distinct(itemIds)
    ensures qty == Tally(itemIds)
  {
    keys, qty := [], map[];
    var i := 0;
    while i < |itemIds|
      invariant 0 <= i <= |itemIds|
      invariant keys == Distinct(itemIds[..i])
      invariant qty == Tally(itemIds[..i])
    {
      var id := itemIds[i];
      assert itemIds[..i + 1][..i] == itemIds[..i];
      TallyAppend(itemIds[..i], id);
      assert itemIds[..i + 1] == itemIds[..i] + [id];
      if id !in qty {
        keys := keys + [id];
      }
      qty := qty[id := (if id in qty then qty[id] else 0) + 1];
      i := i + 1;
    }
    assert itemIds[..i] == itemIds;
  }

  /** Appending one id adds one to its tally and changes nothing else. */
  lemma TallyAppend(s: seq<string>, x: string)
    ensures (s + [x])[..|s|] == s
    ensures Tally(s + [x]) == Tally(s)[x := (if x in Tally(s) then Tally(s)[x] else 0) + 1]
  {
    var t := s + [x];
    assert t[..|t| - 1] == s;
    forall y ensures Count(t, y) == Count(s, y) + (if y == x then 1 else 0) {
    }
  }

  /** The quantities add up to the number of ids sent. */
  lemma {:induction false} TallyTotal(s: seq<string>)
    ensures Total(Distinct(s), Tally(s)) == |s|
  {
    if s != [] {
      var init, x := s[..|s| - 1], s[|s| - 1];
      assert s == init + [x];
      TallyTotal(init);
      TallyAppend(init, x);
      if x in init {
        TotalBump(Distinct(init), Tally(init), x);
      } else {
        TotalFrame(Distinct(init), Tally(init), Tally(s));
        assert Distinct(s)[..|Distinct(s)| - 1] == Distinct(init);
      }
    }
  }

  /** Raising one key that occurs once raises the total by one. */
  lemma {:induction false} TotalBump(keys: seq<string>, m: map<string, nat>, x: string)
    requires forall k :: k in keys ==> k in m
    requires forall i, j :: 0 <= i < j < |keys| ==> keys[i] != keys[j]
    requires x in keys
    ensures Total(keys, m[x := m[x] + 1]) == Total(keys, m) + 1
  {
    var init, last := keys[..|keys| - 1], keys[|keys| - 1];
    if last == x {
      assert x !in init;
      TotalFrame(init, m, m[x := m[x] + 1]);
    } else {
      TotalBump(init, m, x);
    }
  }

  /** The total only depends on the map's values at the keys taken. */
  lemma {:induction false} TotalFrame(keys: seq<string>, m: map<string, nat>, n: map<string, nat>)
    requires forall k :: k in keys ==> k in m && k in n && m[k] == n[k]
    ensures Total(keys, m) == Total(keys, n)
  {
    if keys != [] {
      TotalFrame(keys[..|keys| - 1], m, n);
    }
  }

  // ---------------------------------------------------------------------------------------
  // Request status

  datatype RequestStatus = Requested | Acknowledged | Completed

  /** How far a request has progressed. */
  function Rank(s: RequestStatus): nat {
    match s
    case Requested => 0
    case Acknowledged => 1
    case Completed => 2
  }

  /** The ack `UPDATE`: `CASE WHEN status = 'requested' THEN 'acknowledged' ELSE status END`. */
  function Ack(s: RequestStatus): (r: RequestStatus)
    ensures s == Requested ==> r == Acknowledged
    ensures s != Requested ==> r == s
  {
    if s == Requested then Acknowledged else s
  }

  /** The complete `UPDATE`: `SET status = 'completed'`, from any status. */
  function Complete(s: RequestStatus): (r: RequestStatus)
    ensures r == Completed
  {
    Completed
  }

  /** Neither update moves a request backwards, both are idempotent, and an ack after
      completion leaves the request completed. */
  lemma StatusUpdatesMoveForward(s: RequestStatus)
    ensures Rank(Ack(s)) >= Rank(s) && Rank(Complete(s)) >= Rank(s)
    ensures Ack(Ack(s)) == Ack(s) && Complete(Complete(s)) == Complete(s)
    ensures Ack(Complete(s)) == Completed
  {
  }
}
