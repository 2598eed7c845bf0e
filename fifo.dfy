/** FIFO costing (`calculateFIFOCost`, backend/server.js): which lots a sale draws from,
    in what order, how much from each, and at what cost. The walk over the lots is given
    here as a specification function; `Inventory.Product.ConsumeFifo` is proved against it. */
module Fifo {
  import opened Records

  function Positive(r: int): nat
  {
    if r > 0 then r else 0
  }

  function Min(a: int, b: int): int
  {
    if a <= b then a else b
  }

  // ---------- sums over the lots ----------

  /** Σ remainingQuantity over all lots. */
  function TotalRemaining(lots: seq<Lot>): int
  {
    if lots == [] then 0 else TotalRemaining(lots[..|lots| - 1]) + lots[|lots| - 1].remaining
  }

  /** What the FIFO walk can draw: Σ of the positive remainders (the walk skips the others). */
  function Available(lots: seq<Lot>): nat
  {
    if lots == [] then 0 else Available(lots[..|lots| - 1]) + Positive(lots[|lots| - 1].remaining)
  }

  lemma TotalRemainingAppend(lots: seq<Lot>, l: Lot)
    ensures TotalRemaining(lots + [l]) == TotalRemaining(lots) + l.remaining
  {
    assert (lots + [l])[..|lots|] == lots;
  }

  lemma {:induction false} TotalRemainingUpdate(lots: seq<Lot>, i: nat, l: Lot)
    requires i < |lots|
    ensures TotalRemaining(lots[i := l]) == TotalRemaining(lots) - lots[i].remaining + l.remaining
    decreases |lots|
  {
    var n := |lots| - 1;
    if i == n {
      assert lots[i := l][..n] == lots[..n];
    } else {
      assert lots[i := l][..n] == lots[..n][i := l];
      TotalRemainingUpdate(lots[..n], i, l);
    }
  }

  lemma {:induction false} AvailableUpdate(lots: seq<Lot>, i: nat, l: Lot)
    requires i < |lots|
    ensures Available(lots[i := l]) == Available(lots) - Positive(lots[i].remaining) + Positive(l.remaining)
    decreases |lots|
  {
    var n := |lots| - 1;
    if i == n {
      assert lots[i := l][..n] == lots[..n];
    } else {
      assert lots[i := l][..n] == lots[..n][i := l];
      AvailableUpdate(lots[..n], i, l);
    }
  }

  lemma {:induction false} AvailableNone(lots: seq<Lot>)
    requires forall i :: 0 <= i < |lots| ==> lots[i].remaining <= 0
    ensures Available(lots) == 0
    decreases |lots|
  {
    if lots != [] {
      AvailableNone(lots[..|lots| - 1]);
    }
  }

  /** The lot-level supply is never below the aggregate of the remainders, so a sale the
      aggregate allows is one the FIFO walk can cover. */
  lemma {:induction false} AvailableCoversTotal(lots: seq<Lot>)
    ensures TotalRemaining(lots) <= Available(lots)
    decreases |lots|
  {
    if lots != [] {
      AvailableCoversTotal(lots[..|lots| - 1]);
    }
  }

  // ---------- the FIFO order ----------

  predicate ValidIdx(lots: seq<Lot>, order: seq<nat>)
  {
    forall k :: 0 <= k < |order| ==> order[k] < |lots|
  }

  predicate Distinct(order: seq<nat>)
  {
    forall a, b :: 0 <= a < b < |order| ==> order[a] != order[b]
  }

  predicate AllPositive(lots: seq<Lot>, order: seq<nat>)
    requires ValidIdx(lots, order)
  {
    forall k :: 0 <= k < |order| ==> lots[order[k]].remaining > 0
  }

  predicate CoversPositive(lots: seq<Lot>, order: seq<nat>)
  {
    forall i :: 0 <= i < |lots| && lots[i].remaining > 0 ==> i in order
  }

  /** Lot `i` comes before lot `j` in a stable ascending sort by purchase date. */
  predicate Before(lots: seq<Lot>, i: nat, j: nat)
    requires i < |lots| && j < |lots|
  {
    lots[i].purchaseDate < lots[j].purchaseDate ||
    (lots[i].purchaseDate == lots[j].purchaseDate && i < j)
  }

  predicate SortedFifo(lots: seq<Lot>, order: seq<nat>)
    requires ValidIdx(lots, order)
  {
    forall a, b :: 0 <= a < b < |order| ==> Before(lots, order[a], order[b])
  }

  /** `order` lists exactly the lots with stock, oldest first, equal dates in array order:
      the result of `.filter(p => p.remainingQuantity > 0).sort(by purchaseDate)`. */
  predicate IsFifoOrder(lots: seq<Lot>, order: seq<nat>)
  {
    ValidIdx(lots, order) && AllPositive(lots, order) && CoversPositive(lots, order) &&
    SortedFifo(lots, order)
  }

  /** Inserts lot `i` after every listed lot not newer than it (a stable insertion step). */
  function InsertByDate(lots: seq<Lot>, order: seq<nat>, i: nat): (r: seq<nat>)
    requires i < |lots| && ValidIdx(lots, order)
    ensures |r| == |order| + 1 && ValidIdx(lots, r)
    ensures forall x :: x in r <==> x in order || x == i
    decreases |order|
  {
    if order == [] then [i]
    else if lots[i].purchaseDate < lots[order[0]].purchaseDate then [i] + order
    else [order[0]] + InsertByDate(lots, order[1..], i)
  }

  /** The filtered and sorted lots among the first `n`. */
  function FifoOrderUpTo(lots: seq<Lot>, n: nat): (r: seq<nat>)
    requires n <= |lots|
    ensures ValidIdx(lots, r)
    ensures forall x: nat {:trigger x in r} :: x in r <==> x < n && lots[x].remaining > 0
    decreases n
  {
    if n == 0 then []
    else
      var o := FifoOrderUpTo(lots, n - 1);
      if lots[n - 1].remaining > 0 then InsertByDate(lots, o, n - 1) else o
  }

  function FifoOrder(lots: seq<Lot>): (r: seq<nat>)
    ensures ValidIdx(lots, r)
  {
    FifoOrderUpTo(lots, |lots|)
  }

  lemma {:induction false} InsertByDateSorted(lots: seq<Lot>, order: seq<nat>, i: nat)
    requires i < |lots| && ValidIdx(lots, order) && SortedFifo(lots, order)
    requires forall k :: 0 <= k < |order| ==> order[k] < i
    ensures SortedFifo(lots, InsertByDate(lots, order, i))
    decreases |order|
  {
    if order != [] && lots[i].purchaseDate >= lots[order[0]].purchaseDate {
      var tail := InsertByDate(lots, order[1..], i);
      InsertByDateSorted(lots, order[1..], i);
      var r := [order[0]] + tail;
      forall a, b | 0 <= a < b < |r|
        ensures Before(lots, r[a], r[b])
      {
        if a == 0 {
          assert r[b] in tail;
          if r[b] != i {
            var m :| 1 <= m < |order| && order[m] == r[b];
          }
        } else {
          assert r[a] == tail[a - 1] && r[b] == tail[b - 1];
        }
      }
    } else if order != [] {
      var r := [i] + order;
      forall a, b | 0 <= a < b < |r|
        ensures Before(lots, r[a], r[b])
      {
        if a == 0 && b > 1 {
          assert Before(lots, order[0], order[b - 1]);
        }
      }
    }
  }

  lemma {:induction false} FifoOrderUpToSorted(lots: seq<Lot>, n: nat)
    requires n <= |lots|
    ensures SortedFifo(lots, FifoOrderUpTo(lots, n))
    decreases n
  {
    if n > 0 {
      var o := FifoOrderUpTo(lots, n - 1);
      FifoOrderUpToSorted(lots, n - 1);
      if lots[n - 1].remaining > 0 {
        UpToBelow(lots, n - 1);
        InsertByDateSorted(lots, o, n - 1);
      }
    }
  }

  lemma UpToBelow(lots: seq<Lot>, n: nat)
    requires n <= |lots|
    ensures forall k :: 0 <= k < |FifoOrderUpTo(lots, n)| ==> FifoOrderUpTo(lots, n)[k] < n
  {
    var o := FifoOrderUpTo(lots, n);
    forall k | 0 <= k < |o|
      ensures o[k] < n
    {
      assert o[k] in o;
    }
  }

  /** `FifoOrder` lists exactly the lots with stock, oldest first, stably. */
  lemma FifoOrderIsFifo(lots: seq<Lot>)
    ensures IsFifoOrder(lots, FifoOrder(lots))
  {
    FifoOrderUpToSorted(lots, |lots|);
    var o := FifoOrder(lots);
    forall k | 0 <= k < |o|
      ensures lots[o[k]].remaining > 0
    {
      assert o[k] in o;
    }
  }

  lemma SortedDistinct(lots: seq<Lot>, order: seq<nat>)
    requires ValidIdx(lots, order) && SortedFifo(lots, order)
    ensures Distinct(order)
  {
    forall a, b | 0 <= a < b < |order|
      ensures order[a] != order[b]
    {
      assert Before(lots, order[a], order[b]);
    }
  }

  lemma SortedHeadFirst(lots: seq<Lot>, order: seq<nat>, x: nat)
    requires ValidIdx(lots, order) && SortedFifo(lots, order) && x in order
    ensures x == order[0] || Before(lots, order[0], x)
  {
    var k :| 0 <= k < |order| && order[k] == x;
    if k > 0 {
      assert Before(lots, order[0], order[k]);
    }
  }

  /** Two stably sorted listings of the same lots are the same listing. */
  lemma {:induction false} SortedUnique(lots: seq<Lot>, o1: seq<nat>, o2: seq<nat>)
    requires ValidIdx(lots, o1) && SortedFifo(lots, o1)
    requires ValidIdx(lots, o2) && SortedFifo(lots, o2)
    requires forall x :: x in o1 <==> x in o2
    ensures o1 == o2
    decreases |o1|
  {
    if o1 == [] {
      assert forall k :: 0 <= k < |o2| ==> o2[k] in o2;
    } else {
      assert o1[0] in o1;
      assert o2 != [];
      assert o2[0] in o2;
      SortedHeadFirst(lots, o2, o1[0]);
      SortedHeadFirst(lots, o1, o2[0]);
      assert o1[0] == o2[0];
      SortedDistinct(lots, o1);
      SortedDistinct(lots, o2);
      forall x
        ensures x in o1[1..] <==> x in o2[1..]
      {
        if x in o1[1..] {
          var k :| 1 <= k < |o1| && o1[k] == x;
          assert x != o2[0];
          assert x in o1;
          assert x in o2;
          var j :| 0 <= j < |o2| && o2[j] == x;
          assert o2[1..][j - 1] == x;
        }
        if x in o2[1..] {
          var k :| 1 <= k < |o2| && o2[k] == x;
          assert x != o1[0];
          assert x in o2;
          assert x in o1;
          var j :| 0 <= j < |o1| && o1[j] == x;
          assert o1[1..][j - 1] == x;
        }
      }
      SortedUnique(lots, o1[1..], o2[1..]);
    }
  }

  /** Any listing of the stocked lots, oldest first with ties in array order, is
      `FifoOrder`: the order does not depend on how the stable sort is carried out. */
  lemma FifoOrderUnique(lots: seq<Lot>, order: seq<nat>)
    requires IsFifoOrder(lots, order)
    ensures order == FifoOrder(lots)
  {
    FifoOrderIsFifo(lots);
    var f := FifoOrder(lots);
    forall x
      ensures x in order <==> x in f
    {
      if x in order {
        var k :| 0 <= k < |order| && order[k] == x;
      }
    }
    SortedUnique(lots, order, f);
  }

  // ---------- the walk ----------

  /** The outcome of walking the lots: the lots afterwards, the accumulated cost and the
      quantity still needed when the walk stopped (`remainingQty`). */
  datatype Walk = Walk(lots: seq<Lot>, cost: real, unmet: int)

  function Drawn(l: Lot, take: int): Lot
  {
    l.(remaining := l.remaining - take)
  }

  /** The loop of `calculateFIFOCost` over the listed lots: stop once nothing is needed,
      otherwise take `min(needed, remaining)` from the next lot at its unit cost. */
  function FifoWalk(lots: seq<Lot>, order: seq<nat>, need: int): (w: Walk)
    requires ValidIdx(lots, order)
    ensures |w.lots| == |lots|
    decreases |order|
  {
    if order == [] || need <= 0 then Walk(lots, 0.0, need)
    else
      var i := order[0];
      var take := Min(need, lots[i].remaining);
      var rest := FifoWalk(lots[i := Drawn(lots[i], take)], order[1..], need - take);
      Walk(rest.lots, take as real * lots[i].unitCost + rest.cost, rest.unmet)
  }

  /** The walk `calculateFIFOCost` performs on a product's lots. */
  function Draw(lots: seq<Lot>, need: int): (w: Walk)
    ensures |w.lots| == |lots|
  {
    FifoWalk(lots, FifoOrder(lots), need)
  }

  /** What a walk may rely on: every listed lot exists, is listed once and has stock. */
  predicate WalkReady(lots: seq<Lot>, order: seq<nat>)
  {
    ValidIdx(lots, order) && Distinct(order) && AllPositive(lots, order)
  }

  /** Σ over the listed lots of their positive remainders. */
  function Supply(lots: seq<Lot>, order: seq<nat>): nat
    requires ValidIdx(lots, order)
    decreases |order|
  {
    if order == [] then 0 else Positive(lots[order[0]].remaining) + Supply(lots, order[1..])
  }

  /** Σ over the lots of (remainder before − remainder after) × unit cost. */
  function CostOf(before: seq<Lot>, after: seq<Lot>): real
    requires |before| == |after|
    decreases |before|
  {
    if before == [] then 0.0
    else (before[0].remaining - after[0].remaining) as real * before[0].unitCost +
         CostOf(before[1..], after[1..])
  }

  lemma {:induction false} CostOfSame(lots: seq<Lot>)
    ensures CostOf(lots, lots) == 0.0
    decreases |lots|
  {
    if lots != [] {
      CostOfSame(lots[1..]);
    }
  }

  /** Drawing `take` from one lot costs `take` at that lot's unit cost. */
  lemma {:induction false} CostOfSingle(lots: seq<Lot>, i: nat, take: int)
    requires i < |lots|
    ensures CostOf(lots, lots[i := Drawn(lots[i], take)]) == take as real * lots[i].unitCost
    decreases |lots|
  {
    var after := lots[i := Drawn(lots[i], take)];
    if i == 0 {
      assert after[1..] == lots[1..];
      CostOfSame(lots[1..]);
    } else {
      assert after[1..] == lots[1..][i - 1 := Drawn(lots[i], take)];
      CostOfSingle(lots[1..], i - 1, take);
    }
  }

  /** Costs of successive draws add up, provided the unit costs are the same. */
  lemma {:induction false} CostOfChain(a: seq<Lot>, b: seq<Lot>, c: seq<Lot>)
    requires |a| == |b| == |c|
    requires forall k :: 0 <= k < |a| ==> a[k].unitCost == b[k].unitCost
    ensures CostOf(a, b) + CostOf(b, c) == CostOf(a, c)
    decreases |a|
  {
    if a != [] {
      CostOfChain(a[1..], b[1..], c[1..]);
      var x, y, z, u := a[0].remaining as real, b[0].remaining as real, c[0].remaining as real, a[0].unitCost;
      assert (x - y) * u + (y - z) * u == (x - z) * u;
    }
  }

  /** Zeroing a lot that is not listed does not change the supply of the listed lots. */
  lemma {:induction false} SupplyFrame(lots: seq<Lot>, order: seq<nat>, i: nat, l: Lot)
    requires ValidIdx(lots, order) && i < |lots| && i !in order
    ensures Supply(lots[i := l], order) == Supply(lots, order)
    decreases |order|
  {
    if order != [] {
      assert forall x :: x in order[1..] ==> x in order;
      SupplyFrame(lots, order[1..], i, l);
    }
  }

  /** A listing of every stocked lot, each once, can supply everything the product has. */
  lemma {:induction false} SupplyIsAvailable(lots: seq<Lot>, order: seq<nat>)
    requires ValidIdx(lots, order) && Distinct(order) && CoversPositive(lots, order)
    ensures Supply(lots, order) == Available(lots)
    decreases |order|
  {
    if order == [] {
      AvailableNone(lots);
    } else {
      var i := order[0];
      var zeroed := lots[i := lots[i].(remaining := 0)];
      var tail := order[1..];
      assert i !in tail by {
        forall k | 0 <= k < |tail|
          ensures tail[k] != i
        {
          assert tail[k] == order[k + 1];
        }
      }
      forall j | 0 <= j < |zeroed| && zeroed[j].remaining > 0
        ensures j in tail
      {
        assert j in order && j != i;
        var k :| 0 <= k < |order| && order[k] == j;
        assert tail[k - 1] == j;
      }
      SupplyIsAvailable(zeroed, tail);
      SupplyFrame(lots, tail, i, lots[i].(remaining := 0));
      AvailableUpdate(lots, i, lots[i].(remaining := 0));
    }
  }

  lemma DistinctTail(order: seq<nat>)
    requires order != [] && Distinct(order)
    ensures Distinct(order[1..]) && order[0] !in order[1..]
  {
    forall k | 0 <= k < |order| - 1
      ensures order[1..][k] != order[0]
    {
      assert order[1..][k] == order[k + 1];
    }
  }

  /** One step of a walk: the next walk is ready again. */
  lemma StepReady(lots: seq<Lot>, order: seq<nat>, take: int)
    requires WalkReady(lots, order) && order != []
    ensures WalkReady(lots[order[0] := Drawn(lots[order[0]], take)], order[1..])
    ensures order[0] !in order[1..]
  {
    DistinctTail(order);
  }

  /** The walk changes nothing but remainders, changes only listed lots, and leaves every
      listed lot with a remainder between zero and what it had. */
  lemma {:induction false} WalkFrame(lots: seq<Lot>, order: seq<nat>, need: int)
    requires WalkReady(lots, order)
    ensures var after := FifoWalk(lots, order, need).lots;
      (forall j :: 0 <= j < |lots| ==> after[j] == lots[j].(remaining := after[j].remaining)) &&
      (forall j :: 0 <= j < |lots| && j !in order ==> after[j] == lots[j]) &&
      (forall j :: 0 <= j < |lots| && j in order ==> 0 <= after[j].remaining <= lots[j].remaining)
    decreases |order|
  {
    if order != [] && need > 0 {
      var i := order[0];
      var take := Min(need, lots[i].remaining);
      var next := lots[i := Drawn(lots[i], take)];
      StepReady(lots, order, take);
      WalkFrame(next, order[1..], need - take);
      var after := FifoWalk(lots, order, need).lots;
      assert after == FifoWalk(next, order[1..], need - take).lots;
      forall j | 0 <= j < |lots| && j in order
        ensures 0 <= after[j].remaining <= lots[j].remaining
      {
        if j != i {
          assert j in order[1..];
        }
      }
    }
  }

  /** The walk removes from the remainders exactly what it satisfied of the need. */
  lemma {:induction false} WalkConservation(lots: seq<Lot>, order: seq<nat>, need: int)
    requires ValidIdx(lots, order)
    ensures var w := FifoWalk(lots, order, need);
      TotalRemaining(w.lots) == TotalRemaining(lots) - (need - w.unmet)
    decreases |order|
  {
    if order != [] && need > 0 {
      var i := order[0];
      var take := Min(need, lots[i].remaining);
      TotalRemainingUpdate(lots, i, Drawn(lots[i], take));
      WalkConservation(lots[i := Drawn(lots[i], take)], order[1..], need - take);
    }
  }

  /** The accumulated cost is Σ taken × unit cost over the lots. */
  lemma {:induction false} WalkCost(lots: seq<Lot>, order: seq<nat>, need: int)
    requires ValidIdx(lots, order)
    ensures var w := FifoWalk(lots, order, need); w.cost == CostOf(lots, w.lots)
    decreases |order|
  {
    if order == [] || need <= 0 {
      CostOfSame(lots);
    } else {
      var i := order[0];
      var take := Min(need, lots[i].remaining);
      var next := lots[i := Drawn(lots[i], take)];
      var rest := FifoWalk(next, order[1..], need - take);
      assert FifoWalk(lots, order, need).cost == take as real * lots[i].unitCost + rest.cost;
      assert FifoWalk(lots, order, need).lots == rest.lots;
      WalkCost(next, order[1..], need - take);
      CostOfSingle(lots, i, take);
      CostOfChain(lots, next, rest.lots);
    }
  }

  /** A walk with a positive need stops short by exactly what the listed lots lack. */
  lemma {:induction false} WalkUnmet(lots: seq<Lot>, order: seq<nat>, need: int)
    requires WalkReady(lots, order)
    ensures var w := FifoWalk(lots, order, need);
      var s := Supply(lots, order);
      w.unmet == (if need <= 0 then need else if need <= s then 0 else need - s)
    decreases |order|
  {
    if order != [] && need > 0 {
      var i := order[0];
      var take := Min(need, lots[i].remaining);
      var next := lots[i := Drawn(lots[i], take)];
      StepReady(lots, order, take);
      WalkUnmet(next, order[1..], need - take);
      SupplyFrame(lots, order[1..], i, Drawn(lots[i], take));
    }
  }

  /** A lot later in the listing is drawn from only after every earlier one is empty. */
  lemma {:induction false} WalkDrains(lots: seq<Lot>, order: seq<nat>, need: int, a: nat, b: nat)
    requires WalkReady(lots, order) && a < b < |order|
    ensures var after := FifoWalk(lots, order, need).lots;
      after[order[b]].remaining < lots[order[b]].remaining ==> after[order[a]].remaining == 0
    decreases |order|
  {
    if need > 0 {
      var i := order[0];
      var take := Min(need, lots[i].remaining);
      var next := lots[i := Drawn(lots[i], take)];
      var tail := order[1..];
      var after := FifoWalk(lots, order, need).lots;
      StepReady(lots, order, take);
      assert after == FifoWalk(next, tail, need - take).lots;
      assert order[b] == tail[b - 1];
      if a == 0 {
        WalkFrame(next, tail, need - take);
        if take == need {
          assert after == next;
        }
      } else {
        assert order[a] == tail[a - 1];
        WalkDrains(next, tail, need - take, a - 1, b - 1);
      }
    }
  }

  // ---------- what `calculateFIFOCost` guarantees ----------

  /** The walk covers the need exactly when the lots with stock hold enough; then the
      remainders drop by exactly the need, and the cost is Σ taken × unit cost. */
  lemma DrawOutcome(lots: seq<Lot>, need: int)
    ensures var w := Draw(lots, need);
      w.unmet == (if need <= 0 then need else if need <= Available(lots) then 0 else need - Available(lots)) &&
      (need <= Available(lots) ==> TotalRemaining(w.lots) == TotalRemaining(lots) - Positive(need)) &&
      w.cost == CostOf(lots, w.lots)
  {
    var order := FifoOrder(lots);
    FifoOrderIsFifo(lots);
    SortedDistinct(lots, order);
    WalkUnmet(lots, order, need);
    SupplyIsAvailable(lots, order);
    WalkConservation(lots, order, need);
    WalkCost(lots, order, need);
  }

  /** Only remainders change; lots without stock are untouched; no remainder goes
      negative or grows. */
  lemma DrawFrame(lots: seq<Lot>, need: int)
    ensures var after := Draw(lots, need).lots;
      forall j :: 0 <= j < |lots| ==>
        after[j] == lots[j].(remaining := after[j].remaining) &&
        (lots[j].remaining <= 0 ==> after[j] == lots[j]) &&
        (lots[j].remaining > 0 ==> 0 <= after[j].remaining <= lots[j].remaining)
  {
    var order := FifoOrder(lots);
    FifoOrderIsFifo(lots);
    SortedDistinct(lots, order);
    WalkFrame(lots, order, need);
  }

  /** First in, first out: a lot is drawn from only once every stocked lot that precedes it
      in the stable date order is empty. */
  lemma DrawOldestFirst(lots: seq<Lot>, need: int, i: nat, j: nat)
    requires i < |lots| && j < |lots| && lots[i].remaining > 0 && Before(lots, i, j)
    ensures var after := Draw(lots, need).lots;
      after[j].remaining < lots[j].remaining ==> after[i].remaining == 0
  {
    var order := FifoOrder(lots);
    var after := FifoWalk(lots, order, need).lots;
    assert after == Draw(lots, need).lots;
    FifoOrderIsFifo(lots);
    assert IsFifoOrder(lots, order);
    SortedDistinct(lots, order);
    WalkFrame(lots, order, need);
    if after[j].remaining < lots[j].remaining {
      assert j in order;
      assert i in order;
      OldestFirstAlong(lots, order, need, i, j);
    }
  }

  /** The same along any sorted walk that lists both lots. */
  lemma OldestFirstAlong(lots: seq<Lot>, order: seq<nat>, need: int, i: nat, j: nat)
    requires WalkReady(lots, order) && SortedFifo(lots, order)
    requires i < |lots| && j < |lots| && i in order && j in order && Before(lots, i, j)
    ensures var after := FifoWalk(lots, order, need).lots;
      after[j].remaining < lots[j].remaining ==> after[i].remaining == 0
  {
    var a :| 0 <= a < |order| && order[a] == i;
    var b :| 0 <= b < |order| && order[b] == j;
    if a < b {
      WalkDrains(lots, order, need, a, b);
    }
  }
}
