/**
 The first version of the gas price algorithm: the execution price follows the fullness of
 the last block, by a fixed percentage per block.
 */
module GasPriceV0 {
  import opened Wrappers
  import opened Integers

  function Saturated(x: nat): (r: u64)
  {
    if x <= U64_MAX then x else U64_MAX
  }

  function Max(a: u64, b: u64): (r: u64)
  {
    if a < b then b else a
  }

  datatype Updater =
    Updater(newExecPrice: u64, minExecGasPrice: u64, changePercent: u64, l2BlockHeight: u32,
            fullnessThresholdPercent: u64)

  datatype SkippedL2Block = SkippedL2Block(expected: u32, got: u32)

  function New(price: u64, min: u64, percent: u64, height: u32, threshold: u64): (r: Updater)
  {
    Updater(Max(price, min), min, percent, height, threshold)
  }

  function ChangeAmount(u: Updater): (r: u64)
  {
    Saturated(u.newExecPrice * u.changePercent) / 100
  }

  lemma DivLess(x: nat, y: nat)
    requires y > 0
    ensures 0 <= x / y <= x
  {
    var q := x / y;
    assert x == y * q + x % y;
    MulLess(1, y, q);
  }

  function Fullness(used: u64, capacity: u64): (r: u64)
    requires capacity > 0
  {
    DivLess(Saturated(used * 100), capacity);
    Saturated(used * 100) / capacity
  }

  function UpdatedPrice(u: Updater, used: u64, capacity: u64): (r: u64)
    requires capacity > 0
  {
    PriceAt(u, Fullness(used, capacity))
  }

  function PriceAt(u: Updater, fullness: u64): (r: u64)
  {
    var change := ChangeAmount(u);
    var price :=
      if fullness >= u.fullnessThresholdPercent then Saturated(u.newExecPrice + change)
      else if change <= u.newExecPrice then u.newExecPrice - change else 0;
    Max(u.minExecGasPrice, price)
  }

  function ExpectedHeight(u: Updater): (r: u32)
  {
    if u.l2BlockHeight == U32_MAX then U32_MAX else u.l2BlockHeight + 1
  }

  // A block as the updater hears of it.
  datatype L2Block = L2Block(height: u32, used: u64, capacity: u64)

  function Updated(u: Updater, b: L2Block): (r: Result<Updater, SkippedL2Block>)
    requires b.capacity > 0
  {
    if b.height != ExpectedHeight(u) then Err(SkippedL2Block(ExpectedHeight(u), b.height))
    else Ok(u.(l2BlockHeight := b.height, newExecPrice := UpdatedPrice(u, b.used, b.capacity)))
  }

  /* ---------- one block ---------- */

  // The price never falls below the minimum.
  predicate Valid(u: Updater)
  {
    u.minExecGasPrice <= u.newExecPrice
  }

  lemma PercentOf(m: nat, p: nat)
    ensures Saturated(m) / 100 * 100 <= m
    ensures m <= 100 * p ==> Saturated(m) / 100 <= p
  {
  }

  lemma Distribute(p: nat, c: nat)
    ensures p * (100 + c) == 100 * p + p * c
    ensures c <= 100 ==> p * (100 - c) == 100 * p - p * c && p * c <= 100 * p
  {
    if c <= 100 {
      assert p * (100 - c) == 100 * p - p * c;
      assert p * (100 - c) >= 0;
    }
  }

  // A block changes the price by at most the percentage, in either direction, whatever
  // saturates and wherever the minimum intervenes.
  lemma StepBounds(u: Updater, used: u64, capacity: u64)
    requires Valid(u) && capacity > 0
    ensures UpdatedPrice(u, used, capacity) * 100 <= u.newExecPrice * (100 + u.changePercent)
    ensures u.changePercent <= 100 ==> UpdatedPrice(u, used, capacity) * 100 >= u.newExecPrice * (100 - u.changePercent)
    ensures UpdatedPrice(u, used, capacity) >= u.minExecGasPrice
  {
    PriceAtBounds(u, Fullness(used, capacity));
  }

  // The smaller and the larger of two numbers.
  function Least(a: int, b: int): (r: int)
    ensures r <= a && r <= b && (r == a || r == b)
  {
    if a <= b then a else b
  }

  function Most(a: int, b: int): (r: int)
    ensures r >= a && r >= b && (r == a || r == b)
  {
    if a <= b then b else a
  }

  lemma QuotientBelow(x: nat, y: nat, t: nat)
    requires y > 0
    ensures x / y < t <==> x < t * y
  {
    var q := x / y;
    assert x == q * y + x % y;
    if q < t {
      MulLess(q + 1, t, y);
      assert (q + 1) * y == q * y + y;
    } else {
      MulLess(t, q, y);
    }
  }

  // The exact step, in numbers: a block that is less full than the threshold lowers the price by the
  // percentage, any other raises it, within the range of the type and not below the minimum.
  lemma ExactStep(u: Updater, used: u64, capacity: u64)
    requires capacity > 0
    ensures var p, change := u.newExecPrice, Least(u.newExecPrice * u.changePercent, U64_MAX) / 100;
            UpdatedPrice(u, used, capacity)
            == Most(u.minExecGasPrice,
                    if Least(used * 100, U64_MAX) < u.fullnessThresholdPercent * capacity
                    then Most(p - change, 0) else Least(p + change, U64_MAX))
  {
    QuotientBelow(Least(used * 100, U64_MAX), capacity, u.fullnessThresholdPercent);
    StepAt(u, Fullness(used, capacity), Least(u.newExecPrice * u.changePercent, U64_MAX));
  }

  lemma StepAt(u: Updater, fullness: u64, m: nat)
    requires m == Least(u.newExecPrice * u.changePercent, U64_MAX)
    ensures PriceAt(u, fullness)
            == Most(u.minExecGasPrice,
                    if fullness < u.fullnessThresholdPercent then Most(u.newExecPrice - m / 100, 0)
                    else Least(u.newExecPrice + m / 100, U64_MAX))
  {
  }

  // An empty block lowers a price of 100 by ten percent, a full one raises it.
  lemma TenPercent()
    ensures var u := Updater(100, 0, 10, 0, 50);
            UpdatedPrice(u, 0, 100) == 90 && UpdatedPrice(u, 100, 100) == 110
  {
    var u := Updater(100, 0, 10, 0, 50);
    ExactStep(u, 0, 100);
    ExactStep(u, 100, 100);
  }

  lemma PriceAtBounds(u: Updater, fullness: u64)
    requires Valid(u)
    ensures PriceAt(u, fullness) * 100 <= u.newExecPrice * (100 + u.changePercent)
    ensures u.changePercent <= 100 ==> PriceAt(u, fullness) * 100 >= u.newExecPrice * (100 - u.changePercent)
    ensures PriceAt(u, fullness) >= u.minExecGasPrice
  {
    var m := u.newExecPrice * u.changePercent;
    ChangeIsPercent(u, m);
    PriceBounds(u, fullness, m);
    PercentSteps(u.newExecPrice, u.changePercent, PriceAt(u, fullness), m);
  }

  lemma ChangeIsPercent(u: Updater, m: nat)
    requires m == u.newExecPrice * u.changePercent
    ensures ChangeAmount(u) * 100 <= m
  {
    PercentOf(m, u.newExecPrice);
  }

  lemma PercentSteps(p: nat, c: nat, p': nat, m: nat)
    requires m == p * c && p' * 100 <= 100 * p + m && (m <= 100 * p ==> p' * 100 >= 100 * p - m)
    ensures p' * 100 <= p * (100 + c)
    ensures c <= 100 ==> p' * 100 >= p * (100 - c)
  {
    Distribute(p, c);
  }

  lemma PriceBounds(u: Updater, fullness: u64, m: nat)
    requires Valid(u) && ChangeAmount(u) * 100 <= m
    ensures PriceAt(u, fullness) * 100 <= 100 * u.newExecPrice + m
    ensures m <= 100 * u.newExecPrice ==> PriceAt(u, fullness) * 100 >= 100 * u.newExecPrice - m
    ensures PriceAt(u, fullness) >= u.minExecGasPrice
  {
  }

  /* ---------- runs ---------- */

  function Pow(b: nat, n: nat): (r: nat)
  {
    if n == 0 then 1 else b * Pow(b, n - 1)
  }

  lemma {:induction false} PowPositive(b: nat, n: nat)
    requires b > 0
    ensures Pow(b, n) > 0
  {
    if n > 0 {
      PowPositive(b, n - 1);
    }
  }

  // The state after a run of blocks, all of which the updater accepts.
  function Run(u: Updater, blocks: seq<L2Block>): (r: Updater)
    requires forall i :: 0 <= i < |blocks| ==> blocks[i].capacity > 0
  {
    if blocks == [] then u
    else
      var before := Run(u, blocks[..|blocks| - 1]);
      var after := Updated(before, blocks[|blocks| - 1]);
      if after.Ok? then after.value else before
  }

  predicate Accepted(u: Updater, blocks: seq<L2Block>)
    requires forall i :: 0 <= i < |blocks| ==> blocks[i].capacity > 0
  {
    forall i :: 0 <= i < |blocks| ==> Updated(Run(u, blocks[..i]), blocks[i]).Ok?
  }

  lemma AcceptedInit(u: Updater, blocks: seq<L2Block>)
    requires blocks != [] && forall i :: 0 <= i < |blocks| ==> blocks[i].capacity > 0
    requires Accepted(u, blocks)
    ensures Accepted(u, blocks[..|blocks| - 1])
    ensures Updated(Run(u, blocks[..|blocks| - 1]), blocks[|blocks| - 1]).Ok?
  {
    var init := blocks[..|blocks| - 1];
    forall i | 0 <= i < |init| ensures Updated(Run(u, init[..i]), init[i]).Ok? {
      assert init[..i] == blocks[..i];
    }
  }

  // A run keeps the parameters; as long as the height does not stick at its maximum, it counts
  // the blocks.
  lemma {:induction false} RunKeeps(u: Updater, blocks: seq<L2Block>)
    requires forall i :: 0 <= i < |blocks| ==> blocks[i].capacity > 0
    requires Accepted(u, blocks) && Valid(u)
    ensures var r := Run(u, blocks);
            && r.minExecGasPrice == u.minExecGasPrice && r.changePercent == u.changePercent && Valid(r)
            && (u.l2BlockHeight + |blocks| <= U32_MAX ==> r.l2BlockHeight == u.l2BlockHeight + |blocks|)
    decreases |blocks|
  {
    if blocks != [] {
      AcceptedInit(u, blocks);
      RunKeeps(u, blocks[..|blocks| - 1]);
      var before := Run(u, blocks[..|blocks| - 1]);
      StepBounds(before, blocks[|blocks| - 1].used, blocks[|blocks| - 1].capacity);
    }
  }

  lemma Compound(p: nat, p': nat, p0: nat, c: nat, a: nat, b: nat)
    requires p * a <= p0 * b && p' * 100 <= p * (100 + c)
    ensures p' * (100 * a) <= p0 * ((100 + c) * b)
  {
    calc {
      p' * (100 * a);
    == { MulAssoc(p', 100, a); }
      (p' * 100) * a;
    <= { MulLess(p' * 100, p * (100 + c), a); }
      (p * (100 + c)) * a;
    == { Regroup(p, 100 + c, a); }
      (p * a) * (100 + c);
    <= { MulLess(p * a, p0 * b, 100 + c); }
      (p0 * b) * (100 + c);
    == { Regroup2(p0, b, 100 + c); }
      p0 * ((100 + c) * b);
    }
  }

  lemma CompoundDown(p: nat, p': nat, p0: nat, d: nat, a: nat, b: nat)
    requires p * a >= p0 * b && p' * 100 >= p * d
    ensures p' * (100 * a) >= p0 * (d * b)
  {
    calc {
      p' * (100 * a);
    == { MulAssoc(p', 100, a); }
      (p' * 100) * a;
    >= { MulLess(p * d, p' * 100, a); }
      (p * d) * a;
    == { Regroup(p, d, a); }
      (p * a) * d;
    >= { MulLess(p0 * b, p * a, d); }
      (p0 * b) * d;
    == { Regroup2(p0, b, d); }
      p0 * (d * b);
    }
  }

  lemma MulAssoc(x: nat, y: nat, z: nat)
    ensures x * (y * z) == (x * y) * z
  {
  }

  lemma MulLess(x: nat, y: nat, z: nat)
    requires x <= y
    ensures x * z <= y * z
  {
  }

  lemma Regroup(x: nat, y: nat, z: nat)
    ensures (x * y) * z == (x * z) * y
  {
  }

  lemma Regroup2(x: nat, y: nat, z: nat)
    ensures (x * y) * z == x * (z * y)
  {
  }

  // `p` is within `n` steps of `c` percent of `p0`, from above and (if that makes sense) from below.
  ghost predicate Within(p: nat, p0: nat, c: nat, n: nat)
  {
    && p * Pow(100, n) <= p0 * Pow(100 + c, n)
    && (c <= 100 ==> p * Pow(100, n) >= p0 * Pow(100 - c, n))
  }

  lemma WithinStep(p: nat, p': nat, p0: nat, c: nat, n: nat)
    requires Within(p, p0, c, n)
    requires p' * 100 <= p * (100 + c)
    requires c <= 100 ==> p' * 100 >= p * (100 - c)
    ensures Within(p', p0, c, n + 1)
  {
    Compound(p, p', p0, c, Pow(100, n), Pow(100 + c, n));
    if c <= 100 {
      CompoundDown(p, p', p0, 100 - c, Pow(100, n), Pow(100 - c, n));
    }
  }

  lemma LastStep(u: Updater, before: Updater, after: Updater, b: L2Block, n: nat)
    requires n > 0 && b.capacity > 0 && Updated(before, b) == Ok(after)
    requires Valid(before) && before.changePercent == u.changePercent
    requires Within(before.newExecPrice, u.newExecPrice, u.changePercent, n - 1)
    ensures Within(after.newExecPrice, u.newExecPrice, u.changePercent, n)
  {
    StepBounds(before, b.used, b.capacity);
    WithinStep(before.newExecPrice, after.newExecPrice, u.newExecPrice, u.changePercent, n - 1);
  }

  // Compounding: after k blocks the price is within k percentage steps of where it started.
  lemma {:induction false} CompoundBounds(u: Updater, blocks: seq<L2Block>)
    requires forall i :: 0 <= i < |blocks| ==> blocks[i].capacity > 0
    requires Accepted(u, blocks) && Valid(u)
    ensures Within(Run(u, blocks).newExecPrice, u.newExecPrice, u.changePercent, |blocks|)
    decreases |blocks|
  {
    if blocks != [] {
      var init := blocks[..|blocks| - 1];
      AcceptedInit(u, blocks);
      CompoundBounds(u, init);
      RunKeeps(u, init);
      LastStep(u, Run(u, init), Run(u, blocks), blocks[|blocks| - 1], |blocks|);
    }
  }

  /* ---------- the worst case ---------- */

  datatype Algorithm = Algorithm(newExecPrice: u64, forHeight: u32, percentage: u64)

  function AlgorithmOf(u: Updater): (r: Algorithm)
  {
    Algorithm(u.newExecPrice, u.l2BlockHeight, u.changePercent)
  }

  function CeilDiv(x: nat, y: nat): (r: nat)
    requires y > 0
  {
    if x % y == 0 then x / y else x / y + 1
  }

  lemma CeilDivBounds(p: nat, x: nat, y: nat)
    requires y > 0
    ensures p * y <= x ==> p <= CeilDiv(x, y)
    ensures x <= CeilDiv(x, y) * y
  {
    var q, r := x / y, x % y;
    assert x == q * y + r;
    assert (q + 1) * y == q * y + y;
    if p * y <= x && p > q {
      MulLess(q + 1, p, y);
    }
  }

  // `worst_case` in exact arithmetic: the price compounded over the blocks in between, rounded
  // up and capped.
  function WorstCase(a: Algorithm, height: u32): (r: u64)
  {
    var blocks := if height <= a.forHeight then 0 else height - a.forHeight;
    PowPositive(100, blocks);
    Saturated(CeilDiv(a.newExecPrice * Pow(100 + a.percentage, blocks), Pow(100, blocks)))
  }

  // The worst case is the compounded price rounded up: it exceeds it by less than one, unless capped.
  lemma WorstCaseIs(a: Algorithm, height: u32)
    ensures var n: nat := if height <= a.forHeight then 0 else height - a.forHeight;
            var w := WorstCase(a, height);
            && (w < U64_MAX ==> a.newExecPrice * Pow(100 + a.percentage, n) <= w * Pow(100, n))
            && (w > 0 ==> (w - 1) * Pow(100, n) < a.newExecPrice * Pow(100 + a.percentage, n))
  {
    var n: nat := if height <= a.forHeight then 0 else height - a.forHeight;
    PowPositive(100, n);
    RoundedUp(a.newExecPrice * Pow(100 + a.percentage, n), Pow(100, n), WorstCase(a, height));
  }

  lemma RoundedUp(x: nat, y: nat, w: u64)
    requires y > 0 && w == Saturated(CeilDiv(x, y))
    ensures w < U64_MAX ==> x <= w * y
    ensures w == 0 || (w - 1) * y < x
  {
    var c := CeilDiv(x, y);
    CeilDivBounds(0, x, y);
    CeilDivTight(x, y);
    if w > 0 {
      MulLess(w - 1, c - 1, y);
    }
  }

  lemma CeilDivTight(x: nat, y: nat)
    requires y > 0
    ensures var c := CeilDiv(x, y);
            c > 0 ==> (c - 1) * y < x
  {
    var q, r := x / y, x % y;
    assert x == q * y + r;
    if r == 0 && q > 0 {
      assert (q - 1) * y == q * y - y;
    }
  }

  // The price after any run of accepted blocks is at most the worst case predicted for that
  // height at the start.
  lemma WorstCaseHolds(u: Updater, blocks: seq<L2Block>)
    requires forall i :: 0 <= i < |blocks| ==> blocks[i].capacity > 0
    requires Accepted(u, blocks) && Valid(u)
    requires u.l2BlockHeight + |blocks| <= U32_MAX
    ensures Run(u, blocks).newExecPrice <= WorstCase(AlgorithmOf(u), Run(u, blocks).l2BlockHeight)
  {
    RunKeeps(u, blocks);
    CompoundBounds(u, blocks);
    WorstCaseAt(u, Run(u, blocks), |blocks|);
  }

  lemma WorstCaseAt(u: Updater, r: Updater, n: nat)
    requires Within(r.newExecPrice, u.newExecPrice, u.changePercent, n)
    requires r.l2BlockHeight == u.l2BlockHeight + n
    ensures r.newExecPrice <= WorstCase(AlgorithmOf(u), r.l2BlockHeight)
  {
    WorstCaseCovers(r.newExecPrice, AlgorithmOf(u), n);
  }

  lemma WorstCaseCovers(p: u64, a: Algorithm, n: nat)
    requires Within(p, a.newExecPrice, a.percentage, n) && a.forHeight + n <= U32_MAX
    ensures p <= WorstCase(a, a.forHeight + n)
  {
    PowPositive(100, n);
    CeilDivBounds(p, a.newExecPrice * Pow(100 + a.percentage, n), Pow(100, n));
  }

  // At the largest height the updater accepts blocks without counting them. There the prediction
  // holds for the next block exactly when that block does not raise the price.
  lemma WorstCaseHoldsIff(u: Updater, b: L2Block)
    requires Valid(u) && b.capacity > 0 && Updated(u, b).Ok?
    ensures Updated(u, b).value.newExecPrice <= WorstCase(AlgorithmOf(u), Updated(u, b).value.l2BlockHeight)
            <==> u.l2BlockHeight < U32_MAX || Fullness(b.used, b.capacity) < u.fullnessThresholdPercent
                 || ChangeAmount(u) == 0 || u.newExecPrice == U64_MAX
  {
    if u.l2BlockHeight < U32_MAX {
      assert [b][..0] == [];
      assert Run(u, [b][..0]) == u;
      assert Run(u, [b]) == Updated(u, b).value;
      WorstCaseHolds(u, [b]);
    } else {
      assert WorstCase(AlgorithmOf(u), U32_MAX) == u.newExecPrice;
    }
  }

  // A full block at the largest height raises the price by ten percent over the prediction.
  lemma WorstCaseIsExceeded()
    ensures var u, b := Updater(100, 0, 10, U32_MAX, 50), L2Block(U32_MAX, 100, 100);
            && Valid(u) && Updated(u, b).Ok?
            && Updated(u, b).value.newExecPrice == 110
            && WorstCase(AlgorithmOf(u), Updated(u, b).value.l2BlockHeight) == 100
  {
    var u := Updater(100, 0, 10, U32_MAX, 50);
    assert Fullness(100, 100) == 100;
    assert Pow(100 + 10, 0) == 1 && Pow(100, 0) == 1;
    assert WorstCase(AlgorithmOf(u), U32_MAX) == 100;
  }

  /** The updater as it runs. */
  class AlgorithmUpdaterV0 {
    var newExecPrice: u64
    const minExecGasPrice: u64
    const changePercent: u64
    var l2BlockHeight: u32
    const fullnessThresholdPercent: u64

    ghost function View(): Updater
      reads this
    {
      Updater(newExecPrice, minExecGasPrice, changePercent, l2BlockHeight, fullnessThresholdPercent)
    }

    constructor (price: u64, min: u64, percent: u64, height: u32, threshold: u64)
      ensures View() == New(price, min, percent, height, threshold) && Valid(View())
      ensures newExecPrice == Most(price, min) && l2BlockHeight == height
    {
      newExecPrice := Max(price, min);
      minExecGasPrice, changePercent, l2BlockHeight, fullnessThresholdPercent := min, percent, height, threshold;
    }

    // A skipped block is refused and changes nothing.
    method UpdateL2BlockData(height: u32, used: u64, capacity: u64) returns (error: Option<SkippedL2Block>)
      requires capacity > 0
      modifies this
      ensures error == None <==> height == Least(old(l2BlockHeight) + 1, U32_MAX)
      ensures error.Some? ==> error.value == SkippedL2Block(Least(old(l2BlockHeight) + 1, U32_MAX), height)
      ensures match Updated(old(View()), L2Block(height, used, capacity))
              case Ok(u) => error == None && View() == u
              case Err(e) => error == Some(e) && View() == old(View())
    {
      var expected := if l2BlockHeight == U32_MAX then U32_MAX else l2BlockHeight + 1;
      if height != expected {
        return Some(SkippedL2Block(expected, height));
      }
      UpdateExecGasPrice(used, capacity);
      l2BlockHeight := height;
      error := None;
    }

    method UpdateExecGasPrice(used: u64, capacity: u64)
      requires capacity > 0
      modifies this`newExecPrice
      ensures newExecPrice == UpdatedPrice(old(View()), used, capacity)
    {
      var price := newExecPrice;
      var change := Saturated(price * changePercent) / 100;
      if Fullness(used, capacity) >= fullnessThresholdPercent {
        price := Saturated(price + change);
      } else {
        price := if change <= price then price - change else 0;
      }
      newExecPrice := Max(minExecGasPrice, price);
    }
  }
}
