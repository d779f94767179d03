/**
 Selecting the coins that pay for a transaction: largest first, random improvement, and the
 selection over the index of coins to spend.
 */
module CoinsQuery {
  import opened Wrappers
  import opened Integers
  import opened Coins

  datatype AssetSpendTarget = AssetSpendTarget(target: u128, max: u16, allowPartial: bool)

  datatype QueryError = InsufficientCoins(collected: nat) | MaxCoinsReached(collected: nat, max: u16)

  // `bag` holds at most `max` coins that cover the target.
  ghost predicate Covers(bag: multiset<Coin>, q: AssetSpendTarget)
  {
    |bag| <= q.max && q.target <= Worth(bag)
  }

  ghost predicate Coverable(coins: multiset<Coin>, q: AssetSpendTarget)
  {
    exists bag: multiset<Coin> :: bag <= coins && Covers(bag, q)
  }

  /* ---------- taking coins until told to stop ---------- */

  // When to stop taking coins: once enough is collected, once a further coin does not improve
  // the change, or at a given coin.
  datatype Stop = Reached(total: nat) | NoImprovement(target: u128) | Is(coin: Coin)

  // Whether to stop at coin `c` with `collected` taken before it.
  predicate Stops(stop: Stop, c: Coin, collected: nat)
  {
    match stop
    case Reached(total) => collected >= total
    case Is(coin) => c == coin
    case NoImprovement(target) =>
      && collected >= target
      && (|| collected >= U64_MAX
          || c.amount > Doubled(target)
          || AbsDiff(target, collected - target + c.amount) >= AbsDiff(target, collected - target))
  }

  function AbsDiff(a: nat, b: nat): (r: nat)
  {
    if a <= b then b - a else a - b
  }

  function Doubled(target: u128): (r: u128)
  {
    if 2 * target <= U128_MAX then 2 * target else U128_MAX
  }

  // How many coins are taken, given that `n` have been: no more than `max`, and none from the
  // first one on at which to stop.
  function StopAt(s: seq<Coin>, max: nat, stop: Stop, n: nat): (r: nat)
    requires n <= |s|
    ensures n <= r <= |s|
    ensures n <= max ==> r <= max
    decreases |s| - n
  {
    if n == |s| || n >= max || Stops(stop, s[n], Sum(s[..n])) then n else StopAt(s, max, stop, n + 1)
  }

  lemma {:induction false} StopAtIsFirst(s: seq<Coin>, max: nat, stop: Stop, n: nat, i: nat)
    requires n <= |s|
    ensures var r := StopAt(s, max, stop, n);
            && (r == |s| || r >= max || Stops(stop, s[r], Sum(s[..r])))
            && (n <= i < r ==> !Stops(stop, s[i], Sum(s[..i])))
    decreases |s| - n
  {
    if n < StopAt(s, max, stop, n) {
      StopAtIsFirst(s, max, stop, n + 1, i);
    }
  }

  function Taken(s: seq<Coin>, max: nat, stop: Stop): (r: seq<Coin>)
  {
    s[..StopAt(s, max, stop, 0)]
  }

  /* ---------- largest first ---------- */

  function LargestFirstOf(s: seq<Coin>, q: AssetSpendTarget): (r: Result<seq<Coin>, QueryError>)
  {
    var coins := Taken(s, q.max, Reached(q.target));
    if Sum(coins) >= q.target then Ok(coins)
    else if |coins| < |s| then
      if q.allowPartial then Ok(coins) else Err(MaxCoinsReached(Sum(coins), q.max))
    else
      if q.allowPartial && Sum(coins) > 0 then Ok(coins) else Err(InsufficientCoins(Sum(coins)))
  }

  method LargestFirst(inputs: seq<Coin>, q: AssetSpendTarget) returns (r: Result<seq<Coin>, QueryError>)
    ensures r == LargestFirstOf(SortDescending(inputs), q)
  {
    r := TakeLargest(SortDescending(inputs), q);
  }

  method TakeLargest(s: seq<Coin>, q: AssetSpendTarget) returns (r: Result<seq<Coin>, QueryError>)
    ensures r == LargestFirstOf(s, q)
  {
    var collected: u128, coins, i := 0, [], 0;
    while i < |s|
      invariant 0 <= i <= |s| && i <= q.max && coins == s[..i] && collected == Sum(coins)
      invariant StopAt(s, q.max, Reached(q.target), 0) == StopAt(s, q.max, Reached(q.target), i)
    {
      if collected >= q.target {
        break;
      }
      if |coins| >= q.max {
        if q.allowPartial {
          return Ok(coins);
        } else {
          return Err(MaxCoinsReached(collected, q.max));
        }
      }
      NeverSaturates(coins, s[i]);
      SumNext(s, i);
      collected := SaturatingAdd(collected, s[i].amount);
      coins := coins + [s[i]];
      i := i + 1;
    }
    if collected < q.target {
      if q.allowPartial && collected > 0 {
        return Ok(coins);
      } else {
        return Err(InsufficientCoins(collected));
      }
    }
    r := Ok(coins);
  }

  // Largest first succeeds exactly when some selection of at most `max` coins covers the
  // target, and no selection that covers the target is smaller.
  lemma LargestFirstIsOptimal(s: seq<Coin>, q: AssetSpendTarget)
    requires Descending(s) && !q.allowPartial
    ensures LargestFirstOf(s, q).Ok? <==> Coverable(multiset(s), q)
    ensures LargestFirstOf(s, q).Ok? ==>
              var coins := LargestFirstOf(s, q).value;
              && coins <= s && Covers(multiset(coins), q)
              && (forall bag: multiset<Coin> :: bag <= multiset(s) && q.target <= Worth(bag) ==> |coins| <= |bag|)
    ensures LargestFirstOf(s, q).Err? ==>
              LargestFirstOf(s, q).error ==
                if |s| <= q.max then InsufficientCoins(Sum(s)) else MaxCoinsReached(Sum(s[..q.max]), q.max)
  {
    LargestFirstOutcome(s, q);
    var n := StopAt(s, q.max, Reached(q.target), 0);
    if Sum(s[..n]) >= q.target {
      PrefixCovers(s, q, n);
    }
    forall bag: multiset<Coin> | bag <= multiset(s) && q.target <= Worth(bag)
      ensures n <= |bag| && (Sum(s[..n]) < q.target ==> q.max < |bag|)
    {
      CoveringBagIsLarge(s, q, bag);
    }
  }

  lemma LargestFirstOutcome(s: seq<Coin>, q: AssetSpendTarget)
    requires !q.allowPartial
    ensures var n := StopAt(s, q.max, Reached(q.target), 0);
            LargestFirstOf(s, q)
            == if Sum(s[..n]) >= q.target then Ok(s[..n])
               else if |s| <= q.max then Err(InsufficientCoins(Sum(s)))
               else Err(MaxCoinsReached(Sum(s[..q.max]), q.max))
  {
    ShortOfTarget(s, q);
  }

  // Short of the target, all coins within the limit were taken.
  lemma ShortOfTarget(s: seq<Coin>, q: AssetSpendTarget)
    ensures var coins := Taken(s, q.max, Reached(q.target));
            Sum(coins) < q.target ==> coins == if |s| <= q.max then s else s[..q.max]
  {
    StopAtIsFirst(s, q.max, Reached(q.target), 0, 0);
    assert s[..|s|] == s;
  }

  lemma PrefixCovers(s: seq<Coin>, q: AssetSpendTarget, n: nat)
    requires n <= |s| && n <= q.max && q.target <= Sum(s[..n])
    ensures multiset(s[..n]) <= multiset(s) && Covers(multiset(s[..n]), q)
  {
    WorthOfSeq(s[..n]);
    PrefixBag(s, n);
  }

  lemma CoveringBagIsLarge(s: seq<Coin>, q: AssetSpendTarget, bag: multiset<Coin>)
    requires Descending(s) && bag <= multiset(s) && q.target <= Worth(bag)
    ensures var n := StopAt(s, q.max, Reached(q.target), 0);
            n <= |bag| && (Sum(s[..n]) < q.target ==> q.max < |bag|)
  {
    var n := StopAt(s, q.max, Reached(q.target), 0);
    BagSize(bag, s);
    TopCoinsAreWorthMost(s, bag, |bag|);
    StopAtIsFirst(s, q.max, Reached(q.target), 0, |bag|);
    if Sum(s[..n]) < q.target && |bag| <= n {
      SumPrefixes(s, |bag|, n);
    }
  }

  // Allowing partial results only matters where there would be an error: then all coins within the
  // limit are given, unless there are no more than the limit and they are worth nothing.
  lemma PartialInsteadOfError(s: seq<Coin>, q: AssetSpendTarget)
    requires q.allowPartial
    ensures var strict := LargestFirstOf(s, q.(allowPartial := false));
            LargestFirstOf(s, q)
            == if strict.Ok? then strict
               else if |s| <= q.max then (if Sum(s) > 0 then Ok(s) else Err(InsufficientCoins(0)))
               else Ok(s[..q.max])
  {
    ShortOfTarget(s, q);
  }

  // With partial results on, largest first only fails if there is nothing to give, and a result
  // that misses the target is worth as much as any selection within the limit.
  lemma PartialResultIsBest(s: seq<Coin>, q: AssetSpendTarget)
    requires Descending(s) && q.allowPartial
    ensures LargestFirstOf(s, q).Err? <==> q.target > 0 && |s| <= q.max && Sum(s) == 0
    ensures LargestFirstOf(s, q).Err? ==> LargestFirstOf(s, q).error == InsufficientCoins(0)
    ensures LargestFirstOf(s, q).Ok? && Sum(LargestFirstOf(s, q).value) < q.target ==>
              forall bag: multiset<Coin> :: bag <= multiset(s) && |bag| <= q.max ==>
                Worth(bag) <= Sum(LargestFirstOf(s, q).value)
  {
    PartialFailsIff(s, q);
    var coins := Taken(s, q.max, Reached(q.target));
    ShortOfTarget(s, q);
    if Sum(coins) < q.target {
      forall bag: multiset<Coin> | bag <= multiset(s) && |bag| <= q.max ensures Worth(bag) <= Sum(coins) {
        BagSize(bag, s);
        assert s[..|coins|] == coins;
        TopCoinsAreWorthMost(s, bag, |coins|);
      }
    }
  }

  lemma PartialFailsIff(s: seq<Coin>, q: AssetSpendTarget)
    requires q.allowPartial
    ensures LargestFirstOf(s, q).Err? <==> q.target > 0 && |s| <= q.max && Sum(s) == 0
    ensures LargestFirstOf(s, q).Err? ==> LargestFirstOf(s, q).error == InsufficientCoins(0)
    ensures LargestFirstOf(s, q).Ok? ==> LargestFirstOf(s, q).value == Taken(s, q.max, Reached(q.target))
  {
    var coins := Taken(s, q.max, Reached(q.target));
    ShortOfTarget(s, q);
    SumPrefixes(s, |coins|, |s|);
    assert s[..|s|] == s;
  }

  lemma PrefixBag(s: seq<Coin>, n: nat)
    requires n <= |s|
    ensures multiset(s[..n]) <= multiset(s)
  {
    assert s == s[..n] + s[n..];
  }

  /* ---------- random improvement ---------- */

  // How far the change is from the target, once the target is covered.
  function Distance(target: nat, collected: nat): (r: nat)
    requires target <= collected
  {
    var change := collected - target;
    if change <= target then target - change else change - target
  }

  // If the first `n` coins cover the target, the next one brings the change closer to it.
  ghost predicate ImprovesAt(coins: seq<Coin>, target: nat, n: nat)
    requires n < |coins|
  {
    target <= Sum(coins[..n]) ==>
      Distance(target, Sum(coins[..n]) + coins[n].amount) < Distance(target, Sum(coins[..n]))
  }

  ghost predicate Improving(coins: seq<Coin>, target: nat)
  {
    forall n :: 0 <= n < |coins| ==> ImprovesAt(coins, target, n)
  }

  // With an improvement coin on top the selection is worth less than three times the target.
  lemma {:induction false} ImprovementIsBounded(coins: seq<Coin>, target: nat, n: nat)
    requires Improving(coins, target)
    requires n < |coins| && target <= Sum(coins[..n])
    ensures Sum(coins) < 3 * target
    decreases |coins| - n
  {
    assert ImprovesAt(coins, target, n);
    SumNext(coins, n);
    if n + 1 == |coins| {
      assert coins[..n + 1] == coins;
    } else {
      ImprovementIsBounded(coins, target, n + 1);
    }
  }

  // The upper limit on a further coin never decides: a coin above it would not improve the change.
  lemma UpperLimitIsRedundant(target: u128, c: Coin, collected: nat)
    requires target <= collected && c.amount > Doubled(target)
    ensures Distance(target, collected + c.amount) >= Distance(target, collected)
  {
  }

  // One asset: `shuffled` is a random order of the inputs.
  function RandomImproveOf(inputs: seq<Coin>, shuffled: seq<Coin>, q: AssetSpendTarget)
    : (r: Result<seq<Coin>, QueryError>)
  {
    var coins := Taken(shuffled, q.max, NoImprovement(q.target));
    if Sum(coins) < q.target then LargestFirstOf(SortDescending(inputs), q) else Ok(coins)
  }

  method RandomImproveAsset(inputs: seq<Coin>, shuffled: seq<Coin>, q: AssetSpendTarget)
    returns (r: Result<seq<Coin>, QueryError>)
    ensures r == RandomImproveOf(inputs, shuffled, q)
  {
    // the shuffled inputs are truncated to `max`
    var limit := if |shuffled| <= q.max then |shuffled| else q.max;
    ghost var stop := NoImprovement(q.target);
    var collected: u128, coins, i := 0, [], 0;
    var upperTarget := Doubled(q.target);
    while i < limit
      invariant 0 <= i <= limit && coins == shuffled[..i] && collected == Sum(coins)
      invariant StopAt(shuffled, q.max, stop, 0) == StopAt(shuffled, q.max, stop, i)
    {
      var coin := shuffled[i];
      NeverSaturates(coins, coin);
      if collected >= q.target {
        if collected >= U64_MAX || coin.amount > upperTarget {
          break;
        }
        var change := collected - q.target;
        var distance := AbsDiff(q.target, change);
        var nextDistance := AbsDiff(q.target, SaturatingAdd(change, coin.amount));
        if nextDistance >= distance {
          break;
        }
      }
      SumNext(shuffled, i);
      collected := SaturatingAdd(collected, coin.amount);
      coins := coins + [coin];
      i := i + 1;
    }
    assert StopAt(shuffled, q.max, stop, i) == i;
    if collected < q.target {
      r := LargestFirst(inputs, q);
    } else {
      r := Ok(coins);
    }
  }

  // A result that is as it should be: an asset is served exactly when some selection of at
  // most `max` coins covers the target, or with partial results unless there is nothing to give;
  // what is selected covers the target, and coins beyond
  // that each bring the change closer to the target.
  ghost predicate Sound(r: Result<seq<Coin>, QueryError>, coins: multiset<Coin>, q: AssetSpendTarget)
  {
    && (!q.allowPartial ==> (r.Ok? <==> Coverable(coins, q)))
    && (r.Ok? ==> multiset(r.value) <= coins && |r.value| <= q.max && Improving(r.value, q.target))
    && (r.Ok? && !q.allowPartial ==> q.target <= Sum(r.value))
    && (q.allowPartial ==> (r.Err? <==> q.target > 0 && |coins| <= q.max && Worth(coins) == 0))
    && (q.allowPartial && r.Err? ==> r.error == InsufficientCoins(0))
  }

  // The coins that the random selection takes, given a shuffle whose first coins cover the target:
  // it goes on exactly as long as the next coin brings the change closer to the target, up to the
  // limit and to `u64::MAX`.
  ghost predicate GoesOn(coins: seq<Coin>, shuffled: seq<Coin>, q: AssetSpendTarget)
  {
    var n := |coins|;
    && coins <= shuffled && n <= q.max && q.target <= Sum(coins)
    && (|| n == |shuffled| || n == q.max || Sum(coins) >= U64_MAX
        || Distance(q.target, Sum(coins) + shuffled[n].amount) >= Distance(q.target, Sum(coins)))
    && (forall i :: 0 <= i < n && q.target <= Sum(coins[..i]) ==> Sum(coins[..i]) < U64_MAX)
  }

  lemma TakenGoesOn(shuffled: seq<Coin>, q: AssetSpendTarget)
    requires q.target <= Sum(shuffled[..if |shuffled| <= q.max then |shuffled| else q.max])
    ensures GoesOn(Taken(shuffled, q.max, NoImprovement(q.target)), shuffled, q)
  {
    var stop := NoImprovement(q.target);
    var coins := Taken(shuffled, q.max, stop);
    var n := |coins|;
    StopAtIsFirst(shuffled, q.max, stop, 0, 0);
    forall i | 0 <= i < n && q.target <= Sum(coins[..i]) ensures Sum(coins[..i]) < U64_MAX {
      assert coins[..i] == shuffled[..i];
      StopAtIsFirst(shuffled, q.max, stop, 0, i);
    }
    if n < |shuffled| && n < q.max && shuffled[n].amount > Doubled(q.target) {
      UpperLimitIsRedundant(q.target, shuffled[n], Sum(coins));
    }
  }

  // Randomness does not decide the outcome: the result is sound for every shuffle.
  lemma RandomnessDoesNotDecide(inputs: seq<Coin>, shuffled: seq<Coin>, q: AssetSpendTarget)
    requires multiset(shuffled) == multiset(inputs)
    ensures Sound(RandomImproveOf(inputs, shuffled, q), multiset(inputs), q)
    ensures var r := RandomImproveOf(inputs, shuffled, q);
            r.Err? ==> r == LargestFirstOf(SortDescending(inputs), q)
    ensures var r := RandomImproveOf(inputs, shuffled, q);
            if q.target <= Sum(shuffled[..if |shuffled| <= q.max then |shuffled| else q.max])
            then r.Ok? && GoesOn(r.value, shuffled, q)
            else r == LargestFirstOf(SortDescending(inputs), q)
  {
    var n := StopAt(shuffled, q.max, NoImprovement(q.target), 0);
    var m := if |shuffled| <= q.max then |shuffled| else q.max;
    if q.target <= Sum(shuffled[..m]) {
      TakenGoesOn(shuffled, q);
      ImprovedIsSound(shuffled, q);
    } else {
      SumPrefixes(shuffled, n, m);
      FallbackIsSound(SortDescending(inputs), q);
    }
  }

  lemma ImprovedIsSound(shuffled: seq<Coin>, q: AssetSpendTarget)
    requires q.target <= Sum(Taken(shuffled, q.max, NoImprovement(q.target)))
    ensures Sound(Ok(Taken(shuffled, q.max, NoImprovement(q.target))), multiset(shuffled), q)
  {
    var n := StopAt(shuffled, q.max, NoImprovement(q.target), 0);
    PrefixCovers(shuffled, q, n);
    PrefixWorth(shuffled, n);
    TakenImproves(shuffled, q);
  }

  lemma PrefixWorth(s: seq<Coin>, n: nat)
    requires n <= |s|
    ensures Sum(s[..n]) <= Worth(multiset(s))
  {
    WorthOfSeq(s);
    SumPrefixes(s, n, |s|);
    assert s[..|s|] == s;
  }

  lemma TakenImproves(shuffled: seq<Coin>, q: AssetSpendTarget)
    ensures Improving(Taken(shuffled, q.max, NoImprovement(q.target)), q.target)
  {
    var coins := Taken(shuffled, q.max, NoImprovement(q.target));
    forall i | 0 <= i < |coins| ensures ImprovesAt(coins, q.target, i) {
      assert coins[..i] == shuffled[..i];
      StopAtIsFirst(shuffled, q.max, NoImprovement(q.target), 0, i);
    }
  }

  // Before the target is covered there is nothing to improve.
  lemma GreedyImproves(s: seq<Coin>, max: nat, target: nat)
    ensures Improving(Taken(s, max, Reached(target)), target)
  {
    var coins := Taken(s, max, Reached(target));
    forall n | 0 <= n < |coins| ensures ImprovesAt(coins, target, n) {
      assert coins[..n] == s[..n];
      StopAtIsFirst(s, max, Reached(target), 0, n);
    }
  }

  // What largest first selects.
  lemma FallbackIsSound(s: seq<Coin>, q: AssetSpendTarget)
    requires Descending(s)
    ensures Sound(LargestFirstOf(s, q), multiset(s), q)
  {
    var r := LargestFirstOf(s, q);
    assert r.Ok? ==> r.value == Taken(s, q.max, Reached(q.target));
    PrefixBag(s, StopAt(s, q.max, Reached(q.target), 0));
    GreedyImproves(s, q.max, q.target);
    if q.allowPartial {
      PartialResultIsBest(s, q);
      WorthOfSeq(s);
    } else {
      assert r.Ok? <==> Coverable(multiset(s), q) by {
        LargestFirstIsOptimal(s, q);
      }
    }
  }

  datatype AssetQuery = AssetQuery(inputs: seq<Coin>, shuffled: seq<Coin>, asset: AssetSpendTarget)

  // Asset `n` is the first that cannot be served.
  ghost predicate FailsFirst(queries: seq<AssetQuery>, n: nat, error: QueryError)
    requires n < |queries|
  {
    && RandomImproveOf(queries[n].inputs, queries[n].shuffled, queries[n].asset) == Err(error)
    && forall i :: 0 <= i < n ==> RandomImproveOf(queries[i].inputs, queries[i].shuffled, queries[i].asset).Ok?
  }

  // All assets of a query; the first asset that cannot be served fails the whole query.
  method RandomImprove(queries: seq<AssetQuery>) returns (r: Result<seq<seq<Coin>>, QueryError>)
    ensures r.Ok? <==> forall i :: 0 <= i < |queries| ==>
              RandomImproveOf(queries[i].inputs, queries[i].shuffled, queries[i].asset).Ok?
    ensures r.Ok? ==> |r.value| == |queries| && forall i :: 0 <= i < |queries| ==>
              RandomImproveOf(queries[i].inputs, queries[i].shuffled, queries[i].asset) == Ok(r.value[i])
    ensures r.Err? ==> exists n :: 0 <= n < |queries| && FailsFirst(queries, n, r.error)
  {
    var perAsset: seq<seq<Coin>> := [];
    var i := 0;
    while i < |queries|
      invariant 0 <= i <= |queries| && |perAsset| == i
      invariant forall j :: 0 <= j < i ==>
        RandomImproveOf(queries[j].inputs, queries[j].shuffled, queries[j].asset) == Ok(perAsset[j])
    {
      var coins := RandomImproveAsset(queries[i].inputs, queries[i].shuffled, queries[i].asset);
      if coins.Err? {
        assert FailsFirst(queries, i, coins.error);
        return Err(coins.error);
      }
      perAsset := perAsset + [coins.value];
      i := i + 1;
    }
    r := Ok(perAsset);
  }
}
