/**
 Selection over the index of coins to spend: big coins first, then a random number of dust
 coins, which may replace some of the big ones.
 */
module CoinsIndex {
  import opened Wrappers
  import opened Integers
  import opened Coins
  import opened CoinsQuery

  const DUST_TO_BIG_COINS_FACTOR: int := 5

  function Filtered(s: seq<Coin>, exclude: set<CoinId>): (r: seq<Coin>)
  {
    if s == [] then []
    else (if s[0].id in exclude then [] else [s[0]]) + Filtered(s[1..], exclude)
  }

  method SelectCoinsUntil(stream: seq<Coin>, max: u16, exclude: set<CoinId>, stop: Stop)
    returns (total: u128, coins: seq<Coin>, hasMore: bool)
    ensures coins == Taken(Filtered(stream, exclude), max, stop)
    ensures total == Sum(coins)
    ensures hasMore <==> |coins| < |Filtered(stream, exclude)|
  {
    ghost var all := Filtered(stream, exclude);
    total, coins, hasMore := 0, [], false;
    var i := 0;
    assert stream[0..] == stream && all[0..] == all;
    while i < |stream|
      invariant 0 <= i <= |stream| && !hasMore
      invariant Selecting(all, Filtered(stream[i..], exclude), max, stop, coins, total)
    {
      var coin := stream[i];
      ghost var rest := Filtered(stream[i..], exclude);
      FilteredStep(stream, i, exclude);
      if coin.id !in exclude {
        if |coins| >= max || Stops(stop, coin, total) {
          SelectingStops(all, rest, max, stop, coins, total);
          hasMore := true;
          break;
        }
        NeverSaturates(coins, coin);
        SelectingTakes(all, rest, max, stop, coins, total);
        total := SaturatingAdd(total, coin.amount);
        coins := coins + [coin];
      }
      i := i + 1;
    }
    if !hasMore {
      SelectingEnds(all, max, stop, coins, total);
    }
  }

  // `coins` are taken from the front of `all`, nothing has said to stop, and `rest` is left.
  ghost predicate Selecting(all: seq<Coin>, rest: seq<Coin>, max: nat, stop: Stop, coins: seq<Coin>, total: nat)
  {
    && |coins| <= max && |coins| <= |all| && coins == all[..|coins|] && rest == all[|coins|..]
    && total == Sum(coins)
    && StopAt(all, max, stop, 0) == StopAt(all, max, stop, |coins|)
  }

  lemma SelectingTakes(all: seq<Coin>, rest: seq<Coin>, max: nat, stop: Stop, coins: seq<Coin>, total: nat)
    requires Selecting(all, rest, max, stop, coins, total) && rest != []
    requires |coins| < max && !Stops(stop, rest[0], total)
    ensures Selecting(all, rest[1..], max, stop, coins + [rest[0]], total + rest[0].amount)
  {
    TakeNext(all, |coins|);
    assert StopAt(all, max, stop, |coins|) == StopAt(all, max, stop, |coins| + 1);
  }

  lemma SelectingStops(all: seq<Coin>, rest: seq<Coin>, max: nat, stop: Stop, coins: seq<Coin>, total: nat)
    requires Selecting(all, rest, max, stop, coins, total) && rest != []
    requires |coins| >= max || Stops(stop, rest[0], total)
    ensures coins == Taken(all, max, stop) && |coins| < |all|
  {
    assert StopAt(all, max, stop, |coins|) == |coins|;
  }

  lemma SelectingEnds(all: seq<Coin>, max: nat, stop: Stop, coins: seq<Coin>, total: nat)
    requires Selecting(all, [], max, stop, coins, total)
    ensures coins == Taken(all, max, stop) && |coins| == |all|
  {
    assert |coins| == |all| by {
      assert |all[|coins|..]| == 0;
    }
    assert StopAt(all, max, stop, |coins|) == |coins|;
  }

  lemma TakeNext(all: seq<Coin>, n: nat)
    requires n < |all|
    ensures all[..n] + [all[n]] == all[..n + 1] && Sum(all[..n + 1]) == Sum(all[..n]) + all[n].amount
    ensures all[n..][1..] == all[n + 1..]
  {
    SumNext(all, n);
  }

  lemma FilteredStep(stream: seq<Coin>, i: nat, exclude: set<CoinId>)
    requires i < |stream|
    ensures var rest := Filtered(stream[i..], exclude);
            if stream[i].id in exclude then rest == Filtered(stream[i + 1..], exclude)
            else rest != [] && rest[0] == stream[i] && rest[1..] == Filtered(stream[i + 1..], exclude)
  {
    assert stream[i..][1..] == stream[i + 1..];
  }

  // The largest number of dust coins that may be drawn.
  function DustBound(max: u16, bigCoins: u16): (r: u16)
  {
    var product := bigCoins * DUST_TO_BIG_COINS_FACTOR;
    var fromFactor := if product <= U16_MAX then product else U16_MAX;
    var adjusted := if bigCoins <= max then max - bigCoins else 0;
    if fromFactor <= adjusted then fromFactor else adjusted
  }

  // A random number within the bound.
  method MaxDustCount(max: u16, bigCoins: u16) returns (count: u16)
    ensures count <= DustBound(max, bigCoins)
  {
    count :| 0 <= count <= DustBound(max, bigCoins);
  }

  // Leaves out leading coins as long as their worth fits into the amount.
  function Skipped(big: seq<Coin>, amount: nat): (r: seq<Coin>)
  {
    if big == [] || big[0].amount > amount then big else Skipped(big[1..], amount - big[0].amount)
  }

  method SkipBigCoinsUpToAmount(big: seq<Coin>, amount: u128) returns (r: seq<Coin>)
    ensures r == Skipped(big, amount)
  {
    var current: u128, i := amount, 0;
    assert big[0..] == big;
    while i < |big| && big[i].amount <= current
      invariant 0 <= i <= |big|
      invariant Skipped(big, amount) == Skipped(big[i..], current)
    {
      assert big[i..][1..] == big[i + 1..];
      current := current - big[i].amount;
      i := i + 1;
    }
    r := big[i..];
  }

  function BigCoins(big: seq<Coin>, q: AssetSpendTarget, exclude: set<CoinId>): (r: seq<Coin>)
    ensures |r| <= q.max
  {
    Taken(Filtered(big, exclude), q.max, Reached(Doubled(q.target)))
  }

  // Dust coins up to the last big coin.
  function DustCoins(b: seq<Coin>, dust: seq<Coin>, exclude: set<CoinId>, count: nat): (r: seq<Coin>)
    requires b != []
    ensures |r| <= count
  {
    Taken(Filtered(dust, exclude), count, Is(b[|b| - 1]))
  }

  // The selection when `count` dust coins may be added.
  function Selection(big: seq<Coin>, dust: seq<Coin>, q: AssetSpendTarget, exclude: set<CoinId>, count: nat)
    : (r: Result<seq<Coin>, QueryError>)
  {
    if q.target == 0 || q.max == 0 then Ok([])
    else
      var b := BigCoins(big, q, exclude);
      if Sum(b) == 0 || (Sum(b) < q.target && !q.allowPartial) then
        if |b| >= q.max && |b| < |Filtered(big, exclude)| then Err(MaxCoinsReached(Sum(b), q.max))
        else Err(InsufficientCoins(Sum(b)))
      else
        var d := DustCoins(b, dust, exclude, count);
        Ok(Skipped(b, Sum(d)) + d)
  }

  method SelectCoinsToSpend(big: seq<Coin>, dust: seq<Coin>, q: AssetSpendTarget, exclude: set<CoinId>)
    returns (r: Result<seq<Coin>, QueryError>)
    ensures exists count: nat ::
              && count <= DustBound(q.max, |BigCoins(big, q, exclude)|)
              && r == Selection(big, dust, q, exclude, count)
  {
    if q.target == 0 || q.max == 0 {
      assert Selection(big, dust, q, exclude, 0) == Ok([]);
      return Ok([]);
    }
    var total, b, hasMore := SelectCoinsUntil(big, q.max, exclude, Reached(Doubled(q.target)));
    assert b == BigCoins(big, q, exclude);
    if total == 0 || (total < q.target && !q.allowPartial) {
      if |b| >= q.max && hasMore {
        r := Err(MaxCoinsReached(total, q.max));
      } else {
        r := Err(InsufficientCoins(total));
      }
      assert r == Selection(big, dust, q, exclude, 0);
      return;
    }
    // a positive total needs a coin, and at most `max` are taken
    assert 0 < |b| <= U16_MAX;
    var count := MaxDustCount(q.max, |b|);
    var dustTotal, d, _ := SelectCoinsUntil(dust, count, exclude, Is(b[|b| - 1]));
    var retained := SkipBigCoinsUpToAmount(b, dustTotal);
    r := Ok(retained + d);
    assert r == Selection(big, dust, q, exclude, count);
  }

  /* ---------- agreement with largest first ---------- */

  // Two descending orders of the same coins agree on the worth of the first `n`.
  lemma SameTopWorth(a: seq<Coin>, b: seq<Coin>, n: nat)
    requires Descending(a) && Descending(b) && multiset(a) == multiset(b) && n <= |a|
    ensures |a| == |b| && Sum(a[..n]) == Sum(b[..n])
  {
    assert |a| == |multiset(a)| && |b| == |multiset(b)|;
    PrefixBag(a, n);
    PrefixBag(b, n);
    WorthOfSeq(a[..n]);
    WorthOfSeq(b[..n]);
    TopCoinsAreWorthMost(a, multiset(b[..n]), n);
    TopCoinsAreWorthMost(b, multiset(a[..n]), n);
  }

  // The outcome of a query, apart from which coins are selected.
  function Verdict(r: Result<seq<Coin>, QueryError>): (v: Option<QueryError>)
  {
    if r.Ok? then None else Some(r.error)
  }

  lemma SameVerdict(a: seq<Coin>, b: seq<Coin>, q: AssetSpendTarget)
    requires Descending(a) && Descending(b) && multiset(a) == multiset(b) && !q.allowPartial
    ensures Verdict(LargestFirstOf(a, q)) == Verdict(LargestFirstOf(b, q))
  {
    LargestFirstIsOptimal(a, q);
    LargestFirstIsOptimal(b, q);
    SameTopWorth(a, b, |a|);
    assert a[..|a|] == a && b[..|a|] == b;
    if q.max <= |a| {
      SameTopWorth(a, b, q.max);
    }
  }

  // Aiming for twice the target takes at least as many coins, and the same ones first.
  lemma BigCoinsReachFurther(s: seq<Coin>, q: AssetSpendTarget)
    ensures var n, m := StopAt(s, q.max, Reached(q.target), 0), StopAt(s, q.max, Reached(Doubled(q.target)), 0);
            n <= m && (Sum(s[..n]) >= q.target <==> Sum(s[..m]) >= q.target) && (Sum(s[..n]) < q.target ==> n == m)
  {
    var n, m := StopAt(s, q.max, Reached(q.target), 0), StopAt(s, q.max, Reached(Doubled(q.target)), 0);
    StopAtIsFirst(s, q.max, Reached(q.target), 0, m);
    StopAtIsFirst(s, q.max, Reached(Doubled(q.target)), 0, n);
    if n <= m {
      SumPrefixes(s, n, m);
    }
  }

  // Over the same coins, the indexed selection and largest first both succeed, or both fail
  // with the same error. The one exception is a limit of no coins at all, where the indexed
  // selection succeeds with nothing.
  lemma IndexedAgreesIff(sorted: seq<Coin>, big: seq<Coin>, dust: seq<Coin>, q: AssetSpendTarget,
                         exclude: set<CoinId>, count: nat)
    requires !q.allowPartial
    requires Descending(sorted) && multiset(sorted) == multiset(Filtered(big, exclude))
    requires Descending(Filtered(big, exclude))
    ensures Verdict(Selection(big, dust, q, exclude, count)) == Verdict(LargestFirstOf(sorted, q))
            <==> q.max > 0 || q.target == 0
  {
    var s := Filtered(big, exclude);
    SameVerdict(s, sorted, q);
    if q.target == 0 {
      assert Taken(s, q.max, Reached(0)) == [];
    } else if q.max == 0 {
      assert Taken(s, 0, Reached(q.target)) == [];
    } else {
      BigCoinsReachFurther(s, q);
      StopAtIsFirst(s, q.max, Reached(q.target), 0, 0);
    }
  }

  // With partial results on they agree, unless there are coins but all of them are worthless and
  // more than the limit, or the limit is zero and there are no coins.
  lemma PartialIndexedAgreesIff(sorted: seq<Coin>, big: seq<Coin>, dust: seq<Coin>, q: AssetSpendTarget,
                                exclude: set<CoinId>, count: nat)
    requires q.allowPartial
    requires Descending(sorted) && multiset(sorted) == multiset(Filtered(big, exclude))
    requires Descending(Filtered(big, exclude))
    ensures Verdict(Selection(big, dust, q, exclude, count)) == Verdict(LargestFirstOf(sorted, q))
            <==> q.target == 0 || (if q.max == 0 then sorted != [] else Sum(sorted) > 0 || |sorted| <= q.max)
  {
    var s := Filtered(big, exclude);
    SameTopWorth(s, sorted, |s|);
    assert s[..|s|] == s && sorted[..|s|] == sorted;
    PartialLargestFirst(sorted, q);
    if q.target > 0 && q.max > 0 {
      PartialSelection(big, dust, q, exclude, count);
    }
  }

  lemma PartialLargestFirst(s: seq<Coin>, q: AssetSpendTarget)
    requires q.allowPartial && Descending(s)
    ensures Verdict(LargestFirstOf(s, q))
            == if q.target > 0 && |s| <= q.max && Sum(s) == 0 then Some(InsufficientCoins(0)) else None
  {
    PartialResultIsBest(s, q);
    var n := StopAt(s, q.max, Reached(q.target), 0);
    SumPrefixes(s, n, |s|);
    assert s[..|s|] == s;
    StopAtIsFirst(s, q.max, Reached(q.target), 0, 0);
  }

  lemma PartialSelection(big: seq<Coin>, dust: seq<Coin>, q: AssetSpendTarget, exclude: set<CoinId>, count: nat)
    requires q.allowPartial && q.target > 0 && q.max > 0 && Descending(Filtered(big, exclude))
    ensures var s := Filtered(big, exclude);
            Verdict(Selection(big, dust, q, exclude, count))
            == if Sum(s) > 0 then None
               else Some(if |s| <= q.max then InsufficientCoins(0) else MaxCoinsReached(0, q.max))
  {
    WorthlessIff(Filtered(big, exclude), q);
  }

  // The big coins are worthless only if all coins are.
  lemma WorthlessIff(s: seq<Coin>, q: AssetSpendTarget)
    requires Descending(s) && q.target > 0 && q.max > 0
    ensures var b := Taken(s, q.max, Reached(Doubled(q.target)));
            && (Sum(b) == 0 <==> Sum(s) == 0)
            && (Sum(b) == 0 ==> |b| == if |s| <= q.max then |s| else q.max)
  {
    var stop := Reached(Doubled(q.target));
    var n := StopAt(s, q.max, stop, 0);
    StopAtIsFirst(s, q.max, stop, 0, 0);
    SumPrefixes(s, n, |s|);
    assert s[..|s|] == s;
    if Sum(s[..n]) == 0 && n < |s| {
      assert n == q.max && n > 0;
      SumNext(s, n - 1);
      assert s[n - 1].amount == 0;
      AllWorthless(s, n - 1, |s|);
    }
  }

  lemma {:induction false} AllWorthless(s: seq<Coin>, i: nat, n: nat)
    requires Descending(s) && i < n <= |s| && s[i].amount == 0 && Sum(s[..i]) == 0
    ensures Sum(s[..n]) == 0
    decreases n
  {
    SumNext(s, n - 1);
    if i < n - 1 {
      AllWorthless(s, i, n - 1);
    }
  }

  // With a limit of zero, the indexed selection is content with nothing.
  lemma ZeroLimitDisagrees(c: Coin)
    ensures var q := AssetSpendTarget(1, 0, false);
            Selection([c], [c], q, {}, 0) == Ok([]) && LargestFirstOf([c], q) == Err(MaxCoinsReached(0, 0))
  {
    assert StopAt([c], 0, Reached(1), 0) == 0;
    assert [c][..0] == [];
  }

  // Of two worthless coins, largest first hands out one as a partial result.
  lemma WorthlessCoinsDisagree(a: Coin, b: Coin)
    requires a.amount == 0 && b.amount == 0
    ensures var q := AssetSpendTarget(1, 1, true);
            Selection([a, b], [b, a], q, {}, 0).Err? && LargestFirstOf([a, b], q) == Ok([a])
  {
    var s, q := [a, b], AssetSpendTarget(1, 1, true);
    assert s[1..] == [b] && s[1..][1..] == [];
    assert Filtered(s[1..], {}) == [b] && Filtered(s, {}) == s;
    assert s[..1] == [a] && s[..0] == [] && s[..1][..0] == [];
    assert Sum(s[..1]) == 0 && Sum(s[..0]) == 0;
    assert StopAt(s, 1, Reached(1), 1) == 1 && StopAt(s, 1, Reached(1), 0) == 1;
    assert StopAt(s, 1, Reached(2), 1) == 1 && StopAt(s, 1, Reached(2), 0) == 1;
    assert BigCoins(s, q, {}) == [a];
  }

  /* ---------- conservation ---------- */

  // As many leading coins are left out as the amount pays for.
  ghost predicate IsCut(big: seq<Coin>, amount: nat, k: nat)
  {
    k <= |big| && Sum(big[..k]) <= amount && (k == |big| || Sum(big[..k + 1]) > amount)
  }

  lemma {:induction false} SkippedWorth(big: seq<Coin>, amount: nat) returns (k: nat)
    ensures IsCut(big, amount, k) && Skipped(big, amount) == big[k..]
    ensures Sum(big) == Sum(big[..k]) + Sum(big[k..])
    decreases |big|
  {
    if big == [] || big[0].amount > amount {
      k := 0;
      assert big[0..] == big;
      if big != [] {
        SumHead(big, 1);
      }
    } else {
      var k' := SkippedWorth(big[1..], amount - big[0].amount);
      k := k' + 1;
      SumHead(big, k);
      if k < |big| {
        SumHead(big, k + 1);
      }
    }
    assert big == big[..k] + big[k..];
    SumConcat(big[..k], big[k..]);
  }

  lemma SumHead(s: seq<Coin>, n: nat)
    requires 0 < n <= |s|
    ensures Sum(s[..n]) == s[0].amount + Sum(s[1..][..n - 1])
  {
    assert s[..n] == [s[0]] + s[1..][..n - 1];
    SumConcat([s[0]], s[1..][..n - 1]);
    assert Sum([s[0]]) == s[0].amount by { assert [s[0]][..0] == []; }
  }

  // There is only one such cut.
  lemma CutIsUnique(big: seq<Coin>, amount: nat, k: nat, l: nat)
    requires IsCut(big, amount, k) && IsCut(big, amount, l)
    ensures k == l
  {
    if k < l {
      SumPrefixes(big, k + 1, l);
    } else if l < k {
      SumPrefixes(big, l + 1, k);
    }
  }

  lemma {:induction false} FilteredMembers(s: seq<Coin>, exclude: set<CoinId>, i: nat)
    requires i < |Filtered(s, exclude)|
    ensures Filtered(s, exclude)[i] in s && Filtered(s, exclude)[i].id !in exclude
    decreases |s|
  {
    if s[0].id in exclude {
      FilteredMembers(s[1..], exclude, i);
    } else if i > 0 {
      FilteredMembers(s[1..], exclude, i - 1);
    }
  }

  // Which dust coins are taken: from the front, until there are `count` of them, none are left or the
  // last big coin comes up.
  lemma DustIs(b: seq<Coin>, dust: seq<Coin>, exclude: set<CoinId>, count: nat)
    requires b != []
    ensures var all, d := Filtered(dust, exclude), DustCoins(b, dust, exclude, count);
            && d <= all && b[|b| - 1] !in d
            && (|d| == count || |d| == |all| || all[|d|] == b[|b| - 1])
  {
    var all, last := Filtered(dust, exclude), b[|b| - 1];
    var n := StopAt(all, count, Is(last), 0);
    StopAtIsFirst(all, count, Is(last), 0, 0);
    forall i | 0 <= i < n ensures all[i] != last {
      StopAtIsFirst(all, count, Is(last), 0, i);
    }
  }

  // How many dust coins may be drawn: up to five per big coin, within the limit.
  lemma DustBoundIs(max: u16, bigCoins: u16, n: nat)
    requires bigCoins <= max
    ensures n <= DustBound(max, bigCoins) <==> n <= 5 * bigCoins && bigCoins + n <= max
  {
  }

  // Which big coins are selected first: the shortest prefix that is worth twice the target, or as
  // many as the limit and the coins allow.
  lemma BigCoinsAre(big: seq<Coin>, q: AssetSpendTarget, exclude: set<CoinId>)
    ensures var all, b := Filtered(big, exclude), BigCoins(big, q, exclude);
            && b <= all && |b| <= q.max
            && (|b| == q.max || |b| == |all| || Sum(b) >= 2 * q.target)
            && (forall i :: 0 <= i < |b| ==> Sum(b[..i]) < 2 * q.target)
  {
    var all, b := Filtered(big, exclude), BigCoins(big, q, exclude);
    var stop := Reached(Doubled(q.target));
    StopAtIsFirst(all, q.max, stop, 0, 0);
    forall i | 0 <= i < |b| ensures Sum(b[..i]) < 2 * q.target {
      StopAtIsFirst(all, q.max, stop, 0, i);
      assert b[..i] == all[..i];
    }
    SumBound(b);
  }

  // Whatever number of dust coins is drawn, the selection consists of the big coins that the dust
  // does not pay for and the dust, at most five dust coins per big coin and at most `max` coins in
  // all, none of them excluded. It is worth at least the big coins that were selected first.
  lemma SelectionConserves(big: seq<Coin>, dust: seq<Coin>, q: AssetSpendTarget, exclude: set<CoinId>, count: nat)
    returns (k: nat)
    requires q.target > 0 && q.max > 0
    requires Selection(big, dust, q, exclude, count).Ok?
    requires count <= DustBound(q.max, |BigCoins(big, q, exclude)|)
    ensures var coins := Selection(big, dust, q, exclude, count).value;
            var b := BigCoins(big, q, exclude);
            && b != [] && var d := DustCoins(b, dust, exclude, count);
            && IsCut(b, Sum(d), k) && coins == b[k..] + d
            && |coins| <= q.max && |d| <= DUST_TO_BIG_COINS_FACTOR * |b|
            && Sum(b) <= Sum(coins)
            && (!q.allowPartial ==> q.target <= Sum(coins))
            && (forall i :: 0 <= i < |coins| ==> coins[i].id !in exclude && (coins[i] in big || coins[i] in dust))
  {
    var b := BigCoins(big, q, exclude);
    var d := DustCoins(b, dust, exclude, count);
    assert Selection(big, dust, q, exclude, count) == Ok(Skipped(b, Sum(d)) + d);
    k := SkippedWorth(b, Sum(d));
    ExchangeConserves(b, d, q.max);
    ExchangeMembers(b, d, big, dust, exclude);
  }

  lemma ExchangeMembers(b: seq<Coin>, d: seq<Coin>, big: seq<Coin>, dust: seq<Coin>, exclude: set<CoinId>)
    requires b <= Filtered(big, exclude) && d <= Filtered(dust, exclude)
    ensures var coins := Skipped(b, Sum(d)) + d;
            forall i :: 0 <= i < |coins| ==> coins[i].id !in exclude && (coins[i] in big || coins[i] in dust)
  {
    var k := SkippedWorth(b, Sum(d));
    var coins := b[k..] + d;
    forall i | 0 <= i < |coins| ensures coins[i].id !in exclude && (coins[i] in big || coins[i] in dust) {
      if i < |b| - k {
        FilteredMembers(big, exclude, k + i);
        assert coins[i] == Filtered(big, exclude)[k + i];
      } else {
        FilteredMembers(dust, exclude, i - (|b| - k));
        assert coins[i] == Filtered(dust, exclude)[i - (|b| - k)];
      }
    }
  }

  // Dust in exchange for leading big coins.
  lemma ExchangeConserves(b: seq<Coin>, d: seq<Coin>, max: u16)
    requires |b| <= max && |d| <= DustBound(max, |b|)
    ensures |Skipped(b, Sum(d)) + d| <= max && |d| <= DUST_TO_BIG_COINS_FACTOR * |b|
    ensures Sum(b) <= Sum(Skipped(b, Sum(d)) + d)
  {
    var k := SkippedWorth(b, Sum(d));
    SumConcat(Skipped(b, Sum(d)), d);
  }

  /* ---------- no coin twice ---------- */

  predicate NoDuplicates(s: seq<Coin>)
  {
    forall i, j :: 0 <= i < j < |s| ==> s[i] != s[j]
  }

  function Reversed(s: seq<Coin>): (r: seq<Coin>)
    ensures |r| == |s|
  {
    if s == [] then [] else Reversed(s[1..]) + [s[0]]
  }

  lemma {:induction false} ReversedAt(s: seq<Coin>, i: nat)
    requires i < |s|
    ensures Reversed(s)[i] == s[|s| - 1 - i]
    decreases |s|
  {
    if i < |s| - 1 {
      ReversedAt(s[1..], i);
    }
  }

  lemma {:induction false} FilteredConcat(a: seq<Coin>, b: seq<Coin>, exclude: set<CoinId>)
    ensures Filtered(a + b, exclude) == Filtered(a, exclude) + Filtered(b, exclude)
    decreases |a|
  {
    if a == [] {
      assert a + b == b;
    } else {
      assert (a + b)[1..] == a[1..] + b;
      FilteredConcat(a[1..], b, exclude);
    }
  }

  lemma ReversedCons(c: Coin, s: seq<Coin>)
    ensures Reversed([c] + s) == Reversed(s) + [c]
  {
    assert ([c] + s)[1..] == s;
  }

  lemma {:induction false} FilteredReversed(s: seq<Coin>, exclude: set<CoinId>)
    ensures Filtered(Reversed(s), exclude) == Reversed(Filtered(s, exclude))
    decreases |s|
  {
    if s != [] {
      FilteredReversed(s[1..], exclude);
      FilteredConcat(Reversed(s[1..]), [s[0]], exclude);
      FilteredOne(s[0], exclude);
      var rest := Filtered(s[1..], exclude);
      if s[0].id in exclude {
        assert Filtered(s, exclude) == rest;
        assert Filtered(Reversed(s), exclude) == Reversed(rest) + [] == Reversed(rest);
      } else {
        assert Filtered(s, exclude) == [s[0]] + rest;
        ReversedCons(s[0], rest);
      }
    }
  }

  lemma FilteredOne(c: Coin, exclude: set<CoinId>)
    ensures Filtered([c], exclude) == if c.id in exclude then [] else [c]
  {
    assert [c][1..] == [];
  }

  lemma {:induction false} FilteredKeepsDistinct(s: seq<Coin>, exclude: set<CoinId>)
    requires NoDuplicates(s)
    ensures NoDuplicates(Filtered(s, exclude))
    decreases |s|
  {
    if s != [] {
      FilteredKeepsDistinct(s[1..], exclude);
      var rest := Filtered(s[1..], exclude);
      forall i | 0 <= i < |rest| ensures rest[i] != s[0] {
        FilteredMembers(s[1..], exclude, i);
      }
    }
  }

  // The dust coins are those behind the last big coin, counted from the far end.
  lemma DustStopsBeforeBig(all: seq<Coin>, n: nat, count: nat)
    requires 0 < n <= |all|
    ensures StopAt(Reversed(all), count, Is(all[n - 1]), 0) <= |all| - n
  {
    ReversedAt(all, |all| - n);
    StopAtIsFirst(Reversed(all), count, Is(all[n - 1]), 0, |all| - n);
  }

  // Dust is read from the other end of the same index, so no coin is selected twice.
  lemma SelectionHasNoDuplicates(big: seq<Coin>, q: AssetSpendTarget, exclude: set<CoinId>, count: nat)
    requires NoDuplicates(big)
    requires Selection(big, Reversed(big), q, exclude, count).Ok?
    ensures NoDuplicates(Selection(big, Reversed(big), q, exclude, count).value)
  {
    if q.target > 0 && q.max > 0 {
      var all := Filtered(big, exclude);
      FilteredKeepsDistinct(big, exclude);
      var k, n, m := SelectionPieces(big, q, exclude, count);
      EndsAreApart(all, n, k, m);
    }
  }

  // A selection is a piece of the coins in order and a piece of their reverse, which do not meet.
  lemma SelectionPieces(big: seq<Coin>, q: AssetSpendTarget, exclude: set<CoinId>, count: nat)
    returns (k: nat, n: nat, m: nat)
    requires q.target > 0 && q.max > 0 && Selection(big, Reversed(big), q, exclude, count).Ok?
    ensures var all := Filtered(big, exclude);
            && k <= n <= |all| && m <= |all| - n
            && Selection(big, Reversed(big), q, exclude, count).value == all[k..n] + Reversed(all)[..m]
  {
    var all, b := Filtered(big, exclude), BigCoins(big, q, exclude);
    FilteredReversed(big, exclude);
    n := |b|;
    DustStopsBeforeBig(all, n, count);
    var d := DustCoins(b, Reversed(big), exclude, count);
    m := |d|;
    k := SkippedWorth(b, Sum(d));
    assert b[k..] == all[k..n] && d == Reversed(all)[..m];
  }

  lemma EndsAreApart(all: seq<Coin>, n: nat, k: nat, m: nat)
    requires NoDuplicates(all) && k <= n <= |all| && m <= |all| - n
    ensures NoDuplicates(all[k..n] + Reversed(all)[..m])
  {
    ReversedDistinct(all);
    forall i, j | 0 <= i < n - k && 0 <= j < m ensures all[k..n][i] != Reversed(all)[..m][j] {
      ReversedAt(all, j);
      assert all[k + i] != all[|all| - 1 - j];
    }
    ConcatDistinct(all[k..n], Reversed(all)[..m]);
  }

  lemma ReversedDistinct(s: seq<Coin>)
    requires NoDuplicates(s)
    ensures NoDuplicates(Reversed(s))
  {
    forall i, j | 0 <= i < j < |s| ensures Reversed(s)[i] != Reversed(s)[j] {
      ReversedAt(s, i);
      ReversedAt(s, j);
    }
  }

  lemma ConcatDistinct(a: seq<Coin>, b: seq<Coin>)
    requires NoDuplicates(a) && NoDuplicates(b)
    requires forall i, j :: 0 <= i < |a| && 0 <= j < |b| ==> a[i] != b[j]
    ensures NoDuplicates(a + b)
  {
  }
}
