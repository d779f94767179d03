/**
 Coins and what a selection of coins is worth.
 */
module Coins {
  import opened Integers

  datatype CoinId = Utxo(utxoId: nat) | Message(nonce: nat)

  datatype Coin = Coin(id: CoinId, amount: u64)

  function SaturatingAdd(a: u128, b: u128): (r: u128)
  {
    if a + b <= U128_MAX then a + b else U128_MAX
  }

  function Sum(s: seq<Coin>): (r: nat)
  {
    if s == [] then 0 else Sum(s[..|s| - 1]) + s[|s| - 1].amount
  }

  // The worth of a bag of coins; the coins are taken in no particular order.
  ghost function Worth(m: multiset<Coin>): (r: nat)
    decreases |m|
  {
    if m == multiset{} then 0
    else
      var c :| c in m;
      c.amount + Worth(m - multiset{c})
  }

  lemma {:induction false} WorthRemove(m: multiset<Coin>, c: Coin)
    requires c in m
    ensures Worth(m) == c.amount + Worth(m - multiset{c})
    decreases |m|
  {
    var d :| d in m && Worth(m) == d.amount + Worth(m - multiset{d});
    if d != c {
      RemoveTwo(m, c, d);
      WorthRemove(m - multiset{d}, c);
      WorthRemove(m - multiset{c}, d);
    }
  }

  lemma RemoveTwo(m: multiset<Coin>, c: Coin, d: Coin)
    requires c in m && d in m && c != d
    ensures c in m - multiset{d} && d in m - multiset{c}
    ensures m - multiset{d} - multiset{c} == m - multiset{c} - multiset{d}
    ensures |m - multiset{d}| < |m| && |m - multiset{c}| < |m|
  {
  }

  lemma {:induction false} WorthOfSeq(s: seq<Coin>)
    ensures Worth(multiset(s)) == Sum(s)
    decreases |s|
  {
    if s != [] {
      var init, last := s[..|s| - 1], s[|s| - 1];
      assert s == init + [last];
      assert multiset(s) - multiset{last} == multiset(init);
      WorthRemove(multiset(s), last);
      WorthOfSeq(init);
    }
  }

  lemma {:induction false} SumConcat(a: seq<Coin>, b: seq<Coin>)
    ensures Sum(a + b) == Sum(a) + Sum(b)
    decreases |b|
  {
    if b == [] {
      assert a + b == a;
    } else {
      assert (a + b)[..|a + b| - 1] == a + b[..|b| - 1];
      SumConcat(a, b[..|b| - 1]);
    }
  }

  lemma SumPrefixes(s: seq<Coin>, i: nat, j: nat)
    requires i <= j <= |s|
    ensures Sum(s[..i]) <= Sum(s[..j])
  {
    assert s[..j] == s[..i] + s[i..j];
    SumConcat(s[..i], s[i..j]);
  }

  lemma SumNext(s: seq<Coin>, i: nat)
    requires i < |s|
    ensures Sum(s[..i + 1]) == Sum(s[..i]) + s[i].amount
  {
    assert s[..i + 1][..i] == s[..i];
  }

  lemma {:induction false} SumBound(s: seq<Coin>)
    ensures Sum(s) <= |s| * U64_MAX
    decreases |s|
  {
    if s != [] {
      SumBound(s[..|s| - 1]);
    }
  }

  // As many coins as a query may select are never worth more than fits: adding with
  // saturation is adding.
  lemma NeverSaturates(s: seq<Coin>, c: Coin)
    requires |s| < U16_MAX
    ensures Sum(s) + c.amount <= U128_MAX
    ensures Sum(s) <= U128_MAX && SaturatingAdd(Sum(s), c.amount) == Sum(s) + c.amount
  {
    SumBound(s);
  }

  /* ---------- descending order ---------- */

  predicate Descending(s: seq<Coin>)
  {
    forall i, j :: 0 <= i < j < |s| ==> s[i].amount >= s[j].amount
  }

  // The position at which a coin is inserted behind all coins worth at least as much.
  function Insert(s: seq<Coin>, c: Coin): (r: seq<Coin>)
    requires Descending(s)
    ensures Descending(r)
    ensures multiset(r) == multiset(s) + multiset{c}
    decreases |s|
  {
    if s == [] then [c]
    else if s[|s| - 1].amount >= c.amount then s + [c]
    else
      var init, last := s[..|s| - 1], s[|s| - 1];
      assert s == init + [last];
      InsertBefore(init, Insert(init, c), c, last);
      Insert(init, c) + [last]
  }

  lemma InsertBefore(init: seq<Coin>, r: seq<Coin>, c: Coin, last: Coin)
    requires Descending(init + [last]) && last.amount <= c.amount
    requires Descending(r) && multiset(r) == multiset(init) + multiset{c}
    ensures Descending(r + [last])
  {
    forall i | 0 <= i < |r| ensures r[i].amount >= last.amount {
      assert r[i] in multiset(r);
      if r[i] != c {
        var j :| 0 <= j < |init| && init[j] == r[i];
        assert (init + [last])[j] == init[j] && (init + [last])[|init|] == last;
      }
    }
  }

  // Stable sort by decreasing amount.
  function SortDescending(s: seq<Coin>): (r: seq<Coin>)
    ensures Descending(r)
    ensures multiset(r) == multiset(s)
    decreases |s|
  {
    if s == [] then []
    else
      assert s == s[..|s| - 1] + [s[|s| - 1]];
      Insert(SortDescending(s[..|s| - 1]), s[|s| - 1])
  }

  // The exchange argument: no bag of at most `n` coins is worth more than the first `n`.
  lemma {:induction false} TopCoinsAreWorthMost(s: seq<Coin>, m: multiset<Coin>, n: nat)
    requires Descending(s) && m <= multiset(s) && |m| <= n <= |s|
    ensures Worth(m) <= Sum(s[..n])
    decreases |s|
  {
    if m != multiset{} {
      var init, last := s[..|s| - 1], s[|s| - 1];
      DescendingInit(s);
      if last in m {
        BagWithLast(m, s);
        TopCoinsAreWorthMost(init, m - multiset{last}, n - 1);
        TopWithLast(s, m, n);
      } else {
        BagWithoutLast(m, s);
        TopCoinsAreWorthMost(init, m, if n == |s| then n - 1 else n);
        SkipLast(s, n);
      }
    }
  }

  lemma DescendingInit(s: seq<Coin>)
    requires Descending(s) && s != []
    ensures Descending(s[..|s| - 1])
  {
  }

  lemma TopWithLast(s: seq<Coin>, m: multiset<Coin>, n: nat)
    requires 0 < n <= |s| && s[|s| - 1] in m
    requires Worth(m - multiset{s[|s| - 1]}) <= Sum(s[..|s| - 1][..n - 1])
    requires Descending(s)
    ensures Worth(m) <= Sum(s[..n])
  {
    WorthRemove(m, s[|s| - 1]);
    TakeLast(s, n);
  }

  lemma TakeLast(s: seq<Coin>, n: nat)
    requires 0 < n <= |s| && Descending(s)
    ensures Sum(s[..|s| - 1][..n - 1]) + s[|s| - 1].amount <= Sum(s[..n])
  {
    assert s[..|s| - 1][..n - 1] == s[..n - 1];
    SumNext(s, n - 1);
  }

  lemma SkipLast(s: seq<Coin>, n: nat)
    requires s != [] && n <= |s|
    ensures Sum(s[..|s| - 1][..if n == |s| then n - 1 else n]) <= Sum(s[..n])
  {
    var n' := if n == |s| then n - 1 else n;
    assert s[..|s| - 1][..n'] == s[..n'];
    SumPrefixes(s, n', n);
  }

  lemma BagSize(m: multiset<Coin>, s: seq<Coin>)
    requires m <= multiset(s)
    ensures |m| <= |s|
  {
    assert |multiset(s)| == |m| + |multiset(s) - m|;
  }

  lemma BagWithLast(m: multiset<Coin>, s: seq<Coin>)
    requires s != [] && m <= multiset(s) && s[|s| - 1] in m
    ensures m - multiset{s[|s| - 1]} <= multiset(s[..|s| - 1]) && |m - multiset{s[|s| - 1]}| == |m| - 1
  {
    assert s == s[..|s| - 1] + [s[|s| - 1]];
  }

  lemma BagWithoutLast(m: multiset<Coin>, s: seq<Coin>)
    requires s != [] && m <= multiset(s) && s[|s| - 1] !in m
    ensures m <= multiset(s[..|s| - 1]) && |m| <= |s| - 1
  {
    assert s == s[..|s| - 1] + [s[|s| - 1]];
    BagSize(m, s[..|s| - 1]);
  }
}
