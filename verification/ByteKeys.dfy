/**
 Keys as the underlying store orders them: byte strings in lexicographic order, and heights
 appended to them in big-endian form.
 */
module ByteKeys {
  import opened Integers

  type ByteString = seq<u8>

  // The byte order of the store; a proper prefix comes first.
  predicate Leq(a: ByteString, b: ByteString)
    decreases |a|
  {
    a == [] || (b != [] && (a[0] < b[0] || (a[0] == b[0] && Leq(a[1..], b[1..]))))
  }

  lemma {:induction false} LeqReflexive(a: ByteString)
    ensures Leq(a, a)
  {
    if a != [] {
      LeqReflexive(a[1..]);
    }
  }

  lemma {:induction false} LeqTotal(a: ByteString, b: ByteString)
    ensures Leq(a, b) || Leq(b, a)
    decreases |a|
  {
    if a != [] && b != [] && a[0] == b[0] {
      LeqTotal(a[1..], b[1..]);
    }
  }

  lemma {:induction false} LeqAntisymmetric(a: ByteString, b: ByteString)
    requires Leq(a, b) && Leq(b, a)
    ensures a == b
    decreases |a|
  {
    if a != [] {
      LeqAntisymmetric(a[1..], b[1..]);
      assert a == [a[0]] + a[1..] && b == [b[0]] + b[1..];
    }
  }

  lemma {:induction false} LeqTransitive(a: ByteString, b: ByteString, c: ByteString)
    requires Leq(a, b) && Leq(b, c)
    ensures Leq(a, c)
    decreases |a|
  {
    if a != [] && a[0] == b[0] == c[0] {
      LeqTransitive(a[1..], b[1..], c[1..]);
    }
  }

  lemma {:induction false} LeqAfterPrefix(k: ByteString, a: ByteString, b: ByteString)
    ensures Leq(k + a, k + b) <==> Leq(a, b)
    decreases |k|
  {
    if k == [] {
      assert k + a == a && k + b == b;
    } else {
      LeqAfterPrefix(k[1..], a, b);
      assert (k + a)[1..] == k[1..] + a && (k + b)[1..] == k[1..] + b;
    }
  }

  // What lies between two strings with a common prefix has that prefix.
  lemma {:induction false} Between(k: ByteString, a: ByteString, x: ByteString, b: ByteString)
    requires Leq(k + a, x) && Leq(x, k + b)
    ensures k <= x
    decreases |k|
  {
    if k != [] {
      assert (k + a)[1..] == k[1..] + a && (k + b)[1..] == k[1..] + b;
      Between(k[1..], a, x[1..], b);
      assert x == [x[0]] + x[1..] && k == [k[0]] + k[1..];
    }
  }

  // Nothing that goes on behind a string comes before it.
  lemma {:induction false} LongerIsLater(a: ByteString, r: ByteString)
    ensures Leq(a, a + r) && (r != [] ==> !Leq(a + r, a))
    decreases |a|
  {
    if a != [] {
      LongerIsLater(a[1..], r);
      assert (a + r)[1..] == a[1..] + r;
    }
  }

  // Between strings of one length the first difference decides, whatever follows.
  lemma {:induction false} LeqOfSameLength(a: ByteString, r: ByteString, b: ByteString, t: ByteString)
    requires |a| == |b|
    ensures a != b ==> (Leq(a + r, b + t) <==> Leq(a, b))
    decreases |a|
  {
    if a != [] {
      LeqOfSameLength(a[1..], r, b[1..], t);
      assert (a + r)[1..] == a[1..] + r && (b + t)[1..] == b[1..] + t;
      assert a == [a[0]] + a[1..] && b == [b[0]] + b[1..];
    }
  }

  function Repeated(b: u8, n: nat): (r: ByteString)
    ensures |r| == n
  {
    if n == 0 then [] else [b] + Repeated(b, n - 1)
  }

  lemma {:induction false} RepeatedAt(b: u8, n: nat, i: nat)
    requires i < n
    ensures Repeated(b, n)[i] == b
    decreases n
  {
    if i > 0 {
      RepeatedAt(b, n - 1, i - 1);
    }
  }

  lemma {:induction false} LargestOfLength(s: ByteString)
    ensures Leq(s, Repeated(255, |s|))
    decreases |s|
  {
    if s != [] {
      LargestOfLength(s[1..]);
      assert Repeated(255, |s|)[1..] == Repeated(255, |s| - 1);
    }
  }

  /* ---------- heights ---------- */

  // The lowest `n` bytes of a number, highest byte first.
  function BigEndian(n: nat, x: nat): (r: ByteString)
    ensures |r| == n
  {
    if n == 0 then [] else BigEndian(n - 1, x / 256) + [x % 256]
  }

  function Power(n: nat): (r: nat)
  {
    if n == 0 then 1 else 256 * Power(n - 1)
  }

  lemma {:induction false} LeqSnoc(a: ByteString, x: u8, b: ByteString, y: u8)
    requires |a| == |b|
    ensures Leq(a + [x], b + [y]) <==> (Leq(a, b) && a != b) || (a == b && x <= y)
    decreases |a|
  {
    if a != [] {
      LeqSnoc(a[1..], x, b[1..], y);
      assert (a + [x])[1..] == a[1..] + [x] && (b + [y])[1..] == b[1..] + [y];
      assert a[0] == b[0] ==> (a == b <==> a[1..] == b[1..]) by {
        assert a == [a[0]] + a[1..] && b == [b[0]] + b[1..];
      }
    } else {
      assert a + [x] == [x] && b + [y] == [y];
    }
  }

  lemma DigitsOrder(x: nat, y: nat)
    ensures x <= y <==> x / 256 < y / 256 || (x / 256 == y / 256 && x % 256 <= y % 256)
    ensures x == y <==> x / 256 == y / 256 && x % 256 == y % 256
  {
  }

  // Big-endian form keeps the order, and nothing is lost.
  lemma {:induction false} BigEndianOrder(n: nat, x: nat, y: nat)
    requires x < Power(n) && y < Power(n)
    ensures Leq(BigEndian(n, x), BigEndian(n, y)) <==> x <= y
    ensures BigEndian(n, x) == BigEndian(n, y) <==> x == y
    decreases n
  {
    if n > 0 {
      BigEndianOrder(n - 1, x / 256, y / 256);
      var a, b := BigEndian(n - 1, x / 256), BigEndian(n - 1, y / 256);
      LeqSnoc(a, x % 256, b, y % 256);
      DigitsOrder(x, y);
      assert a + [x % 256] == b + [y % 256] <==> a == b && x % 256 == y % 256 by {
        assert (a + [x % 256])[..n - 1] == a && (b + [y % 256])[..n - 1] == b;
        assert (a + [x % 256])[n - 1] == x % 256 && (b + [y % 256])[n - 1] == y % 256;
      }
    }
  }

  // Every string of bytes is the big-endian form of a number.
  lemma {:induction false} BigEndianOnto(s: ByteString) returns (x: nat)
    ensures x < Power(|s|) && BigEndian(|s|, x) == s
    decreases |s|
  {
    if s == [] {
      x := 0;
    } else {
      var n := |s| - 1;
      var high := BigEndianOnto(s[..n]);
      x := 256 * high + s[n];
      assert x / 256 == high && x % 256 == s[n];
      assert s == s[..n] + [s[n]];
    }
  }

  lemma {:induction false} BigEndianZero(n: nat)
    ensures BigEndian(n, 0) == Repeated(0, n)
  {
    if n > 0 {
      BigEndianZero(n - 1);
      RepeatedSnoc(0, n - 1);
    }
  }

  lemma {:induction false} RepeatedSnoc(b: u8, n: nat)
    ensures Repeated(b, n + 1) == Repeated(b, n) + [b]
  {
    if n > 0 {
      RepeatedSnoc(b, n - 1);
    }
  }

  lemma PowerOfEight()
    ensures Power(8) == U64_MAX + 1
  {
    assert Power(2) == 0x1_0000;
    assert Power(4) == 0x1_0000_0000;
    assert Power(6) == 0x1_0000_0000_0000;
  }

  // `height_key`.
  function HeightKey(key: ByteString, height: nat): (r: ByteString)
    ensures |r| == |key| + 8
  {
    key + BigEndian(8, height)
  }

  // A height key determines key and height, and the height keys of one key are ordered by height.
  lemma HeightKeyOrder(key: ByteString, a: nat, b: nat)
    requires a <= U64_MAX && b <= U64_MAX
    ensures Leq(HeightKey(key, a), HeightKey(key, b)) <==> a <= b
  {
    PowerOfEight();
    LeqAfterPrefix(key, BigEndian(8, a), BigEndian(8, b));
    BigEndianOrder(8, a, b);
  }

  lemma HeightKeyInjective(k: ByteString, a: nat, l: ByteString, b: nat)
    requires a <= U64_MAX && b <= U64_MAX
    requires HeightKey(k, a) == HeightKey(l, b)
    ensures k == l && a == b
  {
    PowerOfEight();
    assert k == HeightKey(k, a)[..|k|] && l == HeightKey(l, b)[..|k|];
    assert BigEndian(8, a) == HeightKey(k, a)[|k|..] && BigEndian(8, b) == HeightKey(l, b)[|k|..];
    BigEndianOrder(8, a, b);
  }
}
