/**
 For which keys of a table the views of the past are right.
 */
module KeyConfusion {
  import opened Wrappers
  import opened Integers
  import opened ByteKeys
  import opened HistoricalStore
  import opened Database
  import opened HistoricalView

  // Only rows of the table with these keys have been modified.
  ghost predicate ModifiesOnly(versions: Versions, table: nat, keys: set<ByteString>)
  {
    forall e :: e in versions && TableOf(e.0) == Some(table) ==> BytesOf(e.0) in keys
  }

  // Whatever happens to rows with these keys, every view shows the row `key` as it was.
  ghost predicate ViewsAreRight(table: nat, keys: set<ByteString>, key: ByteString)
  {
    forall db, past, height: nat | Inv(db, past) && height < U64_MAX && ModifiesOnly(db.store.versions, table, keys) ::
      ShowsThePast(db, past, height, Row(table, key))
  }

  ghost predicate NeverConfused(keys: set<ByteString>, key: ByteString)
  {
    forall from: nat, other, height: nat | 0 < from <= U64_MAX && other in keys && height <= U64_MAX ::
      !Confusable(key, from, other, height)
  }

  // The keys that are mixed up with `key`: a longer one, unless it goes on with eight zero bytes;
  // one that is shorter by up to seven bytes; or one that is so much shorter that it cannot be
  // compared, if it may come later.
  predicate MixesUp(key: ByteString, other: ByteString)
  {
    || (key < other && !(Repeated(0, 8) <= other[|key|..]))
    || (other < key && |key| <= |other| + 7)
    || (|other| + 8 < |key| && Before(key[..|other| + 8], other + Repeated(255, 8)))
  }

  predicate Before(a: ByteString, b: ByteString)
  {
    Leq(a, b) && a != b
  }

  // Views of a row are right exactly when no modified key of its table is mixed up with it.
  lemma ViewsAreRightIff(table: nat, keys: set<ByteString>, key: ByteString)
    ensures ViewsAreRight(table, keys, key) <==> forall other :: other in keys ==> !MixesUp(key, other)
  {
    NeverConfusedIff(keys, key);
    if NeverConfused(keys, key) {
      forall db, past, height: nat | Inv(db, past) && height < U64_MAX && ModifiesOnly(db.store.versions, table, keys)
        ensures ShowsThePast(db, past, height, Row(table, key))
      {
        SafeKeyShowsThePast(db, past, height, table, keys, key);
      }
    } else {
      var from: nat, other, height: nat :|
        0 < from <= U64_MAX && other in keys && height <= U64_MAX && Confusable(key, from, other, height);
      var db, past := MixedUp(table, key, from, other, height);
      assert ModifiesOnly(db.store.versions, table, keys);
      assert !ShowsThePast(db, past, from - 1, Row(table, key));
    }
  }

  /* ---------- which keys are mixed up ---------- */

  lemma NeverConfusedIff(keys: set<ByteString>, key: ByteString)
    ensures NeverConfused(keys, key) <==> forall other :: other in keys ==> !MixesUp(key, other)
  {
    forall from: nat, other, height: nat |
      0 < from <= U64_MAX && other in keys && height <= U64_MAX && Confusable(key, from, other, height)
      ensures MixesUp(key, other)
    {
      ConfusedIsMixedUp(key, from, other, height);
    }
    forall other | other in keys && MixesUp(key, other) ensures !NeverConfused(keys, key) {
      var from, height := MixedUpIsConfused(key, other);
    }
  }

  lemma ConfusedIsMixedUp(key: ByteString, from: nat, other: ByteString, height: nat)
    requires 0 < from <= U64_MAX && height <= U64_MAX && Confusable(key, from, other, height)
    ensures MixesUp(key, other)
  {
    if |other| + 8 < |key| {
      MuchShorter(key, from, other, height);
    } else {
      PrefixOfHeightKey(key, other, height);
      if |other| < |key| {
        LittleShorter(key, from, other, height);
      } else {
        Longer(key, from, other, height);
      }
    }
  }

  lemma MuchShorter(key: ByteString, from: nat, other: ByteString, height: nat)
    requires |other| + 8 < |key| && Leq(HeightKey(key, from), HeightKey(other, height))
    ensures Before(key[..|other| + 8], other + Repeated(255, 8))
  {
    var found, most := HeightKey(other, height), other + Repeated(255, 8);
    var p, rest := key[..|found|], key[|found|..] + BigEndian(8, from);
    assert HeightKey(key, from) == p + rest && found == found + [];
    LongerIsLater(found, rest);
    LeqOfSameLength(p, rest, found, []);
    assert Before(p, found);
    LargestOfLength(BigEndian(8, height));
    LeqAfterPrefix(other, BigEndian(8, height), Repeated(255, 8));
    LeqTransitive(p, found, most);
    if p == most {
      LeqAntisymmetric(p, found);
    }
  }

  lemma LittleShorter(key: ByteString, from: nat, other: ByteString, height: nat)
    requires |other| < |key| <= |other| + 8 && key <= HeightKey(other, height)
    requires Leq(HeightKey(key, from), HeightKey(other, height))
    ensures |key| <= |other| + 7
  {
    if |key| == |other| + 8 {
      assert key == HeightKey(other, height);
      LongerIsLater(key, BigEndian(8, from));
    }
  }

  lemma Longer(key: ByteString, from: nat, other: ByteString, height: nat)
    requires 0 < from <= U64_MAX && key < other && Leq(HeightKey(key, from), HeightKey(other, height))
    ensures !(Repeated(0, 8) <= other[|key|..])
  {
    var zeros, rest := Repeated(0, 8), other[|key|..];
    if zeros <= rest {
      var tail := rest[8..] + BigEndian(8, height);
      SplitAfter(key, other, zeros, BigEndian(8, height));
      AfterZeros(key, BigEndian(8, from), zeros, tail);
      BigEndianZero(8);
      PowerOfEight();
      BigEndianOrder(8, from, 0);
    }
  }

  lemma SplitAfter(key: ByteString, other: ByteString, zeros: ByteString, b: ByteString)
    requires key <= other && zeros <= other[|key|..]
    ensures other + b == key + (zeros + (other[|key|..][|zeros|..] + b))
  {
    var rest := other[|key|..];
    assert other == key + rest && rest == zeros + rest[|zeros|..];
  }

  lemma AfterZeros(key: ByteString, a: ByteString, zeros: ByteString, tail: ByteString)
    requires |a| == |zeros| && Leq(key + a, key + (zeros + tail))
    ensures Leq(a, zeros)
  {
    LeqAfterPrefix(key, a, zeros + tail);
    assert a + [] == a;
    LeqReflexive(a);
    LeqOfSameLength(a, [], zeros, tail);
  }

  lemma MixedUpIsConfused(key: ByteString, other: ByteString) returns (from: nat, height: nat)
    requires MixesUp(key, other)
    ensures 0 < from <= U64_MAX && height <= U64_MAX && Confusable(key, from, other, height)
  {
    from := 1;
    var most := Repeated(255, 8);
    if key < other {
      height := HeightOf(most);
      LongerIsConfused(key, from, other, most, height);
    } else if other < key && |key| <= |other| + 7 {
      var t := key[|other|..];
      height := HeightOf(t + Repeated(255, 8 - |t|));
      ShorterIsConfused(key, from, other, t, height);
    } else {
      height := HeightOf(most);
      ShortIsConfused(key, from, other, most, height);
    }
  }

  lemma HeightOf(s: ByteString) returns (height: nat)
    requires |s| == 8
    ensures height <= U64_MAX && BigEndian(8, height) == s
  {
    PowerOfEight();
    height := BigEndianOnto(s);
  }

  lemma LongerIsConfused(key: ByteString, from: nat, other: ByteString, most: ByteString, height: nat)
    requires key < other && !(Repeated(0, 8) <= other[|key|..])
    requires from == 1 && BigEndian(8, height) == most == Repeated(255, 8)
    ensures Confusable(key, from, other, height)
  {
    var rest := other[|key|..] + most;
    NotAllZero(other[|key|..], most);
    OneIsLeast(from, rest[..8]);
    SplitLonger(key, other, most, 8);
    LongerComesLater(key, BigEndian(8, from), rest[..8], rest[8..]);
  }

  lemma SplitLonger(key: ByteString, other: ByteString, b: ByteString, n: nat)
    requires key < other && n <= |b|
    ensures var rest := other[|key|..] + b;
            other + b == key + (rest[..n] + rest[n..]) && key <= other + b
  {
    var rest := other[|key|..] + b;
    assert rest == rest[..n] + rest[n..];
    assert other == key + other[|key|..];
    assert other + b == key + rest;
  }

  lemma LongerComesLater(key: ByteString, a: ByteString, w: ByteString, tail: ByteString)
    requires Leq(a, w)
    ensures Leq(key + a, key + (w + tail))
  {
    LongerIsLater(w, tail);
    LeqTransitive(a, w, w + tail);
    LeqAfterPrefix(key, a, w + tail);
  }

  lemma NotAllZero(r: ByteString, most: ByteString)
    requires r != [] && !(Repeated(0, 8) <= r) && most == Repeated(255, 8)
    ensures (r + most)[..8] != Repeated(0, 8)
  {
    if |r| >= 8 {
      assert (r + most)[..8] == r[..8];
    } else {
      RepeatedAt(255, 8, 7 - |r|);
      RepeatedAt(0, 8, 7);
      assert (r + most)[..8][7] == 255;
    }
  }

  lemma OneIsLeast(from: nat, w: ByteString)
    requires from == 1 && |w| == 8 && w != Repeated(0, 8)
    ensures Leq(BigEndian(8, from), w)
  {
    var x := BigEndianOnto(w);
    BigEndianZero(8);
    PowerOfEight();
    BigEndianOrder(8, from, x);
  }

  lemma ShorterIsConfused(key: ByteString, from: nat, other: ByteString, t: ByteString, height: nat)
    requires other < key && |key| <= |other| + 7 && t == key[|other|..]
    requires from == 1 && BigEndian(8, height) == t + Repeated(255, 8 - |t|)
    ensures Confusable(key, from, other, height)
  {
    FirstByteOfOne();
    RepeatedAt(255, 8 - |t|, 0);
    ShorterComesLater(key, BigEndian(8, from), other, t, Repeated(255, 8 - |t|));
  }

  lemma ShorterComesLater(key: ByteString, a: ByteString, other: ByteString, t: ByteString, rest: ByteString)
    requires key == other + t && a != [] && rest != [] && a[0] < rest[0]
    ensures Leq(key + a, other + (t + rest)) && key <= other + (t + rest)
  {
    assert other + (t + rest) == key + rest;
    LeqAfterPrefix(key, a, rest);
  }

  lemma ShortIsConfused(key: ByteString, from: nat, other: ByteString, most: ByteString, height: nat)
    requires |other| + 8 < |key| && Before(key[..|other| + 8], other + most)
    requires BigEndian(8, height) == most
    ensures Confusable(key, from, other, height)
  {
    var p, found := key[..|other| + 8], other + most;
    var rest := key[|other| + 8..] + BigEndian(8, from);
    assert HeightKey(key, from) == p + rest && found == found + [];
    LeqOfSameLength(p, rest, found, []);
  }

  lemma SafeKeyShowsThePast(db: Db, past: Past, height: nat, table: nat, keys: set<ByteString>, key: ByteString)
    requires Inv(db, past) && height < U64_MAX && ModifiesOnly(db.store.versions, table, keys)
    requires NeverConfused(keys, key)
    ensures ShowsThePast(db, past, height, Row(table, key))
  {
    SafeKeyIsUnconfused(db, past, RollbackHeight(height), table, keys, key);
    UnconfusedShowsThePast(db, past, height, Row(table, key));
  }

  lemma SafeKeyIsUnconfused(db: Db, past: Past, from: nat, table: nat, keys: set<ByteString>, key: ByteString)
    requires Inv(db, past) && 0 < from <= U64_MAX && ModifiesOnly(db.store.versions, table, keys)
    requires NeverConfused(keys, key)
    ensures Unconfused(db.store.versions, Row(table, key), from)
  {
    EntriesAreRecorded(db, past);
  }

  /* ---------- keys that are safe, and keys that are not ---------- */

  // Keys of one length are safe. So are keys of which none is a prefix of another, unless one
  // is more than eight bytes shorter.
  lemma PrefixFreeIsSafe(keys: set<ByteString>, key: ByteString)
    requires forall other :: other in keys && other != key ==>
               !(key <= other) && !(other <= key) && |key| <= |other| + 8
    ensures NeverConfused(keys, key)
  {
    forall from: nat, other, height: nat | 0 < from <= U64_MAX && other in keys && height <= U64_MAX
      ensures !Confusable(key, from, other, height)
    {
      PrefixOfHeightKey(key, other, height);
    }
  }

  lemma PrefixOfHeightKey(key: ByteString, other: ByteString, height: nat)
    ensures key <= HeightKey(other, height) ==> key <= other || other <= key
  {
    var found := HeightKey(other, height);
    if key <= found {
      assert found[..|other|] == other;
      if |key| <= |other| {
        assert key == found[..|key|] == other[..|key|];
      } else {
        assert key[..|other|] == found[..|other|];
      }
    }
  }

  lemma SameLengthIsSafe(keys: set<ByteString>, key: ByteString)
    requires forall other :: other in keys ==> |other| == |key|
    ensures NeverConfused(keys, key)
  {
    PrefixFreeIsSafe(keys, key);
  }

  // A modification of the longer of two keys shows up under the shorter one.
  lemma PrefixIsMixedUp()
    ensures Confusable([1], 1, [1, 255], 1) && !NeverConfused({[1, 255]}, [1])
  {
    assert HeightKey([1, 255], 1)[..1] == [1];
    var a, b := HeightKey([1], 1), HeightKey([1, 255], 1);
    assert BigEndian(8, 1)[0] == 0 by { FirstByteOfOne(); }
    assert a[0] == b[0] == 1 && a[1] == 0 && b[1] == 255;
    assert a[1..][0] == a[1] && b[1..][0] == b[1];
    assert Leq(a[1..], b[1..]);
    assert Confusable([1], 1, [1, 255], 1);
  }

  lemma FirstByteOfOne()
    ensures BigEndian(8, 1)[0] == 0
  {
    LeadingZero(7);
    assert BigEndian(8, 1) == BigEndian(7, 0) + [1];
    LeadingZero(7);
  }

  lemma {:induction false} LeadingZero(n: nat)
    requires n > 0
    ensures BigEndian(n, 0)[0] == 0
  {
    if n > 1 {
      LeadingZero(n - 1);
    }
  }

  // A modification of a key that is much shorter and comes later makes the read panic.
  lemma ShortKeyPanics()
    ensures Confusable([1, 0, 0, 0, 0, 0, 0, 0, 0, 0], 1, [2], 1)
  {
  }

  /* ---------- a database that mixes up two keys ---------- */

  const OLD := RowValue.Bytes([])
  const NEW := RowValue.Bytes([0])

  const FULL_RANGE := Description(0, {}, U64_MAX, RewindFullRange)

  // A database in which the row `key` has always been the same, and the row `other` is new at
  // `height`.
  ghost predicate Built(db: Db, past: Past, key: RowKey, other: RowKey, first: nat, height: nat, top: int)
  {
    && Inv(db, past) && db.desc == FULL_RANGE
    && past.first == first && past.Top() == top && (past.snapshots == [] ==> db.height == None)
    && (forall h :: first - 1 <= h <= top ==> RowOf(past.At(h), key) == Some(OLD))
    && (other in db.store.rows <==> height <= top)
    && (forall e :: e in db.store.versions ==> e.0 == MetadataRow || e == (other, height))
    && (height <= top ==> (other, height) in db.store.versions && db.store.versions[(other, height)] == Remove)
  }

  lemma BuildBase(key: RowKey, other: RowKey, first: nat, height: nat) returns (db: Db, past: Past)
    requires key != other && key.Row? && other.Row? && first <= height && first <= U64_MAX
    ensures Built(db, past, key, other, first, height, first - 1)
  {
    var rows: Rows := map[key := OLD];
    db, past := Db(FULL_RANGE, Store(rows, map[], map[]), None), Past(rows, first, [], first);
  }

  function ChangesAt(other: RowKey, height: nat, top: nat): (r: Changes)
  {
    if top == height then map[other := Insert(NEW)] else map[]
  }

  lemma CommitBuilds(db: Db, past: Past, key: RowKey, other: RowKey, first: nat, height: nat, top: nat)
    requires key != other && key.Row? && other.Row? && first <= height && first <= top <= U64_MAX
    requires Built(db, past, key, other, first, height, top - 1)
    ensures Commit(db, ChangesAt(other, height, top), [top]).Ok?
    ensures var db' := Commit(db, ChangesAt(other, height, top), [top]).value;
            Built(db', NextPast(past, Some(top), db'.store.rows), key, other, first, height, top)
  {
    var changes := ChangesAt(other, height, top);
    CommitKeepsInv(db, past, changes, [top]);
    var db' := Commit(db, changes, [top]).value;
    var past' := NextPast(past, Some(top), db'.store.rows);
    var all := AllChanges(db.desc, db.store.rows, changes, Some(top));
    CommittedHistory(db.store, RewindFullRange, top, all);
    forall h | first - 1 <= h <= top ensures RowOf(past'.At(h), key) == Some(OLD) {
      PastBefore(past, db'.store.rows, top, h);
      assert RowOf(past.At(top - 1), key) == Some(OLD);
    }
    VersionsAfter(db, db', all, top, other, height);
  }

  lemma PastBefore(past: Past, rows: Rows, top: nat, h: int)
    requires past.Top() == top - 1 && past.first - 1 <= h <= top
    ensures var past' := NextPast(past, Some(top), rows);
            && past'.first == past.first && past'.Top() == top
            && past'.At(h) == if h == top then rows else past.At(h)
  {
  }

  lemma VersionsAfter(db: Db, db': Db, all: Changes, top: nat, other: RowKey, height: nat)
    requires VersionsMatch(db.store) && VersionsMatch(db'.store) && top !in db.store.history && other.Row?
    requires db'.store.history == db.store.history[top := Reversed(db.store.rows, all)]
    requires all.Keys <= {MetadataRow, other} && (other in all <==> top == height)
    requires top == height ==> all[other] == Insert(NEW) && other !in db.store.rows
    requires forall e :: e in db.store.versions ==> e.0 == MetadataRow || e == (other, height)
    requires height < top ==> (other, height) in db.store.versions && db.store.versions[(other, height)] == Remove
    ensures forall e :: e in db'.store.versions ==> e.0 == MetadataRow || e == (other, height)
    ensures height <= top ==> (other, height) in db'.store.versions && db'.store.versions[(other, height)] == Remove
  {
    forall e | e in db'.store.versions ensures e.0 == MetadataRow || e == (other, height) {
      assert e == (e.0, e.1);
      if e.1 != top {
        assert (e.0, e.1) in db.store.versions;
      }
    }
  }

  lemma {:induction false} Build(key: RowKey, other: RowKey, first: nat, height: nat, top: int)
    returns (db: Db, past: Past)
    requires key != other && key.Row? && other.Row? && first <= height && first <= U64_MAX
    requires first - 1 <= top <= U64_MAX
    ensures Built(db, past, key, other, first, height, top)
    decreases top - first
  {
    if top == first - 1 {
      db, past := BuildBase(key, other, first, height);
    } else {
      var db0, past0 := Build(key, other, first, height, top - 1);
      CommitBuilds(db0, past0, key, other, first, height, top);
      db := Commit(db0, ChangesAt(other, height, top), [top]).value;
      past := NextPast(past0, Some(top), db.store.rows);
    }
  }

  lemma MixedUp(table: nat, key: ByteString, from: nat, other: ByteString, height: nat) returns (db: Db, past: Past)
    requires 0 < from <= U64_MAX && height <= U64_MAX && Confusable(key, from, other, height)
    ensures Inv(db, past) && ModifiesOnly(db.store.versions, table, {other})
    ensures !ShowsThePast(db, past, from - 1, Row(table, key))
  {
    var first, top := if from < height then from else height, Max(from, height);
    db, past := Build(Row(table, key), Row(table, other), first, height, top);
    BuiltMixesUp(db, past, table, key, from, other, first, height, top);
  }

  lemma BuiltMixesUp(db: Db, past: Past, table: nat, key: ByteString, from: nat, other: ByteString, first: nat,
                     height: nat, top: nat)
    requires 0 < from <= U64_MAX && height <= top && first <= from <= top && Confusable(key, from, other, height)
    requires Built(db, past, Row(table, key), Row(table, other), first, height, top)
    ensures !ShowsThePast(db, past, from - 1, Row(table, key))
  {
    var view := ViewAtHeight(from, db.store);
    assert CreateViewAt(db.store, from - 1) == Ok(view) by {
      RecordsIff(db.store.history, RewindFullRange, past, from);
    }
    assert RowOf(past.At(from - 1), Row(table, key)) == Some(OLD);
    ReadsTheOther(view, table, key, other, height);
  }

  lemma OnlyCandidate(view: ViewAtHeight, key: RowKey, other: RowKey, height: nat)
    requires key.Row? && other.Row? && key.table == other.table
    requires Confusable(key.key, view.height, other.key, height)
    requires forall e :: e in view.store.versions ==> e.0 == MetadataRow || e == (other, height)
    requires (other, height) in view.store.versions
    ensures Candidates(view, key) == {(other, height)}
  {
  }

  lemma ReadsTheOther(view: ViewAtHeight, table: nat, key: ByteString, other: ByteString, height: nat)
    requires Confusable(key, view.height, other, height)
    requires forall e :: e in view.store.versions ==> e.0 == MetadataRow || e == (Row(table, other), height)
    requires (Row(table, other), height) in view.store.versions
    requires view.store.versions[(Row(table, other), height)] == Remove
    ensures ReadView(view, Row(table, key)) == Panic || ReadView(view, Row(table, key)) == Value(None)
  {
    OnlyCandidate(view, Row(table, key), Row(table, other), height);
    var hit := First(Candidates(view, Row(table, key)));
    assert hit == Some((Row(table, other), height));
  }
}
