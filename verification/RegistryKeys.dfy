/**
 Registry keys of the temporal compression registry, and the cyclic order in which
 the eviction policy hands them out.
 */
module RegistryKeys {

  // A registry key is a 24-bit number. The largest one is reserved: it stands for the
  // default value of a type and is never written to the registry.
  const DEFAULT_VALUE: int := 0xFF_FFFF

  type Key = k: int | 0 <= k < DEFAULT_VALUE

  // A key as it appears in a compressed block: either writable or `DEFAULT_VALUE`.
  type AnyKey = k: int | 0 <= k <= DEFAULT_VALUE

  const ZERO: Key := 0

  // The cyclic successor; it skips `DEFAULT_VALUE`.
  function Next(k: Key): (r: Key)
  {
    if k + 1 == DEFAULT_VALUE then ZERO else k + 1
  }

  // The key reached from `k` by `steps` successor steps.
  function Advance(k: Key, steps: nat): (r: Key)
  {
    if steps == 0 then k else Next(Advance(k, steps - 1))
  }

  // Advancing composes.
  lemma {:induction false} AdvanceAdds(k: Key, i: nat, j: nat)
    ensures Advance(Advance(k, i), j) == Advance(k, i + j)
  {
    if j > 0 {
      AdvanceAdds(k, i, j - 1);
    }
  }

  lemma AdvanceNext(k: Key, steps: nat)
    ensures Advance(Next(k), steps) == Advance(k, steps + 1)
  {
    AdvanceAdds(k, 1, steps);
    assert Advance(k, 1) == Next(Advance(k, 0));
  }

  // Within a round the keys are visited in numeric order, starting over after the last.
  lemma {:induction false} AdvanceWithinRound(k: Key, steps: nat)
    requires steps <= DEFAULT_VALUE
    ensures Advance(k, steps) == if k + steps < DEFAULT_VALUE then k + steps else k + steps - DEFAULT_VALUE
  {
    if steps > 0 {
      AdvanceWithinRound(k, steps - 1);
    }
  }

  // The keys visited by the first `n` steps.
  ghost function Arc(k: Key, n: nat): (r: set<Key>)
  {
    if n == 0 then {} else Arc(k, n - 1) + {Advance(k, n - 1)}
  }

  lemma {:induction false} ArcHead(k: Key, n: nat)
    requires n > 0
    ensures Arc(k, n) == {k} + Arc(Next(k), n - 1)
  {
    if n > 1 {
      ArcHead(k, n - 1);
      AdvanceNext(k, n - 2);
    }
  }

  // No key comes up twice within a round.
  lemma {:induction false} NoRevisit(k: Key, n: nat, m: nat)
    requires n <= m < DEFAULT_VALUE
    ensures Advance(k, m) !in Arc(k, n)
  {
    if n > 0 {
      NoRevisit(k, n - 1, m);
      AdvanceWithinRound(k, n - 1);
      AdvanceWithinRound(k, m);
    }
  }

  // Two visits to one key are at least a round apart.
  lemma SameKeyNeedsFullRound(k: Key, i: nat, j: nat)
    requires i < j && Advance(k, i) == Advance(k, j)
    ensures j - i >= DEFAULT_VALUE
  {
    AdvanceAdds(k, i, j - i);
    if j - i < DEFAULT_VALUE {
      AdvanceWithinRound(Advance(k, i), j - i);
    }
  }
}
