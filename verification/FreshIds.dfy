/** Readable IDs made unique: the base, else `base-2`, `base-3`, and so on. */
module FreshIds {
  import opened Decimals

  function Numbered(base: string, n: nat): string { base + "-" + NatText(n) }

  lemma NumberedInjective(base: string, a: nat, b: nat)
    requires Numbered(base, a) == Numbered(base, b)
    ensures a == b
  {
    var k := |base| + 1;
    assert Numbered(base, a)[k..] == NatText(a) && Numbered(base, b)[k..] == NatText(b);
    NatTextInjective(a, b);
  }

  /** The taken IDs the search has still ahead of it, from number `n` on. */
  ghost function Ahead(base: string, taken: set<string>, n: nat): set<string> {
    set id | id in taken && exists k :: k >= n && id == Numbered(base, k)
  }

  /** The base, or the base with a number behind it. */
  ghost predicate IsNumbered(id: string, base: string) { id == base || exists n :: n >= 2 && id == Numbered(base, n) }

  /** The base if free, else the least free number from 2 on; the search ends because `taken` does. */
  method FreshId(base: string, taken: set<string>) returns (id: string)
    ensures id !in taken
    ensures base !in taken <==> id == base
    ensures base in taken ==>
        exists n :: n >= 2 && id == Numbered(base, n) && forall k | 2 <= k < n :: Numbered(base, k) in taken
  {
    id := base;
    var next := 2;
    while id in taken
      invariant next >= 2 && (next == 2 ==> id == base)
      invariant next > 2 ==> base in taken && id == Numbered(base, next - 1)
      invariant forall k | 2 <= k < next - 1 :: Numbered(base, k) in taken
      decreases id == base, Ahead(base, taken, next - 1)
    {
      if next > 2 {
        assert id in Ahead(base, taken, next - 1);
        forall k | k >= next && id == Numbered(base, k) ensures false { NumberedInjective(base, k, next - 1); }
        assert id !in Ahead(base, taken, next);
      }
      id := Numbered(base, next);
      next := next + 1;
      assert |id| > |base|;
    }
  }
}
