/**
 * The random source, consumed only through "draw an index in [0, n)".
 * The generator's algorithm is not modelled: `source` gives the raw value of
 * the k-th draw, and `draws` logs the indices handed out, in order.
 */
module Random {

  class RandomStream {
    const source: nat -> nat
    var draws: seq<nat>

    constructor (source: nat -> nat)
      ensures this.source == source && draws == []
    {
      this.source := source;
      draws := [];
    }

    method GetRandomIndex(n: nat) returns (index: nat)
      requires n > 0
      modifies this
      ensures index < n
      ensures index == source(|old(draws)|) % n
      ensures draws == old(draws) + [index]
    {
      index := source(|draws|) % n;
      draws := draws + [index];
    }
  }
}
