/** Seeded deterministic shuffle (src/utils/seedShuffle.js): a string hash that
    turns the seed text into a 32-bit state, the Mulberry32 generator driven
    by that state, and a Fisher–Yates shuffle over a copy of the input. */
module SeedShuffle {
  import opened Wrappers
  import opened Collections
  import opened Bits

  /** One UTF-16 code unit, what `String.prototype.charCodeAt` returns. */
  type CodeUnit = x: int | 0 <= x < 0x1_0000

  /** The UTF-16 code units of one Unicode scalar value: the value itself
      below U+10000, otherwise a high surrogate followed by a low surrogate
      from which the value is recovered. */
  function CharUnits(c: char): (units: seq<CodeUnit>)
    ensures 1 <= |units| <= 2
    ensures |units| == 1 <==> c as int < 0x1_0000
    ensures |units| == 1 ==> units[0] == c as int
    ensures |units| == 2 ==>
      && 0xD800 <= units[0] < 0xDC00 && 0xDC00 <= units[1] < 0xE000
      && c as int == 0x1_0000 + (units[0] as int - 0xD800) * 0x400 + (units[1] as int - 0xDC00)
  {
    var v := c as int;
    if v < 0x1_0000 then [v]
    else [0xD800 + (v - 0x1_0000) / 0x400, 0xDC00 + (v - 0x1_0000) % 0x400]
  }

  /** The JavaScript view of a string: its sequence of UTF-16 code units. */
  function Utf16(s: string): (units: seq<CodeUnit>)
    ensures |units| >= |s|
  {
    if s == [] then [] else CharUnits(s[0]) + Utf16(s[1..])
  }

  /** The FNV-1a offset basis. */
  const FnvOffset: Uint32 := 2166136261

  /** Multiplication by the 32-bit FNV prime 16777619, modulo 2^32. */
  function FnvMultiply(x: Uint32): Uint32
  {
    Imul(x, 16777619)
  }

  /** 32-bit FNV-1a over a sequence of code units: start at the offset basis;
      per code unit, xor it in, then multiply by the FNV prime. */
  function Fnv1a(units: seq<CodeUnit>): Uint32
  {
    if units == [] then FnvOffset
    else FnvMultiply(Xor32(Fnv1a(units[..|units| - 1]), units[|units| - 1]))
  }

  /** The shifted sum of line 16, reduced modulo 2^32 by `Math.imul(_, 1) >>> 0`. */
  function ShiftedSum(h: Uint32): Uint32
  {
    To32(h + ShiftLeft32(h, 1) + ShiftLeft32(h, 4) + ShiftLeft32(h, 7) + ShiftLeft32(h, 8) + ShiftLeft32(h, 24))
  }

  /** The shifted sum is multiplication by the FNV prime,
      since 16777619 = 2^24 + 2^8 + 2^7 + 2^4 + 2^1 + 1. */
  lemma ShiftedSumIsFnvMultiply(h: Uint32)
    ensures ShiftedSum(h) == FnvMultiply(h)
  {
    Pow2Values();
    var a, b, c, d, e := h * 2, h * 16, h * 128, h * 256, h * 0x100_0000;
    assert ShiftLeft32(h, 1) == To32(a) && ShiftLeft32(h, 4) == To32(b) && ShiftLeft32(h, 7) == To32(c);
    assert ShiftLeft32(h, 8) == To32(d) && ShiftLeft32(h, 24) == To32(e);
    assert h + a + b + c + d + e == h * 16777619;
    ReduceSummand(h + To32(a) + To32(b) + To32(c) + To32(d), e);
    ReduceSummand(h + To32(a) + To32(b) + To32(c) + e, d);
    ReduceSummand(h + To32(a) + To32(b) + d + e, c);
    ReduceSummand(h + To32(a) + c + d + e, b);
    ReduceSummand(h + b + c + d + e, a);
  }

  /** hashString: the loop of the source, one code unit at a time. */
  method HashString(str: string) returns (h: Uint32)
    ensures h == Fnv1a(Utf16(str))
  {
    var units := Utf16(str);
    h := FnvOffset;
    for i := 0 to |units|
      invariant h == Fnv1a(units[..i])
    {
      assert units[..i + 1][..i] == units[..i];
      h := Xor32(h, units[i]);
      ShiftedSumIsFnvMultiply(h);
      h := ShiftedSum(h);
    }
    assert units[..|units|] == units;
  }

  /** The constant the generator adds to its captured state on every call. */
  const Increment: nat := 0x6D2B79F5

  /** Line 5: `Math.imul(t ^ (t >>> 15), t | 1)`. */
  function MixMultiply(t: Uint32): Uint32
  {
    Imul(Xor32(t, ShiftRight32(t, 15)), Or32(t, 1))
  }

  /** Line 6: `t ^ (t + Math.imul(t ^ (t >>> 7), t | 61))`; the sum is reduced
      by the `^`. */
  function MixXorAdd(t: Uint32): Uint32
  {
    Xor32(t, To32(t + Imul(Xor32(t, ShiftRight32(t, 7)), Or32(t, 61))))
  }

  /** Line 7 before the division: `(t ^ (t >>> 14)) >>> 0`. */
  function MixFinal(t: Uint32): Uint32
  {
    Xor32(t, ShiftRight32(t, 14))
  }

  /** The 32 bits one call of the generator returns when its captured
      number is `a` before the call. */
  function Output(a: nat): Uint32
  {
    MixFinal(MixXorAdd(MixMultiply(To32(a + Increment))))
  }

  /** The generator never needs more of its captured number than its residue
      modulo 2^32: the state behaves as a 32-bit counter stepping by the increment. */
  lemma OutputDependsOnResidue(a: nat)
    ensures Output(a) == Output(a % TwoTo32)
  {
    ReduceSummand(Increment, a);
  }

  /** The number a call returns: its output bits divided by 2^32. */
  function Uniform(bits: Uint32): (u: real)
    ensures 0.0 <= u < 1.0
  {
    bits as real / TwoTo32 as real
  }

  /** The closure returned by `mulberry32(seed)`: the captured number `a`
      and the function that advances it and returns the next draw. */
  class Mulberry32 {
    var a: nat

    constructor (seed: Uint32)
      ensures a == seed
    {
      a := seed;
    }

    /** One call: `a` grows by the increment, the result lies in [0, 1). */
    method Rand() returns (u: real)
      modifies this
      ensures a == old(a) + Increment
      ensures u == Uniform(Output(old(a)))
      ensures 0.0 <= u < 1.0
    {
      a := a + Increment;
      var t := To32(a);
      t := MixMultiply(t);
      t := MixXorAdd(t);
      u := Uniform(MixFinal(t));
    }
  }

  /** `Math.floor(u * (i + 1))`: the position swapped with position i. */
  function PickIndex(u: real, i: nat): (j: nat)
    requires 0.0 <= u < 1.0
    ensures j <= i
  {
    ScaledFloorBounds(u, i + 1);
    ScaledFloor(u, i + 1)
  }

  /** floor(u * n), on exact reals. */
  function ScaledFloor(u: real, n: nat): int
  {
    (u * n as real).Floor
  }

  lemma ScaledFloorBounds(u: real, n: nat)
    requires 0.0 <= u < 1.0 && n >= 1
    ensures 0 <= ScaledFloor(u, n) < n
  {
    assert u * n as real < n as real by {
      assert (1.0 - u) * n as real > 0.0;
    }
  }

  /** The swap partner of position i for output bits `bits`, in integers:
      (bits * (i + 1)) div 2^32. */
  function SwapPartner(bits: Uint32, i: nat): (j: nat)
    ensures j <= i
  {
    QuotientBelow(bits, i + 1);
    (bits * (i + 1)) / TwoTo32
  }

  lemma QuotientBelow(b: nat, n: nat)
    requires b < TwoTo32
    ensures (b * n) / TwoTo32 < n || n == 0
  {
    if n > 0 {
      var q := (b * n) / TwoTo32;
      assert q * TwoTo32 <= b * n;
      assert b * n < TwoTo32 * n;
    }
  }

  /** The floor of the scaled draw is an exact integer quotient:
      floor(bits / 2^32 * (i + 1)) = (bits * (i + 1)) div 2^32. */
  lemma PickIndexIsIntegerQuotient(bits: Uint32, i: nat)
    ensures PickIndex(Uniform(bits), i) == SwapPartner(bits, i)
  {
    ScaledQuotient(bits, i + 1);
  }

  lemma ScaledQuotient(b: nat, n: nat)
    ensures ScaledFloor(b as real / TwoTo32 as real, n) == (b * n) / TwoTo32
  {
    IntProductToReal(b, n);
    QuotientTimes(b as real, n as real, TwoTo32 as real);
    FloorOfRealQuotient(b * n, TwoTo32);
  }

  lemma QuotientTimes(x: real, y: real, d: real)
    requires d != 0.0
    ensures (x / d) * y == (x * y) / d
  {
  }

  lemma IntProductToReal(a: int, c: int)
    ensures (a * c) as real == a as real * c as real
  {
  }

  lemma FloorOfRealQuotient(p: nat, d: nat)
    requires d > 0
    ensures (p as real / d as real).Floor == p / d
  {
    var q, m := p / d, p % d;
    assert p as real == q as real * d as real + m as real;
    assert p as real / d as real == q as real + m as real / d as real;
    assert 0.0 <= m as real / d as real < 1.0;
  }

  /** Exchanges positions i and j, as the destructuring assignment of line 27. */
  function Swap<T>(s: seq<T>, i: nat, j: nat): (r: seq<T>)
    requires i < |s| && j < |s|
    ensures |r| == |s| && r[i] == s[j] && r[j] == s[i]
    ensures forall k :: 0 <= k < |s| && k != i && k != j ==> r[k] == s[k]
  {
    s[i := s[j]][j := s[i]]
  }

  /** The swap partners the generator yields for positions i, i - 1, ..., 1
      when its captured number is `a`. */
  function Picks(a: nat, i: nat): (p: seq<nat>)
    ensures Partners(p, i)
    decreases i
  {
    if i == 0 then [] else [SwapPartner(Output(a), i)] + Picks(a + Increment, i - 1)
  }

  /** `p` names, for positions i down to 1, a partner at or below each position. */
  predicate Partners(p: seq<nat>, i: nat)
  {
    |p| == i && forall k :: 0 <= k < i ==> p[k] <= i - k
  }

  /** The shuffle loop from position i down to 1, position i - k swapped with p[k]. */
  function FisherYates<T>(s: seq<T>, i: nat, p: seq<nat>): seq<T>
    requires i < |s| && Partners(p, i)
    decreases i
  {
    if i == 0 then s else FisherYates(Swap(s, i, p[0]), i - 1, p[1..])
  }

  /** The whole shuffle of `s` from generator seed `seed`. */
  function Shuffled<T>(s: seq<T>, seed: nat): seq<T>
  {
    if |s| == 0 then [] else FisherYates(s, |s| - 1, Picks(seed, |s| - 1))
  }

  /** What `seededShuffle(items, seedStr)` returns for an array argument. */
  function SeededShuffleOf<T>(items: seq<T>, seedStr: string): seq<T>
  {
    Shuffled(items, Fnv1a(Utf16(seedStr)))
  }

  lemma SwapPermutes<T>(s: seq<T>, i: nat, j: nat)
    requires i < |s| && j < |s|
    ensures multiset(Swap(s, i, j)) == multiset(s)
  {
    var t := s[i := s[j]];
    assert multiset(t) == multiset(s) - multiset{s[i]} + multiset{s[j]};
    assert multiset(t[j := s[i]]) == multiset(t) - multiset{t[j]} + multiset{s[i]};
  }

  /** Every Fisher–Yates run rearranges its input, whatever partners it is
      given: same length, same multiset. */
  lemma {:induction false} FisherYatesPermutes<T>(s: seq<T>, i: nat, p: seq<nat>)
    requires i < |s| && Partners(p, i)
    ensures |FisherYates(s, i, p)| == |s|
    ensures multiset(FisherYates(s, i, p)) == multiset(s)
    decreases i
  {
    if i > 0 {
      SwapPermutes(s, i, p[0]);
      FisherYatesPermutes(Swap(s, i, p[0]), i - 1, p[1..]);
    }
  }

  /** The shuffle only moves elements: it returns a permutation of its input. */
  lemma ShuffledPermutes<T>(s: seq<T>, seed: nat)
    ensures |Shuffled(s, seed)| == |s|
    ensures multiset(Shuffled(s, seed)) == multiset(s)
  {
    if |s| > 0 {
      FisherYatesPermutes(s, |s| - 1, Picks(seed, |s| - 1));
    }
  }

  /** The order chosen never looks at the elements: mapping a function over
      the result is the same as shuffling the mapped input. */
  lemma {:induction false} FisherYatesCommutesWithMap<T, U>(f: T -> U, s: seq<T>, i: nat, p: seq<nat>)
    requires i < |s| && Partners(p, i)
    ensures MapSeq(f, FisherYates(s, i, p)) == FisherYates(MapSeq(f, s), i, p)
    decreases i
  {
    if i > 0 {
      assert MapSeq(f, Swap(s, i, p[0])) == Swap(MapSeq(f, s), i, p[0]);
      FisherYatesCommutesWithMap(f, Swap(s, i, p[0]), i - 1, p[1..]);
    }
  }

  lemma ShuffledCommutesWithMap<T, U>(f: T -> U, s: seq<T>, seed: nat)
    ensures MapSeq(f, Shuffled(s, seed)) == Shuffled(MapSeq(f, s), seed)
  {
    if |s| > 0 {
      FisherYatesCommutesWithMap(f, s, |s| - 1, Picks(seed, |s| - 1));
    }
  }

  /** The loop of lines 25-28: Fisher–Yates in place, from the last position
      down to 1, each swap partner drawn from `rand`. */
  method FisherYatesInPlace<T>(r: array<T>, rand: Mulberry32)
    modifies r, rand
    ensures r[..] == Shuffled(old(r[..]), old(rand.a))
  {
    ghost var target := Shuffled(r[..], rand.a);
    if r.Length > 0 {
      var i := r.Length - 1;
      while i > 0
        invariant 0 <= i < r.Length
        invariant FisherYates(r[..], i, Picks(rand.a, i)) == target
      {
        SwapWithDraw(r, rand, i);
        i := i - 1;
      }
      assert FisherYates(r[..], 0, Picks(rand.a, 0)) == r[..];
    }
  }

  /** Unrolling one step of the shuffle from generator state `a`. */
  lemma FisherYatesStep<T>(s: seq<T>, i: nat, a: nat)
    requires 0 < i < |s|
    ensures FisherYates(s, i, Picks(a, i))
      == FisherYates(Swap(s, i, Picks(a, i)[0]), i - 1, Picks(a + Increment, i - 1))
  {
    assert Picks(a, i)[1..] == Picks(a + Increment, i - 1);
  }

  /** One iteration of that loop: draw, pick j, exchange positions i and j. */
  method SwapWithDraw<T>(r: array<T>, rand: Mulberry32, i: nat)
    requires 0 < i < r.Length
    modifies r, rand
    ensures rand.a == old(rand.a) + Increment
    ensures r[..] == Swap(old(r[..]), i, Picks(old(rand.a), i)[0])
    ensures FisherYates(r[..], i - 1, Picks(rand.a, i - 1)) == FisherYates(old(r[..]), i, Picks(old(rand.a), i))
  {
    FisherYatesStep(r[..], i, rand.a);
    ghost var bits := Output(rand.a);
    var u := rand.Rand();
    var j := PickIndex(u, i);
    PickIndexIsIntegerQuotient(bits, i);
    r[i], r[j] := r[j], r[i];
  }

  /** seededShuffle: copies an array argument (any other argument gives an
      empty array), then runs Fisher–Yates in place on the copy, drawing from
      a Mulberry32 generator seeded with the hash of `seedStr`. The method has
      no modifies clause, so the argument array is left as it was. */
  method SeededShuffle<T>(input: Option<array<T>>, seedStr: string) returns (r: array<T>)
    ensures fresh(r)
    ensures input.None? ==> r[..] == []
    ensures input.Some? ==> r[..] == SeededShuffleOf(input.value[..], seedStr)
    ensures input.Some? ==> multiset(r[..]) == multiset(input.value[..])
  {
    var seed := HashString(seedStr);
    var rand := new Mulberry32(seed);
    var items := if input.Some? then input.value[..] else [];
    r := new T[|items|](k requires 0 <= k < |items| => items[k]);
    assert r[..] == items;
    FisherYatesInPlace(r, rand);
    ShuffledPermutes(items, seed);
  }
}
