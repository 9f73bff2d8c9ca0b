/** Linear shift registers over any word type: what iterating an additive step means. */
module ShiftRegister {

  function Iterate<T>(step: T -> T, x: T, n: nat): T {
    if n == 0 then x else step(Iterate(step, x, n - 1))
  }

  lemma {:induction false} IterateFirst<T>(step: T -> T, x: T, n: nat)
    ensures Iterate(step, step(x), n) == Iterate(step, x, n + 1)
  {
    if n > 0 { IterateFirst(step, x, n - 1); }
  }

  lemma IterateEight<T>(step: T -> T, x: T)
    ensures Iterate(step, x, 8) == step(step(step(step(step(step(step(step(x))))))))
  {
    assert Iterate(step, x, 4) == step(step(step(step(x))));
  }

  ghost predicate Additive<T(!new)>(add: (T, T) -> T, step: T -> T) {
    forall x, y :: step(add(x, y)) == add(step(x), step(y))
  }

  /** Iterating an additive step is additive. */
  lemma {:induction false} IterateAdditive<T(!new)>(add: (T, T) -> T, step: T -> T, x: T, y: T, n: nat)
    requires Additive(add, step)
    ensures Iterate(step, add(x, y), n) == add(Iterate(step, x, n), Iterate(step, y, n))
  {
    if n > 0 { IterateAdditive(add, step, x, y, n - 1); }
  }

  /** Distinct words stay distinct under an injective step. */
  lemma {:induction false} IterateInjective<T(!new)>(step: T -> T, x: T, y: T, n: nat)
    requires forall x, y :: step(x) == step(y) ==> x == y
    requires Iterate(step, x, n) == Iterate(step, y, n)
    ensures x == y
  {
    if n > 0 { IterateInjective(step, x, y, n - 1); }
  }

  /** Whether the `n` low bits of a word are all clear. */
  predicate LowClear<T>(low: T -> bool, half: T -> T, x: T, n: nat) {
    n > 0 ==> !low(x) && LowClear(low, half, half(x), n - 1)
  }

  lemma LowClearEight<T>(low: T -> bool, half: T -> T, x: T)
    ensures LowClear(low, half, x, 8) <==>
            && !low(x) && !low(half(x)) && !low(half(half(x))) && !low(half(half(half(x))))
            && LowClear(low, half, half(half(half(half(x)))), 4)
    ensures LowClear(low, half, x, 4) <==> !low(x) && !low(half(x)) && !low(half(half(x))) && !low(half(half(half(x))))
  {
    assert LowClear(low, half, half(half(half(x))), 1) <==> !low(half(half(half(x))));
    assert LowClear(low, half, half(half(x)), 2) <==>
           !low(half(half(x))) && LowClear(low, half, half(half(half(x))), 1);
  }

  /** While only clear bits leave the register, a step is a plain halving. */
  lemma {:induction false} ClearBitsMoveDown<T(!new)>(low: T -> bool, half: T -> T, step: T -> T, x: T, n: nat)
    requires forall x :: !low(x) ==> step(x) == half(x)
    requires LowClear(low, half, x, n)
    ensures Iterate(step, x, n) == Iterate(half, x, n)
  {
    if n > 0 {
      ClearBitsMoveDown(low, half, step, half(x), n - 1);
      IterateFirst(step, x, n - 1);
      IterateFirst(half, x, n - 1);
    }
  }

  /** The `n` low bits of a word, lowest first. */
  function Bits<T>(low: T -> bool, half: T -> T, x: T, n: nat): seq<bool> {
    if n == 0 then [] else [low(x)] + Bits(low, half, half(x), n - 1)
  }

  /** The register after taking in the bits one at a time. */
  function Serial<T>(take: (T, bool) -> T, reg: T, bits: seq<bool>): T {
    if bits == [] then reg else Serial(take, take(reg, bits[0]), bits[1..])
  }

  lemma {:induction false} SerialConcat<T>(take: (T, bool) -> T, reg: T, a: seq<bool>, b: seq<bool>)
    ensures Serial(take, reg, a + b) == Serial(take, Serial(take, reg, a), b)
    decreases |a|
  {
    if a == [] {
      assert a + b == b;
    } else {
      assert (a + b)[1..] == a[1..] + b;
      SerialConcat(take, take(reg, a[0]), a[1..], b);
    }
  }

  ghost predicate IsZero<T(!new)>(add: (T, T) -> T, zero: T) {
    forall r :: add(r, zero) == r
  }

  /** Adding the low bit before a step and the rest after it is adding the whole word before it. */
  lemma BitThenRest<T(!new)>(add: (T, T) -> T, step: T -> T, half: T -> T, reg: T, bit: T, x: T)
    requires Additive(add, step)
    requires forall r, b, x :: add(add(r, b), add(x, b)) == add(r, x)
    requires step(add(x, bit)) == half(x)
    ensures add(step(add(reg, bit)), half(x)) == step(add(reg, x))
  {
    assert step(add(add(reg, bit), add(x, bit))) == add(step(add(reg, bit)), step(add(x, bit)));
  }

  ghost predicate TakesBits<T(!new)>(add: (T, T) -> T, step: T -> T, low: T -> bool, half: T -> T, take: (T, bool) -> T)
  {
    forall r, x :: add(take(r, low(x)), half(x)) == step(add(r, x))
  }

  /** Taking in a word bit by bit is adding it at once and stepping. */
  lemma {:induction false} SerialOfBits<T(!new)>(add: (T, T) -> T, step: T -> T, low: T -> bool, half: T -> T,
                                                 take: (T, bool) -> T, reg: T, x: T, n: nat)
    requires TakesBits(add, step, low, half, take)
    requires IsZero(add, Iterate(half, x, n))
    ensures Serial(take, reg, Bits(low, half, x, n)) == Iterate(step, add(reg, x), n)
    decreases n
  {
    if n > 0 {
      var bits := Bits(low, half, x, n);
      assert bits[1..] == Bits(low, half, half(x), n - 1);
      IterateFirst(half, x, n - 1);
      SerialOfBits(add, step, low, half, take, take(reg, low(x)), half(x), n - 1);
      IterateFirst(step, add(reg, x), n - 1);
    }
  }

  // ---- one symbol after another ----------------------------------------------------

  function Fold<S, B>(step: (S, B) -> S, s: S, xs: seq<B>): S {
    if xs == [] then s else step(Fold(step, s, xs[..|xs| - 1]), xs[|xs| - 1])
  }

  lemma {:induction false} FoldTailApart<S(!new), B(!new)>(step: (S, B) -> S, s: S, a: seq<B>, b: seq<B>, tail: seq<B>)
    requires forall r, r', x :: r != r' ==> step(r, x) != step(r', x)
    requires Fold(step, s, a) != Fold(step, s, b)
    ensures Fold(step, s, a + tail) != Fold(step, s, b + tail)
  {
    if tail == [] {
      assert a + tail == a && b + tail == b;
    } else {
      var init := tail[..|tail| - 1];
      FoldTailApart(step, s, a, b, init);
      assert (a + tail)[..|a + tail| - 1] == a + init && (b + tail)[..|b + tail| - 1] == b + init;
    }
  }

  /** A difference in one symbol survives any tail, when each symbol acts injectively. */
  lemma FoldOneApart<S(!new), B(!new)>(step: (S, B) -> S, s: S, head: seq<B>, x: B, y: B, tail: seq<B>)
    requires forall r, r', x :: r != r' ==> step(r, x) != step(r', x)
    requires step(Fold(step, s, head), x) != step(Fold(step, s, head), y)
    ensures Fold(step, s, head + [x] + tail) != Fold(step, s, head + [y] + tail)
  {
    assert (head + [x])[..|head|] == head && (head + [y])[..|head|] == head;
    FoldTailApart(step, s, head + [x], head + [y], tail);
  }
}
