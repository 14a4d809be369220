/**
  Linear shift registers over GF(2), for any word type: the facts about repeated division steps
  that do not depend on how a word is represented.
 */
module ShiftRegister {

  /**
    A word type with addition, a division step, and the two places a message bit can enter:
    `low` is the next coefficient to be divided, `top` the last one of the window.
    `half` drops the low bit of a word that is mixed in, `odd` reads it.
   */
  datatype Register<!T> = Register(step: T -> T, add: (T, T) -> T, zero: T, low: T, top: T, half: T -> T,
      odd: T -> bool)

  function Make<T>(step: T -> T, add: (T, T) -> T, zero: T, low: T, top: T, half: T -> T, odd: T -> bool): Register<T> {
    Register(step, add, zero, low, top, half, odd)
  }

  /** The division step is linear. */
  ghost predicate Linear<T(!new)>(r: Register<T>) {
    forall a, b :: r.step(r.add(a, b)) == r.add(r.step(a), r.step(b))
  }

  /** Bits add up as in GF(2). */
  ghost predicate BitsAdd<T(!new)>(r: Register<T>) {
    && (forall a :: r.add(a, r.zero) == a)
    && r.add(r.zero, r.top) == r.top
    && r.add(r.top, r.top) == r.zero
    && r.step(r.zero) == r.zero
  }

  ghost predicate Interchange<T(!new)>(r: Register<T>) {
    forall a, b, c, d :: Interchanges(r, a, b, c, d)
  }

  predicate Interchanges<T(==)>(r: Register<T>, a: T, b: T, c: T, d: T) {
    r.add(r.add(a, b), r.add(c, d)) == r.add(r.add(a, c), r.add(b, d))
  }

  /** A step on a word with another one mixed in consumes the other one's low bit and halves the rest. */
  ghost predicate Peels<T(!new)>(r: Register<T>) {
    forall a, x {:trigger r.add(a, x), r.half(x)} ::
      r.step(r.add(a, x)) == r.add(r.step(r.add(a, LowBit(r, r.odd(x)))), r.half(x))
  }

  /** A bit brought down at the end of the window is divided 32 steps later. */
  predicate Delay<T(==)>(r: Register<T>) {
    Iterate(r, r.top, 32) == r.step(r.low)
  }

  function Iterate<T>(r: Register<T>, x: T, n: nat): T
    decreases n
  {
    if n == 0 then x else Iterate(r, r.step(x), n - 1)
  }

  function LowBit<T>(r: Register<T>, b: bool): T { if b then r.low else r.zero }

  function TopBit<T>(r: Register<T>, b: bool): T { if b then r.top else r.zero }

  /** The bit-serial register: every message bit is mixed into the coefficient that is divided next. */
  function Serial<T>(r: Register<T>, reg: T, bits: seq<bool>): T
    decreases |bits|
  {
    if bits == [] then reg else Serial(r, r.step(r.add(reg, LowBit(r, bits[0]))), bits[1..])
  }

  /** Schoolbook division: every message bit is brought down at the end of the window. */
  function Divide<T>(r: Register<T>, window: T, bits: seq<bool>): T
    decreases |bits|
  {
    if bits == [] then window else Divide(r, r.add(r.step(window), TopBit(r, bits[0])), bits[1..])
  }

  /** The lowest n bits of a word, lowest first. */
  function LowBits<T>(r: Register<T>, x: T, n: nat): (bits: seq<bool>)
    ensures |bits| == n
    decreases n
  {
    if n == 0 then [] else [r.odd(x)] + LowBits(r, r.half(x), n - 1)
  }

  function Halves<T>(r: Register<T>, x: T, n: nat): T
    decreases n
  {
    if n == 0 then x else Halves(r, r.half(x), n - 1)
  }

  lemma {:induction false} IterateLinear<T(!new)>(r: Register<T>, x: T, y: T, n: nat)
    requires Linear(r)
    ensures Iterate(r, r.add(x, y), n) == r.add(Iterate(r, x, n), Iterate(r, y, n))
    decreases n
  {
    if n > 0 {
      IterateLinear(r, r.step(x), r.step(y), n - 1);
    }
  }

  lemma {:induction false} IterateSplit<T>(r: Register<T>, x: T, m: nat, n: nat)
    ensures Iterate(r, x, m + n) == Iterate(r, Iterate(r, x, m), n)
    decreases m
  {
    if m > 0 {
      IterateSplit(r, r.step(x), m - 1, n);
    }
  }

  lemma {:induction false} SerialSplit<T>(r: Register<T>, reg: T, a: seq<bool>, b: seq<bool>)
    ensures Serial(r, reg, a + b) == Serial(r, Serial(r, reg, a), b)
    decreases |a|
  {
    if a == [] {
      assert a + b == b;
    } else {
      assert (a + b)[1..] == a[1..] + b;
      SerialSplit(r, r.step(r.add(reg, LowBit(r, a[0]))), a[1..], b);
    }
  }

  lemma {:induction false} DivideSplit<T>(r: Register<T>, window: T, a: seq<bool>, b: seq<bool>)
    ensures Divide(r, window, a + b) == Divide(r, Divide(r, window, a), b)
    decreases |a|
  {
    if a == [] {
      assert a + b == b;
    } else {
      assert (a + b)[1..] == a[1..] + b;
      DivideSplit(r, r.add(r.step(window), TopBit(r, a[0])), a[1..], b);
    }
  }

  /** Feeding the low bits of a word one by one is as many division steps on the word mixed in at once. */
  lemma {:induction false} SerialIsIterate<T(!new)>(r: Register<T>, reg: T, x: T, n: nat)
    requires Peels(r)
    ensures r.add(Serial(r, reg, LowBits(r, x, n)), Halves(r, x, n)) == Iterate(r, r.add(reg, x), n)
    decreases n
  {
    if n > 0 {
      var next := r.step(r.add(reg, LowBit(r, r.odd(x))));
      assert LowBits(r, x, n)[1..] == LowBits(r, r.half(x), n - 1);
      SerialIsIterate(r, next, r.half(x), n - 1);
    }
  }

  function Zeros(n: nat): (z: seq<bool>)
    ensures |z| == n && forall i :: 0 <= i < n ==> !z[i]
  {
    seq(n, i => false)
  }

  lemma {:induction false} DivideZeros<T(!new)>(r: Register<T>, window: T, n: nat)
    requires BitsAdd(r)
    ensures Divide(r, window, Zeros(n)) == Iterate(r, window, n)
    decreases n
  {
    if n > 0 {
      assert Zeros(n)[1..] == Zeros(n - 1);
      DivideZeros(r, r.step(window), n - 1);
    }
  }

  /** Mixing a bit in at the front is bringing it down 32 steps earlier. */
  lemma {:induction false} DivideIsSerial<T(!new)>(r: Register<T>, window: T, bits: seq<bool>)
    requires Linear(r) && BitsAdd(r) && Delay(r)
    ensures Iterate(r, Divide(r, window, bits), 32) == Serial(r, Iterate(r, window, 32), bits)
    decreases |bits|
  {
    if bits != [] {
      var next := r.add(r.step(window), TopBit(r, bits[0]));
      DivideIsSerial(r, next, bits[1..]);
      IterateLinear(r, r.step(window), TopBit(r, bits[0]), 32);
      IterateSplit(r, window, 1, 32);
      IterateSplit(r, window, 32, 1);
      assert Iterate(r, window, 1) == r.step(window);
      IterateZero(r, 32);
      var g := Iterate(r, window, 32);
      assert Iterate(r, g, 1) == r.step(g);
      assert Iterate(r, next, 32) == r.step(r.add(g, LowBit(r, bits[0])));
    }
  }

  lemma {:induction false} IterateZero<T(!new)>(r: Register<T>, n: nat)
    requires BitsAdd(r)
    ensures Iterate(r, r.zero, n) == r.zero
    decreases n
  {
    if n > 0 {
      IterateZero(r, n - 1);
    }
  }

  function Xor(a: seq<bool>, b: seq<bool>): (c: seq<bool>)
    requires |a| == |b|
    ensures |c| == |a| && forall i :: 0 <= i < |a| ==> c[i] == (a[i] != b[i])
  {
    seq(|a|, i requires 0 <= i < |a| => a[i] != b[i])
  }

  lemma {:induction false} DivideLinear<T(!new)>(r: Register<T>, w: T, v: T, a: seq<bool>, b: seq<bool>)
    requires Linear(r) && BitsAdd(r) && Interchange(r) && |a| == |b|
    ensures Divide(r, r.add(w, v), Xor(a, b)) == r.add(Divide(r, w, a), Divide(r, v, b))
    decreases |a|
  {
    if a != [] {
      assert Xor(a, b)[1..] == Xor(a[1..], b[1..]);
      DivideLinear(r, r.add(r.step(w), TopBit(r, a[0])), r.add(r.step(v), TopBit(r, b[0])), a[1..], b[1..]);
      assert r.add(TopBit(r, a[0]), TopBit(r, b[0])) == TopBit(r, a[0] != b[0]);
      assert Interchanges(r, r.step(w), r.step(v), TopBit(r, a[0]), TopBit(r, b[0]));
    }
  }
}
