/**
 Bit strings, most significant bit first, and the powers-of-two arithmetic behind C's shifts and masks:
 `v << n` is `v * Pow2(n)`, `v >> n` is `v / Pow2(n)` (rounding down, also for negative `v`),
 and `v & ((1 << n) - 1)` is `v % Pow2(n)`.
 */
module Bits {

  type byte = b: int | 0 <= b < 256

  function Pow2(n: nat): (p: nat)
    ensures p > 0
  {
    if n == 0 then 1 else 2 * Pow2(n - 1)
  }

  /** The low `n` bits of `v` in two's complement. */
  function BitsOf(v: int, n: nat): (bits: seq<bool>)
    ensures |bits| == n
  {
    if n == 0 then [] else [v / Pow2(n - 1) % 2 == 1] + BitsOf(v, n - 1)
  }

  /** The unsigned number a bit string stands for. */
  function Value(bits: seq<bool>): (v: nat)
    ensures v < Pow2(|bits|)
  {
    if bits == [] then 0 else (if bits[0] then Pow2(|bits| - 1) else 0) + Value(bits[1..])
  }

  /** `Int16(x)` is what an `int16_t` holds after `x` is stored in it. */
  function Int16(x: int): (r: int)
    ensures -0x8000 <= r < 0x8000
    ensures -0x8000 <= x < 0x8000 ==> r == x
  {
    (x + 0x8000) % 0x1_0000 - 0x8000
  }

  lemma MulAtLeast(d: int, k: int)
    requires d > 0 && k >= 1
    ensures d * k >= d
  {
    assert d * k == d + d * (k - 1);
    assert d * (k - 1) >= 0;
  }

  lemma DivModUnique(v: int, d: int, q: int, r: int)
    requires d > 0 && v == d * q + r && 0 <= r < d
    ensures v / d == q && v % d == r
  {
    var q', r' := v / d, v % d;
    assert v == d * q' + r' && 0 <= r' < d;
    if q' > q {
      assert d * (q' - q) == d * q' - d * q;
      MulAtLeast(d, q' - q);
      assert false;
    }
    if q' < q {
      assert d * (q - q') == d * q - d * q';
      MulAtLeast(d, q - q');
      assert false;
    }
  }

  lemma {:induction false} Pow2Add(a: nat, b: nat)
    ensures Pow2(a + b) == Pow2(a) * Pow2(b)
  {
    if a != 0 {
      Pow2Add(a - 1, b);
    }
  }

  lemma {:induction false} Pow2Mono(a: nat, b: nat)
    requires a <= b
    ensures Pow2(a) <= Pow2(b)
  {
    Pow2Add(a, b - a);
    assert Pow2(a) * 1 <= Pow2(a) * Pow2(b - a);
  }

  lemma DivDiv(v: int, a: int, b: int)
    requires a > 0 && b > 0
    ensures v / a / b == v / (a * b)
    ensures v % (a * b) == a * (v / a % b) + v % a
  {
    var q, r := v / a, v % a;
    var q', r' := q / b, q % b;
    assert v == a * (b * q' + r') + r;
    assert a * (b * q' + r') == a * b * q' + a * r';
    MulMono(0, r', a);
    MulMono(r', b - 1, a);
    assert a * (b - 1) == a * b - a;
    MulAtLeast(a, b);
    DivModUnique(v, a * b, q', a * r' + r);
  }

  lemma DivDivPow2(v: int, a: nat, b: nat)
    ensures v / Pow2(a) / Pow2(b) == v / Pow2(a + b)
    ensures v % Pow2(a + b) == Pow2(a) * (v / Pow2(a) % Pow2(b)) + v % Pow2(a)
  {
    Pow2Add(a, b);
    DivDiv(v, Pow2(a), Pow2(b));
  }

  /** Adding a multiple of the modulus changes the quotient by that multiple. */
  lemma DivAddMultiple(v: int, d: int, k: int)
    requires d > 0
    ensures (v + d * k) / d == v / d + k
    ensures (v + d * k) % d == v % d
  {
    assert v + d * k == d * (v / d + k) + v % d;
    DivModUnique(v + d * k, d, v / d + k, v % d);
  }

  lemma MulMono(a: int, b: int, d: int)
    requires a <= b && 0 <= d
    ensures a * d <= b * d
  {
    assert b * d == a * d + (b - a) * d;
    assert (b - a) * d >= 0;
  }

  lemma DivAtLeast(v: int, d: int, a: int)
    requires d > 0 && a * d <= v
    ensures a <= v / d
  {
    DivAddMultiple(v - a * d, d, a);
    assert v - a * d + d * a == v;
    assert 0 <= (v - a * d) / d;
  }

  lemma DivBelow(v: int, d: int, a: int)
    requires d > 0 && v < a * d
    ensures v / d < a
  {
    DivAddMultiple(v - a * d, d, a);
    assert v - a * d + d * a == v;
    assert (v - a * d) / d < 0;
  }

  /** Reading one more bit of `v`: the prefix doubles and the bit is added. */
  lemma NextPrefix(v: int, n: nat)
    requires n > 0
    ensures v / Pow2(n - 1) == 2 * (v / Pow2(n)) + (v / Pow2(n - 1) % 2)
  {
    DivDivPow2(v, n - 1, 1);
    assert Pow2(1) == 2;
    var q := v / Pow2(n - 1);
    assert q / 2 == v / Pow2(n);
    assert q == 2 * (q / 2) + q % 2;
  }

  /** Splitting a field: the upper `m` bits are those of `v >> k`. */
  lemma {:induction false} BitsSplit(v: int, m: nat, k: nat)
    ensures BitsOf(v, m + k) == BitsOf(v / Pow2(k), m) + BitsOf(v, k)
    decreases m
  {
    if m != 0 {
      BitsSplit(v, m - 1, k);
      DivDivPow2(v, k, m - 1);
      assert k + (m - 1) == m + k - 1;
    }
  }

  /** Only the value modulo 2^m matters to the low `n <= m` bits. */
  lemma {:induction false} BitsMod(v: int, n: nat, m: nat)
    requires n <= m
    ensures BitsOf(v % Pow2(m), n) == BitsOf(v, n)
    decreases n
  {
    if n != 0 {
      BitsMod(v, n - 1, m);
      BitOfMod(v, n - 1, m - n);
      assert (n - 1) + (1 + (m - n)) == m;
    }
  }

  lemma BitOfMod(v: int, i: nat, k: nat)
    ensures v % Pow2(i + (1 + k)) / Pow2(i) % 2 == v / Pow2(i) % 2
  {
    var w := v / Pow2(i);
    DivDivPow2(v, i, 1 + k);
    var r, u := v % Pow2(i), w % Pow2(1 + k);
    assert v % Pow2(i + (1 + k)) == Pow2(i) * u + r;
    DivModUnique(Pow2(i) * u + r, Pow2(i), u, r);
    assert w == 2 * (Pow2(k) * (w / Pow2(1 + k))) + u by {
      assert Pow2(1 + k) == 2 * Pow2(k);
      assert 2 * Pow2(k) * (w / Pow2(1 + k)) == 2 * (Pow2(k) * (w / Pow2(1 + k)));
    }
    EvenShift(w, u, Pow2(k) * (w / Pow2(1 + k)));
  }

  lemma EvenShift(w: int, u: int, t: int)
    requires w == 2 * t + u
    ensures w % 2 == u % 2
  {
  }

  /** Reading a field back gives the value modulo its width. */
  lemma {:induction false} ValueOfBits(v: int, n: nat)
    ensures Value(BitsOf(v, n)) == v % Pow2(n)
  {
    hide Pow2;
    if n == 0 {
      PowersStart();
    } else {
      ValueOfBits(v, n - 1);
      DivDivPow2(v, n - 1, 1);
      PowersStart();
      FirstBit(v, n, v / Pow2(n - 1) % 2);
    }
  }

  lemma PowersStart()
    ensures Pow2(0) == 1 && Pow2(1) == 2
  {
  }

  lemma FirstBit(v: int, n: nat, top: int)
    requires n > 0 && top == v / Pow2(n - 1) % 2
    ensures Value(BitsOf(v, n)) == Pow2(n - 1) * top + Value(BitsOf(v, n - 1))
  {
    hide Pow2;
    var bits := BitsOf(v, n);
    assert bits[1..] == BitsOf(v, n - 1);
    assert bits[0] <==> top == 1;
    assert top == 0 || top == 1;
  }

  lemma {:induction false} BitsOfValue(bits: seq<bool>)
    ensures BitsOf(Value(bits), |bits|) == bits
  {
    if bits != [] {
      var n, t := |bits| - 1, Value(bits[1..]);
      BitsOfValue(bits[1..]);
      var h := if bits[0] then 1 else 0;
      assert Value(bits) == t + Pow2(n) * h;
      DivAddMultiple(t, Pow2(n), h);
      DivModUnique(t, Pow2(n), 0, t);
      BitsMod(Value(bits), n, n);
      BitsMod(t, n, n);
      assert bits == [bits[0]] + bits[1..];
    }
  }

  lemma Width32()
    ensures Pow2(32) == 0x1_0000_0000
  {
    assert Pow2(8) == 0x100;
    assert Pow2(16) == 0x1_0000;
    assert Pow2(24) == 0x100_0000;
  }

  // ---------- `&` and `|` ----------

  /** C's `&` on the low `n` bits. */
  function BitAnd(a: nat, b: nat, n: nat): nat
    decreases n
  {
    if n == 0 then 0 else 2 * BitAnd(a / 2, b / 2, n - 1) + (if a % 2 == 1 && b % 2 == 1 then 1 else 0)
  }

  lemma {:induction false} BitAndOnes(a: nat, ones: nat, n: nat)
    requires a < Pow2(n) && ones == Pow2(n) - 1
    ensures BitAnd(a, ones, n) == a
    decreases n
  {
    if n > 0 {
      DivModUnique(ones, 2, Pow2(n - 1) - 1, 1);
      BitAndOnes(a / 2, ones / 2, n - 1);
    }
  }

  /** C's `|` on the low `n` bits. */
  function BitOr(a: nat, b: nat, n: nat): nat
    decreases n
  {
    if n == 0 then 0 else 2 * BitOr(a / 2, b / 2, n - 1) + (if a % 2 == 1 || b % 2 == 1 then 1 else 0)
  }

  lemma {:induction false} AndMask(a: nat, mask: nat, k: nat, n: nat)
    requires k <= n && mask == Pow2(k) - 1
    ensures BitAnd(a, mask, n) == a % Pow2(k)
    decreases n
  {
    if k == 0 {
      AndZero(a, n);
      DivModUnique(a, 1, a, 0);
    } else {
      assert mask == 2 * (Pow2(k - 1) - 1) + 1;
      DivModUnique(mask, 2, Pow2(k - 1) - 1, 1);
      AndMask(a / 2, mask / 2, k - 1, n - 1);
      DivDiv(a, 2, Pow2(k - 1));
    }
  }

  lemma {:induction false} AndZero(a: nat, n: nat)
    ensures BitAnd(a, 0, n) == 0
    decreases n
  {
    if n > 0 {
      AndZero(a / 2, n - 1);
    }
  }

  lemma {:induction false} OrZero(b: nat, n: nat)
    requires b < Pow2(n)
    ensures BitOr(0, b, n) == b
    decreases n
  {
    if n > 0 {
      OrZero(b / 2, n - 1);
    }
  }

  /** Numbers with no common bit: `|` adds them. */
  lemma {:induction false} OrAdds(a: nat, h: nat, k: nat, n: nat)
    requires k <= n && a < Pow2(k) && h < Pow2(n - k)
    ensures BitOr(a, Pow2(k) * h, n) == a + Pow2(k) * h
    decreases k
  {
    if k == 0 {
      OrZero(h, n);
    } else {
      DivModUnique(Pow2(k) * h, 2, Pow2(k - 1) * h, 0);
      OrAdds(a / 2, h, k - 1, n - 1);
    }
  }
}
