/** The two hash functions of cache.c: Robert Jenkins' 32-bit mixer, proved to be
    a bijection by giving its inverse, and the djb2 string hash. Unsigned C
    words are integers below 2^32 or 2^64, and every wrap-around is written out. */
module Hash {
  import opened Bytes

  const M32: nat := 0x1_0000_0000
  const M64: nat := 0x1_0000_0000_0000_0000

  type Word = x: nat | x < M32

  // ---- bitwise operations on natural numbers ----

  function Pow2(k: nat): (p: nat)
    ensures p >= 1
  {
    if k == 0 then 1 else 2 * Pow2(k - 1)
  }

  /** Bitwise exclusive or, digit by binary digit. */
  function Xor(x: nat, y: nat): nat {
    if x == 0 && y == 0 then 0 else (x % 2 + y % 2) % 2 + 2 * Xor(x / 2, y / 2)
  }

  function Shr(x: nat, k: nat): nat {
    if k == 0 then x else Shr(x / 2, k - 1)
  }

  /** The defining equation, with the division and remainder of the result. */
  lemma XorDigits(x: nat, y: nat)
    ensures Xor(x, y) / 2 == Xor(x / 2, y / 2)
    ensures Xor(x, y) % 2 == (x % 2 + y % 2) % 2
  {
  }

  lemma ZeroXorZero()
    ensures Xor(0, 0) == 0
  {
  }

  /** To show `Xor(u, y) == r`, compare last digits and halves. */
  lemma SameXor(u: nat, y: nat, r: nat)
    requires Xor(u / 2, y / 2) == r / 2
    requires (u % 2 + y % 2) % 2 == r % 2
    ensures Xor(u, y) == r
  {
    hide Xor;
    XorDigits(u, y);
  }

  lemma {:induction false} XorCancel(x: nat, y: nat)
    ensures Xor(Xor(x, y), y) == x
  {
    hide Xor;
    if x == 0 && y == 0 {
      ZeroXorZero();
    } else {
      XorCancel(x / 2, y / 2);
      XorDigits(x, y);
      SameXor(Xor(x, y), y, x);
    }
  }

  /** Of three words xored in, the one that comes back cancels. */
  lemma {:induction false} XorMiddle(x: nat, s: nat, c: nat)
    ensures Xor(Xor(Xor(x, c), s), c) == Xor(x, s)
  {
    hide Xor;
    if x == 0 && s == 0 && c == 0 {
      ZeroXorZero();
    } else {
      XorMiddle(x / 2, s / 2, c / 2);
      var u := Xor(x, c);
      XorDigits(x, c);
      XorDigits(u, s);
      XorDigits(x, s);
      SameXor(Xor(u, s), c, Xor(x, s));
    }
  }

  lemma {:induction false} XorBound(x: nat, y: nat, k: nat)
    requires x < Pow2(k) && y < Pow2(k)
    ensures Xor(x, y) < Pow2(k)
  {
    if k > 0 {
      XorBound(x / 2, y / 2, k - 1);
      XorDigits(x, y);
    }
  }

  lemma {:induction false} XorShr(x: nat, y: nat, k: nat)
    ensures Shr(Xor(x, y), k) == Xor(Shr(x, k), Shr(y, k))
  {
    if k > 0 {
      XorDigits(x, y);
      XorShr(x / 2, y / 2, k - 1);
    }
  }

  lemma {:induction false} ShrShr(x: nat, j: nat, k: nat)
    ensures Shr(Shr(x, j), k) == Shr(x, j + k)
  {
    if j > 0 {
      ShrShr(x / 2, j - 1, k);
    }
  }

  lemma {:induction false} ShrZero(x: nat, n: nat, k: nat)
    requires x < Pow2(n) && n <= k
    ensures Shr(x, k) == 0
  {
    if k > 0 {
      ShrZero(x / 2, if n == 0 then 0 else n - 1, k - 1);
    }
  }

  lemma {:induction false} ShrBound(x: nat, n: nat, k: nat)
    requires x < Pow2(n)
    ensures Shr(x, k) < Pow2(n)
  {
    if k > 0 {
      ShrBound(x / 2, n, k - 1);
    }
  }

  lemma {:induction false} ModHalves(x: nat, p: nat)
    requires p > 0
    ensures x % (2 * p) == 2 * ((x / 2) % p) + x % 2
  {
    var q, r := (x / 2) / p, (x / 2) % p;
    assert x == (2 * p) * q + (2 * r + x % 2);
    ModUnique(x, 2 * p, q, 2 * r + x % 2);
  }

  lemma ModUnique(x: int, m: nat, q: int, r: int)
    requires m > 0 && x == m * q + r && 0 <= r < m
    ensures x % m == r
  {
    var d := x / m - q;
    assert m * d == r - x % m;
    if d != 0 {
      assert false by { MulAtLeast(m, d); }
    }
  }

  lemma MulAtLeast(m: int, d: int)
    requires m > 0 && d != 0
    ensures m * d >= m || m * d <= -m
  {
  }

  /** The low k bits of a xor depend only on the low k bits of its arguments. */
  lemma {:induction false} XorLowBits(b: nat, x: nat, y: nat, k: nat)
    requires x % Pow2(k) == y % Pow2(k)
    ensures Xor(b, x) % Pow2(k) == Xor(b, y) % Pow2(k)
  {
    hide Xor;
    if k > 0 {
      var p := Pow2(k - 1);
      ModHalves(x, p); ModHalves(y, p);
      XorLowBits(b / 2, x / 2, y / 2, k - 1);
      XorDigits(b, x); XorDigits(b, y);
      ModHalves(Xor(b, x), p); ModHalves(Xor(b, y), p);
    }
  }

  lemma Powers()
    ensures Pow2(9) == 0x200 && Pow2(18) == 0x4_0000 && Pow2(27) == 0x800_0000 && Pow2(32) == M32
  {
    assert Pow2(9) == 0x200;
    assert Pow2(18) == 0x4_0000;
    assert Pow2(27) == 0x800_0000;
  }

  // ---- hash32, one function per line of the source ----

  /** A xor of words is a word. */
  function XorW(x: Word, y: Word): Word {
    Powers(); XorBound(x, y, 32);
    Xor(x, y)
  }

  function ShrW(x: Word, k: nat): Word {
    Powers(); ShrBound(x, 32, k);
    Shr(x, k)
  }

  function ShlW(x: Word, factor: nat): Word { x * factor % M32 }

  function AddW(x: Word, y: Word): Word { (x + y) % M32 }

  function Mix1(a: Word): Word { AddW(AddW(a, 0x7ed55d16), ShlW(a, 0x1000)) }
  function Mix2(a: Word): Word { XorW(XorW(a, 0xc761c23c), ShrW(a, 19)) }
  function Mix3(a: Word): Word { AddW(AddW(a, 0x165667b1), ShlW(a, 0x20)) }
  function Mix4(a: Word): Word { XorW(AddW(a, 0xd3a2646c), ShlW(a, 0x200)) }
  function Mix5(a: Word): Word { AddW(AddW(a, 0xfd7046c5), ShlW(a, 0x8)) }
  function Mix6(a: Word): Word { XorW(XorW(a, 0xb55a4f09), ShrW(a, 16)) }

  function Hash32(a: Word): Word {
    Mix6(Mix5(Mix4(Mix3(Mix2(Mix1(a))))))
  }

  // ---- the inverse: the modular inverse of each odd multiplier ... ----

  function Unmix1(b: Word): Word { AddW(b, M32 - 0x7ed55d16) * 0x00fff001 % M32 }
  function Unmix3(b: Word): Word { AddW(b, M32 - 0x165667b1) * 0x3e0f83e1 % M32 }
  function Unmix5(b: Word): Word { AddW(b, M32 - 0xfd7046c5) * 0x38e38e39 % M32 }

  // ... a second shift for each xor-shift ...

  function Unmix2(b: Word): Word {
    var z := XorW(b, 0xc761c23c);
    XorW(z, ShrW(z, 19))
  }

  function Unmix6(b: Word): Word {
    var z := XorW(b, 0xb55a4f09);
    XorW(z, ShrW(z, 16))
  }

  // ... and, for the add-xor step, the fixed point of Refine: its low nine bits
  // do not depend on its argument, and each round settles nine more.

  function Refine(b: Word, x: Word): Word {
    AddW(XorW(b, ShlW(x, 0x200)), M32 - 0xd3a2646c)
  }

  function Unmix4(b: Word): Word {
    Refine(b, Refine(b, Refine(b, Refine(b, 0))))
  }

  function Unhash32(h: Word): Word {
    Unmix1(Unmix2(Unmix3(Unmix4(Unmix5(Unmix6(h))))))
  }

  // ---- each step against its inverse ----

  /** `k` has the inverse `inv` modulo 2^32. */
  lemma Multiplier(a: Word, k: nat, inv: nat, q: nat)
    requires k * inv == q * M32 + 1
    ensures a * k % M32 * inv % M32 == a
  {
    var w := a * k / M32;
    calc {
      a * k % M32 * inv;
      (a * k - w * M32) * inv;
      a * (k * inv) - w * M32 * inv;
      a * (q * M32 + 1) - w * M32 * inv;
      (a * q - w * inv) * M32 + a;
    }
    ModUnique(a * k % M32 * inv, M32, a * q - w * inv, a);
  }

  lemma UnmixSum(a: Word)
    ensures Unmix1(Mix1(a)) == a && Mix1(Unmix1(a)) == a
    ensures Unmix3(Mix3(a)) == a && Mix3(Unmix3(a)) == a
    ensures Unmix5(Mix5(a)) == a && Mix5(Unmix5(a)) == a
  {
    UnmixSumOne(a, 0x7ed55d16, 0x1000, 0x00fff001, 0x00fff001 * 4097 / M32);
    UnmixSumOne(a, 0x165667b1, 0x20, 0x3e0f83e1, 0x3e0f83e1 * 33 / M32);
    UnmixSumOne(a, 0xfd7046c5, 0x8, 0x38e38e39, 0x38e38e39 * 9 / M32);
  }

  /** One shifted sum `a + c + a*f` and its inverse, both ways round. */
  lemma UnmixSumOne(a: Word, c: Word, f: nat, inv: nat, q: nat)
    requires c > 0 && (f + 1) * inv == q * M32 + 1
    ensures AddW(AddW(AddW(a, c), ShlW(a, f)), M32 - c) * inv % M32 == a
    ensures var u := AddW(a, M32 - c) * inv % M32; AddW(AddW(u, c), ShlW(u, f)) == a
  {
    SumThenInverse(a, c, f, inv, q);
    InverseThenSum(a, c, f, inv, q);
  }

  lemma SumThenInverse(a: Word, c: Word, f: nat, inv: nat, q: nat)
    requires c > 0 && (f + 1) * inv == q * M32 + 1
    ensures AddW(AddW(AddW(a, c), ShlW(a, f)), M32 - c) * inv % M32 == a
  {
    var k := f + 1;
    SumIsProduct(a, c, f);
    AddThenSubtract(a * k, c);
    Multiplier(a, k, inv, q);
  }

  lemma InverseThenSum(a: Word, c: Word, f: nat, inv: nat, q: nat)
    requires c > 0 && (f + 1) * inv == q * M32 + 1
    ensures var u := AddW(a, M32 - c) * inv % M32; AddW(AddW(u, c), ShlW(u, f)) == a
  {
    var k := f + 1;
    var d := AddW(a, M32 - c);
    var u: Word := d * inv % M32;
    SumIsProduct(u, c, f);
    assert u * k % M32 == d by { Multiplier(d, inv, k, q); }
    AddMod(u * k, c);
    SubtractThenAdd(a, c);
  }

  lemma SubtractThenAdd(a: Word, c: Word)
    requires c > 0
    ensures (AddW(a, M32 - c) + c) % M32 == a
  {
  }

  lemma AddThenSubtract(x: nat, c: Word)
    requires c > 0
    ensures AddW((x + c) % M32, M32 - c) == x % M32
  {
    AddMod(x + c, M32 - c);
  }

  lemma SumIsProduct(a: Word, c: Word, f: nat)
    ensures AddW(AddW(a, c), ShlW(a, f)) == (a * (f + 1) + c) % M32
  {
    var s := a * f;
    assert a * (f + 1) == a + s;
    AddMod(a + c, s);
  }

  lemma AddMod(x: nat, y: nat)
    ensures (x % M32 + y % M32) % M32 == (x + y) % M32 == (x % M32 + y) % M32
  {
  }

  lemma XorShift(a: Word, c: Word, k: nat)
    requires 16 <= k
    ensures var b := XorW(XorW(a, c), ShrW(a, k)); var z := XorW(b, c); XorW(z, ShrW(z, k)) == a
    ensures var z := XorW(a, c); var u := XorW(z, ShrW(z, k)); XorW(XorW(u, c), ShrW(u, k)) == a
  {
    Powers();
    XorShrTwice(a, k);
    XorMiddle(a, Shr(a, k), c);
    XorCancel(a, Shr(a, k));
    var z := Xor(a, c);
    XorBound(a, c, 32);
    XorShrTwice(z, k);
    XorMiddle(z, c, Shr(z, k));
    XorCancel(a, c);
  }

  lemma XorShrTwice(z: Word, k: nat)
    requires 16 <= k
    ensures Shr(Xor(z, Shr(z, k)), k) == Shr(z, k)
  {
    Powers();
    XorShr(z, Shr(z, k), k);
    ShrShr(z, k, k);
    ShrZero(z, 32, k + k);
    XorCancel(Shr(z, k), 0);
    XorZero(Shr(z, k));
  }

  lemma {:induction false} XorZero(x: nat)
    ensures Xor(x, 0) == x
  {
    if x > 0 {
      XorZero(x / 2);
    }
  }

  lemma UnmixXor(a: Word)
    ensures Unmix2(Mix2(a)) == a && Mix2(Unmix2(a)) == a
    ensures Unmix6(Mix6(a)) == a && Mix6(Unmix6(a)) == a
  {
    XorShift(a, 0xc761c23c, 19);
    XorShift(a, 0xb55a4f09, 16);
  }

  lemma AddInverse(x: Word, y: Word, c: Word)
    requires c > 0
    ensures AddW(x, M32 - c) == y <==> AddW(y, c) == x
  {
  }

  lemma RefineFixedPoint(b: Word, a: Word)
    ensures Refine(b, a) == a <==> Mix4(a) == b
  {
    var s := ShlW(a, 0x200);
    XorCancel(b, s);
    XorCancel(AddW(a, 0xd3a2646c), s);
    AddInverse(XorW(b, s), a, 0xd3a2646c);
  }

  lemma SameMod(x: int, y: int, p: int, q: int)
    requires p > 0 && x == y + p * q
    ensures x % p == y % p
  {
    ModUnique(x, p, y / p + q, y % p);
  }

  lemma ShiftGains(x: Word, y: Word, p: nat, r: nat)
    requires p > 0 && 0x200 * p * r == M32
    requires x % p == y % p
    ensures ShlW(x, 0x200) % (0x200 * p) == ShlW(y, 0x200) % (0x200 * p)
  {
    var n, q := 0x200 * p, x / p - y / p;
    var w := y * 0x200 / M32 - x * 0x200 / M32;
    assert x == y + p * q;
    assert x * 0x200 == y * 0x200 + n * q;
    assert M32 * w == n * (r * w);
    assert ShlW(x, 0x200) == ShlW(y, 0x200) + n * (q + r * w);
    SameMod(ShlW(x, 0x200), ShlW(y, 0x200), n, q + r * w);
  }

  lemma AddGains(x: Word, y: Word, c: Word, p: nat, r: nat)
    requires p > 0 && p * r == M32
    requires x % p == y % p
    ensures AddW(x, c) % p == AddW(y, c) % p
  {
    var q, w := x / p - y / p, (y + c) / M32 - (x + c) / M32;
    assert x == y + p * q;
    assert M32 * w == p * (r * w);
    assert AddW(x, c) == AddW(y, c) + p * (q + r * w);
    SameMod(AddW(x, c), AddW(y, c), p, q + r * w);
  }

  /** One round: agreement modulo 2^k becomes agreement modulo 2^(k+9), capped at 2^32. */
  lemma RefineGainsAt(b: Word, x: Word, y: Word, k: nat, p: nat, r: nat)
    requires p > 0 && 0x200 * p * r == M32 && Pow2(k) == 0x200 * p
    requires x % p == y % p
    ensures Refine(b, x) % (0x200 * p) == Refine(b, y) % (0x200 * p)
  {
    var s, t := ShlW(x, 0x200), ShlW(y, 0x200);
    ShiftGains(x, y, p, r);
    XorLowBits(b, s, t, k);
    AddGains(XorW(b, s), XorW(b, t), M32 - 0xd3a2646c, 0x200 * p, r);
  }

  /** If x and y agree on their low 0, 9, 18 or 27 bits, one round makes them
      agree on nine more. */
  lemma RefineGains(b: Word, x: Word, y: Word)
    ensures Refine(b, x) % 0x200 == Refine(b, y) % 0x200
    ensures x % 0x200 == y % 0x200 ==> Refine(b, x) % 0x4_0000 == Refine(b, y) % 0x4_0000
    ensures x % 0x4_0000 == y % 0x4_0000 ==> Refine(b, x) % 0x800_0000 == Refine(b, y) % 0x800_0000
    ensures x % 0x800_0000 == y % 0x800_0000 ==> Refine(b, x) == Refine(b, y)
  {
    Powers();
    RefineGainsAt(b, x, y, 9, 1, 0x80_0000);
    if x % 0x200 == y % 0x200 { RefineGainsAt(b, x, y, 18, 0x200, 0x4000); }
    if x % 0x4_0000 == y % 0x4_0000 { RefineGainsAt(b, x, y, 27, 0x4_0000, 0x20); }
    if x % 0x800_0000 == y % 0x800_0000 { LastRound(b, x, y); }
  }

  lemma LastRound(b: Word, x: Word, y: Word)
    requires x % 0x800_0000 == y % 0x800_0000
    ensures Refine(b, x) == Refine(b, y)
  {
    hide Refine, ShlW, AddW, XorW;
    CoarserMod(x, y, 0x80_0000);
    Powers();
    RefineGainsAt(b, x, y, 32, 0x80_0000, 1);
  }

  /** Agreement modulo 16p is agreement modulo p. */
  lemma CoarserMod(x: int, y: int, p: nat)
    requires p > 0 && x % (16 * p) == y % (16 * p)
    ensures x % p == y % p
  {
    var q := x / (16 * p) - y / (16 * p);
    assert x == y + (16 * p) * q;
    assert (16 * p) * q == p * (16 * q);
    SameMod(x, y, p, 16 * q);
  }

  /** Four rounds forget where they started. */
  lemma FourRoundsAgree(b: Word, x: Word, y: Word)
    ensures Refine(b, Refine(b, Refine(b, Refine(b, x)))) == Refine(b, Refine(b, Refine(b, Refine(b, y))))
  {
    var x1, y1 := Refine(b, x), Refine(b, y);
    var x2, y2 := Refine(b, x1), Refine(b, y1);
    RefineGains(b, x, y);
    RefineGains(b, x1, y1);
    RefineGains(b, x2, y2);
    RefineGains(b, Refine(b, x2), Refine(b, y2));
  }

  lemma UnmixAddXor(a: Word)
    ensures Unmix4(Mix4(a)) == a && Mix4(Unmix4(a)) == a
  {
    RefineFixedPoint(Mix4(a), a);
    FourRoundsAgree(Mix4(a), 0, a);
    FourRoundsAgree(a, 0, Refine(a, 0));
    RefineFixedPoint(a, Unmix4(a));
  }

  /** hash32 is a bijection on 32-bit words: Unhash32 undoes it on both sides. */
  lemma Hash32Bijective(a: Word)
    ensures Unhash32(Hash32(a)) == a
    ensures Hash32(Unhash32(a)) == a
  {
    var m1 := Mix1(a);
    var m2 := Mix2(m1);
    var m3 := Mix3(m2);
    var m4 := Mix4(m3);
    UnmixSum(a); UnmixXor(m1); UnmixSum(m2); UnmixAddXor(m3); UnmixSum(m4); UnmixXor(Mix5(m4));
    var u6 := Unmix6(a);
    var u5 := Unmix5(u6);
    var u4 := Unmix4(u5);
    var u3 := Unmix3(u4);
    UnmixXor(a); UnmixSum(u6); UnmixAddXor(u5); UnmixSum(u4); UnmixXor(u3); UnmixSum(Unmix2(u3));
  }

  // ---- hashStr, djb2 ----

  /** The characters of a C string, without its terminator. */
  type CString = s: seq<Byte> | 0 !in s

  /** The djb2 polynomial, over unbounded integers. */
  function Djb2(s: seq<Byte>): nat {
    if s == [] then 5381 else 33 * Djb2(s[..|s| - 1]) + s[|s| - 1]
  }

  lemma AddMod64(x: nat, y: nat)
    ensures (x % M64 + y) % M64 == (x + y) % M64
  {
  }

  lemma Djb2Step(hash: nat, whole: nat, c: Byte)
    requires hash == whole % M64
    ensures ((hash * 32 % M64 + hash) % M64 + c) % M64 == (33 * whole + c) % M64
  {
    AddMod64(hash * 32, hash);
    AddMod64(33 * hash, c);
    SameMod(33 * whole + c, 33 * hash + c, M64, 33 * (whole / M64));
  }

  /** Wrapping at every character is the same as wrapping once, at the end. */
  method HashStr(str: CString) returns (hash: nat)
    ensures hash == Djb2(str) % M64
  {
    hash := 5381;
    var i := 0;
    while i < |str|
      invariant i <= |str|
      invariant hash == Djb2(str[..i]) % M64
    {
      assert str[..i + 1][..i] == str[..i];
      Djb2Step(hash, Djb2(str[..i]), str[i]);
      hash := ((hash * 32 % M64 + hash) % M64 + str[i]) % M64;
      i := i + 1;
    }
    assert str[..i] == str;
  }
}
