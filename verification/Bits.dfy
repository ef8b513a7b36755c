/** Shifts and bitwise operators on unsigned words, defined one bit at a time from the lowest. */
module Bits {
  function Shr(v: nat, n: nat): nat
    decreases n
  {
    if n == 0 then v else Shr(v / 2, n - 1)
  }

  function Shl(v: nat, n: nat): nat { if n == 0 then v else 2 * Shl(v, n - 1) }

  function Or(a: nat, b: nat): nat {
    if a == 0 && b == 0 then 0 else 2 * Or(a / 2, b / 2) + (if a % 2 == 1 || b % 2 == 1 then 1 else 0)
  }

  function And(a: nat, b: nat): nat {
    if a == 0 || b == 0 then 0 else 2 * And(a / 2, b / 2) + (if a % 2 == 1 && b % 2 == 1 then 1 else 0)
  }

  function Xor(a: nat, b: nat): nat {
    if a == 0 && b == 0 then 0 else 2 * Xor(a / 2, b / 2) + (if a % 2 != b % 2 then 1 else 0)
  }

  predicate Bit(v: nat, i: nat) { Shr(v, i) % 2 == 1 }

  function BitOf(b: bool): nat { if b then 1 else 0 }

  // ---- Bit by bit ----

  lemma {:induction false} BitZero(i: nat)
    ensures !Bit(0, i)
  {
    if i == 0 {
    } else {
      BitZero(i - 1);
    }
  }

  lemma {:induction false} BitOr(a: nat, b: nat, i: nat)
    ensures Bit(Or(a, b), i) <==> Bit(a, i) || Bit(b, i)
    decreases i
  {
    if a == 0 && b == 0 {
      BitZero(i);
    } else {
      var o := Or(a, b);
      assert o / 2 == Or(a / 2, b / 2) && (o % 2 == 1 <==> a % 2 == 1 || b % 2 == 1);
      if i > 0 {
        BitOr(a / 2, b / 2, i - 1);
      }
    }
  }

  lemma {:induction false} BitAnd(a: nat, b: nat, i: nat)
    ensures Bit(And(a, b), i) <==> Bit(a, i) && Bit(b, i)
    decreases i
  {
    if a == 0 || b == 0 {
      BitZero(i);
    } else {
      var o := And(a, b);
      assert o / 2 == And(a / 2, b / 2) && (o % 2 == 1 <==> a % 2 == 1 && b % 2 == 1);
      if i > 0 {
        BitAnd(a / 2, b / 2, i - 1);
      }
    }
  }

  /** The single bit `1 << p`. */
  lemma {:induction false} BitOfMask(p: nat, i: nat)
    ensures Bit(Shl(1, p), i) <==> i == p
  {
    if p == 0 {
      if i > 0 {
        BitZero(i - 1);
      }
    } else if i > 0 {
      BitOfMask(p - 1, i - 1);
    }
  }

  /** The `n`-bit complement flips every bit. */
  lemma {:induction false} BitOfComplement(v: nat, n: nat, i: nat)
    requires v < Shl(1, n) && i < n
    ensures Bit(Shl(1, n) - 1 - v, i) <==> !Bit(v, i)
  {
    if i == 0 {
    } else {
      assert (Shl(1, n) - 1 - v) / 2 == Shl(1, n - 1) - 1 - v / 2;
      BitOfComplement(v / 2, n - 1, i - 1);
    }
  }

  lemma {:induction false} BitAbove(v: nat, n: nat, i: nat)
    requires v < Shl(1, n) && n <= i
    ensures !Bit(v, i)
  {
    if n == 0 {
      BitZero(i);
    } else {
      BitAbove(v / 2, n - 1, i - 1);
    }
  }

  lemma {:induction false} OrBound(a: nat, b: nat, n: nat)
    requires a < Shl(1, n) && b < Shl(1, n)
    ensures Or(a, b) < Shl(1, n)
    decreases n
  {
    if n == 0 {
    } else {
      OrBound(a / 2, b / 2, n - 1);
    }
  }

  lemma {:induction false} AndBound(a: nat, b: nat, n: nat)
    requires a < Shl(1, n)
    ensures And(a, b) < Shl(1, n)
    decreases n
  {
    if n == 0 {
    } else {
      AndBound(a / 2, b / 2, n - 1);
    }
  }

  /** Words with the same bits are the same. */
  lemma {:induction false} SameBits(v: nat, w: nat, n: nat)
    requires v < Shl(1, n) && w < Shl(1, n) && forall i :: 0 <= i < n ==> (Bit(v, i) <==> Bit(w, i))
    ensures v == w
    decreases n
  {
    if n == 0 {
    } else {
      assert Bit(v, 0) <==> Bit(w, 0);
      forall i | 0 <= i < n - 1 ensures Bit(v / 2, i) <==> Bit(w / 2, i) {
        assert Bit(v, i + 1) <==> Bit(w, i + 1);
      }
      SameBits(v / 2, w / 2, n - 1);
    }
  }

  lemma {:induction false} XorComplement(a: nat, b: nat, n: nat)
    requires a < Shl(1, n) && b < Shl(1, n)
    ensures Xor(a, b) == Shl(1, n) - 1 <==> a + b == Shl(1, n) - 1
    decreases n
  {
    if n == 0 {
    } else {
      XorComplement(a / 2, b / 2, n - 1);
    }
  }

  lemma {:induction false} OrDisjoint(a: nat, m: nat, n: nat)
    requires a < Shl(1, n)
    ensures Or(a, Shl(m, n)) == a + Shl(m, n)
    decreases n
  {
    if n == 0 {
      OrZero(m);
    } else {
      OrDisjoint(a / 2, m, n - 1);
    }
  }

  lemma {:induction false} OrZero(m: nat)
    ensures Or(0, m) == m
  {
    if m == 0 {
    } else {
      OrZero(m / 2);
    }
  }

  // ---- Words as bit sequences ----

  /** The number whose bits, lowest first, are `f`. */
  function Value(f: seq<bool>): nat { if f == [] then 0 else BitOf(f[0]) + 2 * Value(f[1..]) }

  /** Setting the next bit up extends the number by that bit. */
  lemma {:induction false} OrAppends(f: seq<bool>, b: bool)
    ensures Or(Value(f), Shl(BitOf(b), |f|)) == Value(f + [b])
  {
    if f == [] {
      assert Value([b]) == BitOf(b) + 2 * Value([]);
      assert Or(0, BitOf(b)) == BitOf(b);
    } else {
      OrAppends(f[1..], b);
      assert (f + [b])[1..] == f[1..] + [b];
      var low, high := Value(f), Shl(BitOf(b), |f|);
      assert high == 2 * Shl(BitOf(b), |f| - 1);
      assert low / 2 == Value(f[1..]) && high / 2 == Shl(BitOf(b), |f| - 1);
      assert Value(f + [b]) == BitOf(f[0]) + 2 * Value(f[1..] + [b]);
    }
  }

  lemma {:induction false} ValueBound(f: seq<bool>)
    ensures Value(f) < Shl(1, |f|)
  {
    if f == [] {
    } else {
      ValueBound(f[1..]);
    }
  }

  lemma {:induction false} ValueSplit(f: seq<bool>, g: seq<bool>)
    ensures Value(f + g) == Value(f) + Shl(Value(g), |f|)
  {
    if f == [] {
      assert f + g == g;
    } else {
      ValueSplit(f[1..], g);
      assert (f + g)[1..] == f[1..] + g;
    }
  }

  lemma LowBitApart(b: nat, v: nat, c: nat, w: nat)
    requires b < 2 && c < 2 && b + 2 * v == c + 2 * w
    ensures b == c && v == w
  {
  }

  lemma {:induction false} ValueInjective(f: seq<bool>, g: seq<bool>)
    requires |f| == |g| && Value(f) == Value(g)
    ensures f == g
  {
    if f == [] {
    } else {
      LowBitApart(BitOf(f[0]), Value(f[1..]), BitOf(g[0]), Value(g[1..]));
      hide Value;
      ValueInjective(f[1..], g[1..]);
      assert f == [f[0]] + f[1..] && g == [g[0]] + g[1..];
    }
  }

  /** An `n`-bit number is the value of its own bits. */
  lemma {:induction false} BitsOfValue(v: nat, f: seq<bool>)
    requires v < Shl(1, |f|) && forall i :: 0 <= i < |f| ==> BitOf(f[i]) == Shr(v, i) % 2
    ensures v == Value(f)
    decreases |f|
  {
    if f == [] {
    } else {
      assert BitOf(f[0]) == Shr(v, 0) % 2;
      forall i | 0 <= i < |f| - 1 ensures BitOf(f[1..][i]) == Shr(v / 2, i) % 2 {
        assert BitOf(f[i + 1]) == Shr(v, i + 1) % 2;
      }
      BitsOfValue(v / 2, f[1..]);
    }
  }

  // ---- Shifts by whole bytes ----

  lemma {:induction false} ShrShr(v: nat, m: nat, n: nat)
    ensures Shr(Shr(v, m), n) == Shr(v, m + n)
    decreases m
  {
    if m == 0 {
    } else {
      ShrShr(v / 2, m - 1, n);
    }
  }

  lemma {:induction false} ShlShl(v: nat, m: nat, n: nat)
    ensures Shl(Shl(v, m), n) == Shl(v, m + n)
    decreases n
  {
    if n == 0 {
    } else {
      ShlShl(v, m, n - 1);
    }
  }

  lemma Shl8(v: nat)
    ensures Shl(v, 8) == v * 0x100
  {
    assert Shl(v, 8) == 2 * Shl(v, 7) == 4 * Shl(v, 6);
    assert Shl(v, 6) == 2 * Shl(v, 5) == 4 * Shl(v, 4);
    assert Shl(v, 4) == 2 * Shl(v, 3) == 4 * Shl(v, 2);
    assert Shl(v, 2) == 2 * Shl(v, 1) == 4 * Shl(v, 0);
  }

  lemma Shl32()
    ensures Shl(1, 32) == 0x1_0000_0000
  {
    Shl8(1);
    Shl8(0x100);
    Shl8(0x1_0000);
    Shl8(0x100_0000);
    ShlShl(1, 8, 8);
    ShlShl(1, 16, 8);
    ShlShl(1, 24, 8);
  }

  lemma Shr4(v: nat)
    ensures Shr(v, 4) == v / 16
  {
    assert Shr(v, 4) == Shr(v / 2, 3) == Shr(v / 2 / 2, 2);
    assert Shr(v / 2 / 2, 2) == Shr(v / 2 / 2 / 2, 1) == Shr(v / 2 / 2 / 2 / 2, 0);
  }

  lemma Shr8(v: nat)
    ensures Shr(v, 8) == v / 0x100
  {
    Shr4(v);
    Shr4(v / 16);
    ShrShr(v, 4, 4);
  }

  lemma DivTwice(v: nat)
    ensures v / 0x100 / 0x100 == v / 0x1_0000 && v / 0x1_0000 / 0x100 == v / 0x100_0000
  {
  }

  lemma ShiftsByBytes(v: nat)
    ensures Shr(v, 8) == v / 0x100 && Shr(v, 16) == v / 0x1_0000 && Shr(v, 24) == v / 0x100_0000
  {
    hide Shr;
    Shr8(v);
    Shr8(v / 0x100);
    Shr8(v / 0x1_0000);
    ShrShr(v, 8, 8);
    ShrShr(v, 16, 8);
    DivTwice(v);
  }
}
