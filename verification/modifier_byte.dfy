/**
 * The modifier flags of the keyboard state read as one byte.
 * The client prints every flag as a digit and parses the digit string in
 * base 2, so flag 0 (Right GUI) ends up as the most significant bit.
 */
module ModifierByte {
  import opened Common

  /** Sum of flags[i] * 2^(n-1-i): the base-2 numeral spelled by the flags. */
  function Weighted(flags: seq<bit>): nat
  {
    if |flags| == 0 then 0 else flags[0] * Pow2(|flags| - 1) + Weighted(flags[1..])
  }

  /** The n low bits of v, most significant first: the inverse of Weighted. */
  function Unpack(n: nat, v: nat): (r: seq<bit>)
    ensures |r| == n
  {
    if n == 0 then [] else Unpack(n - 1, v / 2) + [v % 2]
  }

  /** A numeral of n digits is below 2^n, so eight flags always fit a byte. */
  lemma {:induction false} WeightedBound(flags: seq<bit>)
    ensures Weighted(flags) < Pow2(|flags|)
  {
    if |flags| > 0 {
      WeightedBound(flags[1..]);
      assert flags[0] * Pow2(|flags| - 1) <= Pow2(|flags| - 1);
    }
  }

  /** Appending one digit doubles the value and adds the digit (what parsing does). */
  lemma {:induction false} WeightedSnoc(flags: seq<bit>, b: bit)
    ensures Weighted(flags + [b]) == 2 * Weighted(flags) + b
  {
    if |flags| == 0 {
      assert flags + [b] == [b];
    } else {
      assert (flags + [b])[1..] == flags[1..] + [b];
      WeightedSnoc(flags[1..], b);
      var n := |flags|;
      assert Pow2(n) == 2 * Pow2(n - 1);
      assert flags[0] * Pow2(n) == 2 * (flags[0] * Pow2(n - 1));
    }
  }

  /** Unpacking the packed flags gives back exactly those flags. */
  lemma {:induction false} UnpackWeighted(flags: seq<bit>)
    ensures Unpack(|flags|, Weighted(flags)) == flags
  {
    if |flags| > 0 {
      var n := |flags|;
      var front := flags[..n - 1];
      var last := flags[n - 1];
      assert flags == front + [last];
      WeightedSnoc(front, last);
      UnpackWeighted(front);
      var v := Weighted(flags);
      assert v / 2 == Weighted(front) && v % 2 == last;
    }
  }

  /** Packing the unpacked bits of any value that fits gives back that value. */
  lemma {:induction false} WeightedUnpack(n: nat, v: nat)
    requires v < Pow2(n)
    ensures Weighted(Unpack(n, v)) == v
  {
    if n > 0 {
      WeightedUnpack(n - 1, v / 2);
      WeightedSnoc(Unpack(n - 1, v / 2), v % 2);
    }
  }

  /**
   * The digit-by-digit parse of the flags (keyboard/kb_client.py `send`):
   * the result is the packed byte, 0 when every flag is clear.
   */
  method PackModifiers(flags: seq<bit>) returns (b: byte)
    requires |flags| == 8
    ensures b == Weighted(flags)
    ensures (forall i | 0 <= i < |flags| :: flags[i] == 0) ==> b == 0
    ensures Unpack(8, b) == flags
  {
    var acc: nat := 0;
    var i := 0;
    while i < |flags|
      invariant 0 <= i <= |flags|
      invariant acc == Weighted(flags[..i])
    {
      assert flags[..i + 1] == flags[..i] + [flags[i]];
      WeightedSnoc(flags[..i], flags[i]);
      acc := 2 * acc + flags[i];
      i := i + 1;
    }
    assert flags[..i] == flags;
    WeightedBound(flags);
    assert Pow2(8) == 256;
    b := acc;
    UnpackWeighted(flags);
    if forall i | 0 <= i < |flags| :: flags[i] == 0 {
      AllClearIsZero(flags);
    }
  }

  lemma {:induction false} AllClearIsZero(flags: seq<bit>)
    requires forall i | 0 <= i < |flags| :: flags[i] == 0
    ensures Weighted(flags) == 0
  {
    if |flags| > 0 {
      AllClearIsZero(flags[1..]);
    }
  }
}
