/** Big-endian numbers, as NDN packs them into name components. */
module BigEndian {
  import opened Prelude

  function Value(s: Bytes): nat {
    if s == [] then 0 else Value(s[..|s| - 1]) * 256 + s[|s| - 1]
  }

  function Digits(v: nat, width: nat): (s: Bytes)
    ensures |s| == width
  {
    if width == 0 then [] else Digits(v / 256, width - 1) + [v % 256]
  }

  function Power256(k: nat): (p: nat)
    ensures p > 0
  {
    if k == 0 then 1 else 256 * Power256(k - 1)
  }

  lemma {:induction false} ValueOfDigits(v: nat, width: nat)
    requires v < Power256(width)
    ensures Value(Digits(v, width)) == v
  {
    if width > 0 {
      ValueOfDigits(v / 256, width - 1);
      var s := Digits(v, width);
      assert s[..|s| - 1] == Digits(v / 256, width - 1);
    }
  }

  lemma {:induction false} ValueBound(s: Bytes)
    ensures Value(s) < Power256(|s|)
  {
    if s != [] {
      ValueBound(s[..|s| - 1]);
    }
  }

  lemma Power256Of8()
    ensures Power256(1) == 0x100 && Power256(2) == 0x1_0000
    ensures Power256(4) == 0x1_0000_0000 && Power256(8) == TWO_64
  {
    assert Power256(1) == 256;
    assert Power256(2) == 256 * 256;
    assert Power256(3) == 256 * 256 * 256;
    assert Power256(4) == 0x1_0000_0000;
    assert Power256(5) == 0x100_0000_0000;
    assert Power256(6) == 0x1_0000_0000_0000;
    assert Power256(7) == 0x100_0000_0000_0000;
  }

  lemma {:induction false} Power256Monotone(j: nat, k: nat)
    requires j <= k
    ensures Power256(j) <= Power256(k)
    decreases k - j
  {
    if j < k {
      Power256Monotone(j, k - 1);
    }
  }

  /** A value fits `n` bytes exactly when every byte before the last `n` is zero. */
  lemma {:induction false} FitsExactly(s: Bytes, n: nat)
    ensures Value(s) < Power256(n) <==> forall k :: 0 <= k < |s| - n ==> s[k] == 0
  {
    if s != [] {
      FitsExactly(s[..|s| - 1], if n == 0 then 0 else n - 1);
    }
  }
}
