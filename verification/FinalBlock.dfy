/** `decode_final_block_id_segment`: reading the announced last segment back. */
module FinalBlock {
  import opened Prelude
  import opened Naming
  import BigEndian

  /** The value bytes of a FinalBlockId that passes the type and length checks. */
  function ValueBytes(fb: Bytes): Option<Bytes> {
    if |fb| < 2 || fb[0] != SEGMENT || |fb| < 2 + (fb[1] as int) then None else Some(fb[2..2 + (fb[1] as int)])
  }

  /** What the reader returns: the big-endian value, reduced to the machine word. */
  function Decoded(fb: Bytes): Option<nat> {
    match ValueBytes(fb)
    case None => None
    case Some(v) => Some(BigEndian.Value(v) % TWO_64)
  }

  /** One step of the accumulation: the shift drops the high bits, so the addition cannot overflow. */
  lemma ShiftThenAdd(value: nat, b: byte)
    ensures ((value % TWO_64) * 256) % TWO_64 + b < TWO_64
    ensures ((value % TWO_64) * 256) % TWO_64 + b == (value * 256 + b) % TWO_64
  {
    var q, n := value / TWO_64, value % TWO_64;
    ShiftLeavesRoom(n, b);
    var r, shifted := n * 256 / TWO_64, n * 256 % TWO_64;
    assert value * 256 + b == TWO_64 * (256 * q + r) + (shifted + b);
    RemainderIs(value * 256 + b, TWO_64, 256 * q + r, shifted + b);
  }

  lemma ShiftLeavesRoom(n: nat, b: byte)
    ensures n * 256 == TWO_64 * (n * 256 / TWO_64) + n * 256 % TWO_64
    ensures n * 256 % TWO_64 + b < TWO_64
  {
    var r, shifted := n * 256 / TWO_64, n * 256 % TWO_64;
    assert n * 256 == TWO_64 * r + shifted;
    assert shifted == 256 * (n - 0x100_0000_0000_0000 * r);
  }

  /** `checked_shl(8)` only fails for shifts of 64 or more, so the value wraps instead of being refused. */
  method DecodeFinalBlockIdSegment(fb: Bytes) returns (r: Option<nat>)
    ensures r == Decoded(fb)
  {
    if |fb| < 2 {
      return None;
    }
    if fb[0] != SEGMENT {
      return None;
    }
    var len: nat := fb[1];
    if |fb| < 2 + len {
      return None;
    }
    var value := fb[2..2 + len];
    var n: nat := 0;
    for k := 0 to |value|
      invariant n == BigEndian.Value(value[..k]) % TWO_64
    {
      assert value[..k + 1][..k] == value[..k];
      ShiftThenAdd(BigEndian.Value(value[..k]), value[k]);
      n := n * 256 % TWO_64;
      if n + value[k] >= TWO_64 {
        return None;
      }
      n := n + value[k];
    }
    assert value[..|value|] == value;
    return Some(n);
  }

  /** The reader is exact precisely when all but the last eight value bytes are zero - always, for up to eight. */
  lemma ExactIffItFits(fb: Bytes)
    requires ValueBytes(fb).Some?
    ensures var v := ValueBytes(fb).value;
            Decoded(fb) == Some(BigEndian.Value(v)) <==> forall k :: 0 <= k < |v| - 8 ==> v[k] == 0
  {
    var v := ValueBytes(fb).value;
    BigEndian.FitsExactly(v, 8);
    BigEndian.Power256Of8();
    WordKeeps(BigEndian.Value(v));
  }

  lemma WordKeeps(n: nat)
    ensures n % TWO_64 == n <==> n < TWO_64
  {
  }

  /** A nine-byte value, a one and eight zero bytes, is read as segment 0 rather than refused. */
  lemma NineBytesWrap()
    ensures BigEndian.Value([1] + BigEndian.Digits(0, 8)) == TWO_64
    ensures Decoded([SEGMENT, 9] + ([1] + BigEndian.Digits(0, 8))) == Some(0)
  {
    var v: Bytes := [1] + BigEndian.Digits(0, 8);
    ZerosScale([1], 8);
    BigEndian.Power256Of8();
    assert BigEndian.Value([1]) == 1 by { assert [1][..0] == []; }
    hide BigEndian.Value;
    hide BigEndian.Digits;
    TlvValue(v);
  }

  lemma {:induction false} ZerosScale(s: Bytes, width: nat)
    ensures BigEndian.Value(s + BigEndian.Digits(0, width)) == BigEndian.Value(s) * BigEndian.Power256(width)
  {
    if width == 0 {
      assert s + [] == s;
    } else {
      ZerosScale(s, width - 1);
      var t := s + BigEndian.Digits(0, width);
      assert t[..|t| - 1] == s + BigEndian.Digits(0, width - 1);
      assert BigEndian.Value(t) == BigEndian.Value(s) * BigEndian.Power256(width - 1) * 256;
      assert BigEndian.Value(s) * BigEndian.Power256(width) ==
             BigEndian.Value(s) * (256 * BigEndian.Power256(width - 1));
    }
  }

  lemma TlvValue(value: Bytes)
    requires |value| < 256
    ensures ValueBytes([SEGMENT, |value|] + value) == Some(value)
  {
    var fb: Bytes := [SEGMENT, |value|] + value;
    assert fb[2..2 + |value|] == value;
  }

  /** `ndn-peek` reads back exactly the last segment `ndn-put` announced. */
  lemma ReadsBack(last: nat)
    requires last < TWO_64
    ensures Decoded(FinalBlockId(last)) == Some(last)
  {
    NonNegativeIntegerValue(last);
    var value := NonNegativeInteger(last);
    hide NonNegativeInteger;
    hide BigEndian.Value;
    TlvValue(value);
    ExactIffItFits(FinalBlockId(last));
  }

  /** The reader refuses exactly what is shorter than it says or not a segment component. */
  lemma RefusedExactly(fb: Bytes)
    ensures Decoded(fb).None? <==> |fb| < 2 || fb[0] != 0x32 || |fb| < 2 + (fb[1] as int)
  {
  }

  /** Bytes after the announced length are ignored. */
  lemma TrailingIgnored(fb: Bytes, extra: Bytes)
    requires Decoded(fb).Some?
    ensures Decoded(fb + extra) == Decoded(fb)
  {
    var len := fb[1] as int;
    assert (fb + extra)[2..2 + len] == fb[2..2 + len];
  }
}
