/** Base64 of RFC 4648, sections 4 and 5: strict decoding, with and without padding. */
module Base64 {
  import opened Prelude

  type Sextet = x: int | 0 <= x < 64

  datatype Alphabet = Standard | UrlSafe

  /** The three bytes that four sextets carry. */
  function Byte0(x: int, y: int): int { x * 4 + y / 16 }
  function Byte1(y: int, z: int): int { y % 16 * 16 + z / 4 }
  function Byte2(z: int, w: int): int { z % 4 * 64 + w }

  /** The four sextets of three bytes. */
  function Sextet0(a: int): int { a / 4 }
  function Sextet1(a: int, b: int): int { a % 4 * 16 + b / 16 }
  function Sextet2(b: int, c: int): int { b % 16 * 4 + c / 64 }
  function Sextet3(c: int): int { c % 64 }

  /** Splitting what was put together. */
  lemma Unpack(high: nat, low: nat, k: nat)
    requires k in {4, 16, 64} && low < k
    ensures (high * k + low) / k == high && (high * k + low) % k == low
  {
  }

  lemma GroupInverse(a: byte, b: byte, c: byte)
    ensures Byte0(Sextet0(a), Sextet1(a, b)) == a
    ensures Byte1(Sextet1(a, b), Sextet2(b, c)) == b
    ensures Byte2(Sextet2(b, c), Sextet3(c)) == c
  {
    Unpack(a % 4, b / 16, 16);
    Unpack(b % 16, c / 64, 4);
    assert a == a / 4 * 4 + a % 4 && b == b / 16 * 16 + b % 16 && c == c / 64 * 64 + c % 64;
  }

  lemma GroupInverseBack(x: Sextet, y: Sextet, z: Sextet, w: Sextet)
    ensures 0 <= Byte0(x, y) < 256 && 0 <= Byte1(y, z) < 256 && 0 <= Byte2(z, w) < 256
    ensures Sextet0(Byte0(x, y)) == x && Sextet3(Byte2(z, w)) == w
    ensures Sextet1(Byte0(x, y), Byte1(y, z)) == y && Sextet2(Byte1(y, z), Byte2(z, w)) == z
  {
    Unpack(x, y / 16, 4);
    Unpack(y % 16, z / 4, 16);
    Unpack(z % 4, w, 64);
    assert y == y / 16 * 16 + y % 16 && z == z / 4 * 4 + z % 4;
  }

  /** Bytes regrouped into sextets, three bytes to four; the last group is cut short. */
  function Sextets(b: Bytes): (q: seq<Sextet>)
    ensures |q| % 4 != 1
  {
    if |b| == 0 then []
    else if |b| == 1 then [Sextet0(b[0]), Sextet1(b[0], 0)]
    else if |b| == 2 then [Sextet0(b[0]), Sextet1(b[0], b[1]), Sextet2(b[1], 0)]
    else Group(b[0], b[1], b[2]) + Sextets(b[3..])
  }

  function Group(a: byte, b: byte, c: byte): (q: seq<Sextet>)
    ensures |q| == 4
  {
    [Sextet0(a), Sextet1(a, b), Sextet2(b, c), Sextet3(c)]
  }

  /** The inverse; bits of a cut group that carry no data must be zero. */
  function Unsextets(q: seq<Sextet>): Option<Bytes> {
    if |q| == 0 then Some([])
    else if |q| == 1 then None
    else if |q| == 2 then (if q[1] % 16 == 0 then Some([Byte0(q[0], q[1])]) else None)
    else if |q| == 3 then
      (if q[2] % 4 == 0 then Some([Byte0(q[0], q[1]), Byte1(q[1], q[2])]) else None)
    else
      match Unsextets(q[4..])
      case None => None
      case Some(rest) => Some([Byte0(q[0], q[1]), Byte1(q[1], q[2]), Byte2(q[2], q[3])] + rest)
  }

  /** Cut groups: a missing byte counts as zero. */
  lemma CutInverse(a: byte, b: byte)
    ensures Byte0(Sextet0(a), Sextet1(a, 0)) == a && Sextet1(a, 0) % 16 == 0 && Sextet2(b, 0) % 4 == 0
  {
    Unpack(a % 4, 0, 16);
    Unpack(b % 16, 0, 4);
    assert a == a / 4 * 4 + a % 4;
  }

  lemma CutInverseBack(x: Sextet, y: Sextet, z: Sextet)
    ensures Sextet0(Byte0(x, y)) == x
    ensures y % 16 == 0 ==> Sextet1(Byte0(x, y), 0) == y
    ensures z % 4 == 0 ==> Sextet1(Byte0(x, y), Byte1(y, z)) == y && Sextet2(Byte1(y, z), 0) == z
  {
    Unpack(x, y / 16, 4);
    Unpack(y % 16, z / 4, 16);
    assert y == y / 16 * 16 + y % 16 && z == z / 4 * 4 + z % 4;
  }

  lemma {:induction false} UnsextetsOfSextets(b: Bytes)
    ensures Unsextets(Sextets(b)) == Some(b)
  {
    if |b| == 1 {
      CutInverse(b[0], 0);
      assert b == [b[0]];
    } else if |b| == 2 {
      CutInverse(b[0], b[1]);
      GroupInverse(b[0], b[1], 0);
      assert b == [b[0], b[1]];
    } else if |b| >= 3 {
      UnsextetsOfSextets(b[3..]);
      var q := Sextets(b);
      GroupInverse(b[0], b[1], b[2]);
      hide Byte0, Byte1, Byte2, Sextet0, Sextet1, Sextet2, Sextet3;
      assert q[4..] == Sextets(b[3..]);
      assert b == [b[0], b[1], b[2]] + b[3..];
    }
  }

  lemma {:induction false} SextetsOfUnsextets(q: seq<Sextet>)
    requires Unsextets(q).Some?
    ensures Sextets(Unsextets(q).value) == q
  {
    hide Byte0, Byte1, Byte2, Sextet0, Sextet1, Sextet2, Sextet3;
    var b := Unsextets(q).value;
    if |q| == 2 {
      CutInverseBack(q[0], q[1], 0);
      assert q == [q[0], q[1]];
    } else if |q| == 3 {
      CutInverseBack(q[0], q[1], q[2]);
      assert q == [q[0], q[1], q[2]];
    } else if |q| >= 4 {
      SextetsOfUnsextets(q[4..]);
      GroupInverseBack(q[0], q[1], q[2], q[3]);
      assert b[3..] == Unsextets(q[4..]).value;
      assert q == [q[0], q[1], q[2], q[3]] + q[4..];
    }
  }

  function Symbol(a: Alphabet, x: Sextet): char {
    if x < 26 then ('A' as int + x) as char
    else if x < 52 then ('a' as int + (x - 26)) as char
    else if x < 62 then ('0' as int + (x - 52)) as char
    else if x == 62 then (if a.Standard? then '+' else '-')
    else (if a.Standard? then '/' else '_')
  }

  function Index(a: Alphabet, c: char): Option<Sextet> {
    if 'A' <= c <= 'Z' then Some(c as int - 'A' as int)
    else if 'a' <= c <= 'z' then Some(c as int - 'a' as int + 26)
    else if '0' <= c <= '9' then Some(c as int - '0' as int + 52)
    else if c == (if a.Standard? then '+' else '-') then Some(62)
    else if c == (if a.Standard? then '/' else '_') then Some(63)
    else None
  }

  lemma SymbolIndex(a: Alphabet, x: Sextet, c: char)
    ensures Index(a, Symbol(a, x)) == Some(x) && Symbol(a, x) != '='
    ensures Index(a, c).Some? ==> Symbol(a, Index(a, c).value) == c
  {
  }

  function Text(a: Alphabet, q: seq<Sextet>): string {
    if q == [] then [] else Text(a, q[..|q| - 1]) + [Symbol(a, q[|q| - 1])]
  }

  function Read(a: Alphabet, t: string): Option<seq<Sextet>> {
    if t == [] then Some([])
    else
      var init, last := Read(a, t[..|t| - 1]), Index(a, t[|t| - 1]);
      if init.Some? && last.Some? then Some(init.value + [last.value]) else None
  }

  lemma {:induction false} TextLength(a: Alphabet, q: seq<Sextet>)
    ensures |Text(a, q)| == |q|
    ensures forall k :: 0 <= k < |q| ==> Text(a, q)[k] == Symbol(a, q[k])
  {
    if q != [] {
      TextLength(a, q[..|q| - 1]);
    }
  }

  lemma {:induction false} ReadText(a: Alphabet, q: seq<Sextet>)
    ensures Read(a, Text(a, q)) == Some(q)
  {
    if q != [] {
      var n := |q| - 1;
      ReadText(a, q[..n]);
      SymbolIndex(a, q[n], '=');
      hide Symbol, Index;
      var t := Text(a, q);
      assert t[..|t| - 1] == Text(a, q[..n]) && t[|t| - 1] == Symbol(a, q[n]);
      assert q == q[..n] + [q[n]];
    }
  }

  lemma TextAppend(a: Alphabet, q: seq<Sextet>, x: Sextet)
    ensures Text(a, q + [x]) == Text(a, q) + [Symbol(a, x)]
  {
    assert (q + [x])[..|q|] == q;
  }

  lemma ReadStep(a: Alphabet, t: string)
    requires t != [] && Read(a, t).Some?
    ensures var init, last := Read(a, t[..|t| - 1]), Index(a, t[|t| - 1]);
            init.Some? && last.Some? && Read(a, t).value == init.value + [last.value]
  {
  }

  lemma {:induction false} TextRead(a: Alphabet, t: string)
    requires Read(a, t).Some?
    ensures Text(a, Read(a, t).value) == t
  {
    if t == [] {
    } else {
      hide Symbol, Index, Text, Read;
      var n := |t| - 1;
      ReadStep(a, t);
      TextRead(a, t[..n]);
      SymbolIndex(a, 0, t[n]);
      TextAppend(a, Read(a, t[..n]).value, Index(a, t[n]).value);
      assert t == t[..n] + [t[n]];
    }
  }

  function EncodeNoPad(a: Alphabet, b: Bytes): string {
    Text(a, Sextets(b))
  }

  function DecodeNoPad(a: Alphabet, t: string): Option<Bytes> {
    match Read(a, t)
    case None => None
    case Some(q) => Unsextets(q)
  }

  /** Decoding accepts exactly the encodings. */
  lemma NoPadRoundTrip(a: Alphabet, b: Bytes, t: string)
    ensures DecodeNoPad(a, EncodeNoPad(a, b)) == Some(b)
    ensures DecodeNoPad(a, t) == Some(b) <==> t == EncodeNoPad(a, b)
  {
    UnsextetsOfSextets(b);
    ReadText(a, Sextets(b));
    if DecodeNoPad(a, t).Some? {
      TextRead(a, t);
      SextetsOfUnsextets(Read(a, t).value);
    }
  }

  function PadCount(n: nat): nat {
    (4 - n % 4) % 4
  }

  function Pads(n: nat): string {
    seq(n, _ => '=')
  }

  /** Drop the trailing padding characters. */
  function StripPad(t: string): string {
    if t != [] && t[|t| - 1] == '=' then StripPad(t[..|t| - 1]) else t
  }

  function EncodePadded(b: Bytes): string {
    var t := EncodeNoPad(Standard, b);
    t + Pads(PadCount(|t|))
  }

  /** Strict decoding: the padding must be exactly what the length calls for. */
  function DecodePadded(t: string): Option<Bytes> {
    var body := StripPad(t);
    if |t| == |body| + PadCount(|body|) then DecodeNoPad(Standard, body) else None
  }

  lemma {:induction false} StripPads(t: string, n: nat)
    requires t == [] || t[|t| - 1] != '='
    ensures StripPad(t + Pads(n)) == t
  {
    if n == 0 {
      assert t + Pads(0) == t;
    } else {
      StripPads(t, n - 1);
      var s := t + Pads(n);
      assert s[..|s| - 1] == t + Pads(n - 1);
    }
  }

  lemma {:induction false} StripSplits(t: string)
    ensures |StripPad(t)| <= |t| && t == StripPad(t) + Pads(|t| - |StripPad(t)|)
  {
    if t != [] && t[|t| - 1] == '=' {
      var init := t[..|t| - 1];
      StripSplits(init);
      assert t == init + ['='];
      assert Pads(|t| - |StripPad(t)|) == Pads(|init| - |StripPad(init)|) + ['='];
    } else {
      assert t == t + Pads(0);
    }
  }

  lemma EncodedHasNoPad(a: Alphabet, b: Bytes)
    ensures var t := EncodeNoPad(a, b);
            (t == [] || t[|t| - 1] != '=') && StripPad(t) == t && |t| % 4 != 1
  {
    TextLength(a, Sextets(b));
    if Sextets(b) != [] {
      SymbolIndex(a, Sextets(b)[|Sextets(b)| - 1], '=');
    }
  }

  lemma PaddedRoundTrip(b: Bytes, t: string)
    ensures DecodePadded(EncodePadded(b)) == Some(b)
    ensures DecodePadded(t) == Some(b) <==> t == EncodePadded(b)
  {
    var body := EncodeNoPad(Standard, b);
    EncodedHasNoPad(Standard, b);
    StripPads(body, PadCount(|body|));
    NoPadRoundTrip(Standard, b, body);
    StripSplits(t);
    NoPadRoundTrip(Standard, b, StripPad(t));
  }

  /** Every character of an encoding belongs to the alphabet. */
  lemma EncodedSymbols(a: Alphabet, b: Bytes, k: nat)
    requires k < |EncodeNoPad(a, b)|
    ensures Index(a, EncodeNoPad(a, b)[k]).Some?
  {
    TextLength(a, Sextets(b));
    SymbolIndex(a, Sextets(b)[k], '=');
  }

  /** A group is read as one number, most significant part first on both sides. */
  lemma GroupIsBigEndian(a: byte, b: byte, c: byte)
    ensures a * 0x1_0000 + b * 0x100 + c ==
            ((Sextet0(a) * 64 + Sextet1(a, b)) * 64 + Sextet2(b, c)) * 64 + Sextet3(c)
  {
    assert a == a / 4 * 4 + a % 4 && b == b / 16 * 16 + b % 16 && c == c / 64 * 64 + c % 64;
  }

  /** Test vectors of section 10 of RFC 4648. */
  lemma TestVectors()
    ensures EncodePadded([0x66]) == "Zg=="
    ensures EncodePadded([0x66, 0x6F]) == "Zm8="
    ensures EncodePadded([0x66, 0x6F, 0x6F]) == "Zm9v"
  {
    assert Pads(2) == "==" && Pads(1) == "=" && Pads(0) == "";
    VectorSextets();
    hide EncodePadded, Sextets;
    PaddedVector([0x66], [25, 32], "Zg");
    PaddedVector([0x66, 0x6F], [25, 38, 60], "Zm8");
    PaddedVector([0x66, 0x6F, 0x6F], [25, 38, 61, 47], "Zm9v");
  }

  lemma VectorSextets()
    ensures Sextets([0x66]) == [25, 32]
    ensures Sextets([0x66, 0x6F]) == [25, 38, 60]
    ensures Sextets([0x66, 0x6F, 0x6F]) == [25, 38, 61, 47]
  {
    var b: Bytes := [0x66, 0x6F, 0x6F];
    assert b[3..] == [] && Sextets([]) == [];
    assert Sextets(b) == [25, 38, 61, 47] + Sextets(b[3..]);
  }

  lemma PaddedVector(b: Bytes, q: seq<Sextet>, t: string)
    requires Sextets(b) == q && |q| == |t| && forall k :: 0 <= k < |q| ==> t[k] == Symbol(Standard, q[k])
    ensures EncodePadded(b) == t + Pads((4 - |t| % 4) % 4)
  {
    Vector(Standard, q, t);
    hide Sextets, Text, Symbol;
  }

  /** The symbols in which the two alphabets differ. */
  lemma SymbolsThatDiffer(x: Sextet)
    ensures Symbol(Standard, 62) == '+' && Symbol(Standard, 63) == '/'
    ensures Symbol(UrlSafe, 62) == '-' && Symbol(UrlSafe, 63) == '_'
    ensures x < 62 ==> Symbol(UrlSafe, x) == Symbol(Standard, x)
  {
  }

  lemma Vector(a: Alphabet, q: seq<Sextet>, t: string)
    requires |q| == |t| && forall k :: 0 <= k < |q| ==> t[k] == Symbol(a, q[k])
    ensures Text(a, q) == t
  {
    TextLength(a, q);
    hide Symbol;
  }

  /** Padded text comes in groups of four characters, one for every three bytes or part of them. */
  lemma PaddedLength(b: Bytes)
    ensures |EncodePadded(b)| == 4 * ((|b| + 2) / 3)
  {
    SextetsLength(b);
    TextLength(Standard, Sextets(b));
    hide Sextets, Text;
  }

  lemma {:induction false} SextetsLength(b: Bytes)
    ensures |Sextets(b)| == (8 * |b| + 5) / 6
  {
    if |b| >= 3 {
      SextetsLength(b[3..]);
    }
  }
}
