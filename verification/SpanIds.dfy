/** Hexadecimal span identifiers: `hex_lower` and `decode_pair`, on the UTF-8 bytes of the text. */
module SpanIds {
  import opened Prelude

  datatype Id = Id(trace: Bytes, span: Bytes)

  /** What parsing `n` pairs of text yields; slicing inside a character panics. */
  datatype Parsed = Panicked | Rejected | Parsed(bytes: Bytes)

  function HexDigit(d: nat): byte
    requires d < 16
  {
    if d < 10 then 0x30 + d else 0x61 + (d - 10)
  }

  function Hex(bytes: Bytes): (text: Bytes)
    ensures |text| == 2 * |bytes|
  {
    if bytes == [] then []
    else
      var b := bytes[|bytes| - 1];
      Hex(bytes[..|bytes| - 1]) + [HexDigit(b / 16), HexDigit(b % 16)]
  }

  method HexLower(bytes: Bytes) returns (out: Bytes)
    ensures out == Hex(bytes)
  {
    out := [];
    for k := 0 to |bytes|
      invariant out == Hex(bytes[..k])
    {
      assert bytes[..k + 1][..k] == bytes[..k];
      out := out + [HexDigit(bytes[k] / 16)];
      out := out + [HexDigit(bytes[k] % 16)];
    }
    assert bytes[..|bytes|] == bytes;
  }

  function Nibble(c: byte): Option<nat> {
    if 0x30 <= c <= 0x39 then Some(c - 0x30)
    else if 0x61 <= c <= 0x66 then Some(c - 0x61 + 10)
    else if 0x41 <= c <= 0x46 then Some(c - 0x41 + 10)
    else None
  }

  const PLUS: byte := 0x2B

  /** `u8::from_str_radix(two_bytes, 16)`: a leading plus sign is allowed. */
  function FromRadix(a: byte, b: byte): Option<byte> {
    if a == PLUS then (match Nibble(b) case None => None case Some(low) => Some(low))
    else
      match (Nibble(a), Nibble(b))
      case (Some(high), Some(low)) => Some(high * 16 + low)
      case _ => None
  }

  /** A byte offset inside a character. */
  predicate Inside(text: Bytes, at: nat) {
    at < |text| && 0x80 <= text[at] < 0xC0
  }

  function ParsePairs(text: Bytes, n: nat): Parsed
    requires 2 * n <= |text|
  {
    if n == 0 then Parsed([])
    else
      match ParsePairs(text, n - 1)
      case Parsed(bytes) =>
        if Inside(text, 2 * n - 2) || Inside(text, 2 * n) then Panicked
        else
          (match FromRadix(text[2 * n - 2], text[2 * n - 1])
           case None => Rejected
           case Some(b) => Parsed(bytes + [b]))
      case other => other
  }

  datatype Pair = PairPanicked | NoPair | APair(id: Id)

  function DecodedPair(traceHex: Bytes, spanHex: Bytes): Pair {
    if |traceHex| != 32 || |spanHex| != 16 then NoPair
    else
      match ParsePairs(traceHex, 16)
      case Panicked => PairPanicked
      case Rejected => NoPair
      case Parsed(trace) =>
        match ParsePairs(spanHex, 8)
        case Panicked => PairPanicked
        case Rejected => NoPair
        case Parsed(span) => APair(Id(trace, span))
  }

  method ParseInto(text: Bytes, n: nat) returns (r: Parsed)
    requires 2 * n <= |text|
    ensures r == ParsePairs(text, n)
  {
    var bytes: Bytes := [];
    for i := 0 to n
      invariant ParsePairs(text, i) == Parsed(bytes)
    {
      var failed := Inside(text, 2 * i) || Inside(text, 2 * i + 2);
      var b := if failed then None else FromRadix(text[2 * i], text[2 * i + 1]);
      if b.None? {
        var r' := if failed then Panicked else Rejected;
        assert ParsePairs(text, i + 1) == r';
        Stops(text, i + 1, n);
        return r';
      }
      bytes := bytes + [b.value];
    }
    return Parsed(bytes);
  }

  lemma {:induction false} Stops(text: Bytes, i: nat, n: nat)
    requires i <= n && 2 * n <= |text| && !ParsePairs(text, i).Parsed?
    ensures ParsePairs(text, n) == ParsePairs(text, i)
    decreases n
  {
    if i < n {
      Stops(text, i, n - 1);
    }
  }

  method DecodePair(traceHex: Bytes, spanHex: Bytes) returns (r: Pair)
    ensures r == DecodedPair(traceHex, spanHex)
  {
    if |traceHex| != 32 || |spanHex| != 16 {
      return NoPair;
    }
    var trace := ParseInto(traceHex, 16);
    if !trace.Parsed? {
      return if trace.Panicked? then PairPanicked else NoPair;
    }
    var span := ParseInto(spanHex, 8);
    if !span.Parsed? {
      return if span.Panicked? then PairPanicked else NoPair;
    }
    return APair(Id(trace.bytes, span.bytes));
  }

  lemma {:induction false} HexAt(bytes: Bytes)
    ensures forall k :: 0 <= k < |bytes| ==>
              Hex(bytes)[2 * k] == HexDigit(bytes[k] / 16) && Hex(bytes)[2 * k + 1] == HexDigit(bytes[k] % 16)
  {
    if bytes != [] {
      HexAt(bytes[..|bytes| - 1]);
    }
  }

  lemma DigitReadsBack(b: byte)
    ensures FromRadix(HexDigit(b / 16), HexDigit(b % 16)) == Some(b)
    ensures HexDigit(b / 16) < 0x80 && HexDigit(b % 16) < 0x80
  {
  }

  lemma {:induction false} HexReadsBack(bytes: Bytes, n: nat)
    requires n <= |bytes|
    ensures ParsePairs(Hex(bytes), n) == Parsed(bytes[..n])
  {
    if n > 0 {
      HexReadsBack(bytes, n - 1);
      PairReadsBack(bytes, Hex(bytes), n - 1);
      hide Hex, FromRadix, HexDigit, Inside;
      assert bytes[..n] == bytes[..n - 1] + [bytes[n - 1]];
    }
  }

  /** One rendered byte: no slice boundary falls inside a character, and the digits read back. */
  lemma PairReadsBack(bytes: Bytes, text: Bytes, k: nat)
    requires k < |bytes| && |text| == 2 * |bytes| && text == Hex(bytes)
    ensures !Inside(text, 2 * k) && !Inside(text, 2 * k + 2)
    ensures FromRadix(text[2 * k], text[2 * k + 1]) == Some(bytes[k])
  {
    HexAt(bytes);
    hide Hex;
    DigitReadsBack(bytes[k]);
    if k + 1 < |bytes| {
      assert text[2 * (k + 1)] == HexDigit(bytes[k + 1] / 16);
      DigitReadsBack(bytes[k + 1]);
    }
  }

  /** Rendering an identifier and decoding it gives the identifier back. */
  lemma IdRoundTrip(id: Id)
    requires |id.trace| == 16 && |id.span| == 8
    ensures DecodedPair(Hex(id.trace), Hex(id.span)) == APair(id)
  {
    HexReadsBack(id.trace, 16);
    HexReadsBack(id.span, 8);
    assert id.trace[..16] == id.trace && id.span[..8] == id.span;
    hide Hex, ParsePairs;
  }

  function Lower(c: byte): byte {
    if 0x41 <= c <= 0x5A then c + 0x20 else c
  }

  lemma RadixRendering(a: byte, c: byte)
    requires FromRadix(a, c).Some?
    ensures var b := FromRadix(a, c).value;
            (HexDigit(b / 16) == Lower(a) && HexDigit(b % 16) == Lower(c)) <==> a != PLUS
  {
  }

  lemma {:induction false} PairsParsed(text: Bytes, n: nat, i: nat)
    requires i < n && 2 * n <= |text| && ParsePairs(text, n).Parsed?
    ensures |ParsePairs(text, n).bytes| == n
    ensures FromRadix(text[2 * i], text[2 * i + 1]) == Some(ParsePairs(text, n).bytes[i])
  {
    if n > 1 {
      PairsParsed(text, n - 1, if i < n - 1 then i else 0);
    }
  }

  /** An accepted text is the rendering of what it decodes to, up to the case of its letters,
      exactly when no pair starts with a plus sign. */
  lemma AcceptedIsRendered(text: Bytes, n: nat)
    requires 1 <= n && |text| == 2 * n && ParsePairs(text, n).Parsed?
    ensures var bytes := ParsePairs(text, n).bytes;
            |Hex(bytes)| == |text| &&
            ((forall k :: 0 <= k < |text| ==> Hex(bytes)[k] == Lower(text[k])) <==>
             forall i :: 0 <= i < n ==> text[2 * i] != PLUS)
  {
    var bytes := ParsePairs(text, n).bytes;
    PairsParsed(text, n, 0);
    HexAt(bytes);
    hide Hex, ParsePairs, FromRadix, HexDigit, Lower;
    forall i: nat | i < n
      ensures text[2 * i] != PLUS <==>
                Hex(bytes)[2 * i] == Lower(text[2 * i]) && Hex(bytes)[2 * i + 1] == Lower(text[2 * i + 1])
    {
      PairsParsed(text, n, i);
      RadixRendering(text[2 * i], text[2 * i + 1]);
    }
    if forall i :: 0 <= i < n ==> text[2 * i] != PLUS {
      forall k | 0 <= k < |text|
        ensures Hex(bytes)[k] == Lower(text[k])
      {
        var i := k / 2;
        assert text[2 * i] != PLUS;
        assert k == 2 * i || k == 2 * i + 1;
      }
    }
  }

  /** Text of 7-bit characters never makes the slicing panic. */
  lemma {:induction false} AsciiNeverPanics(text: Bytes, n: nat)
    requires 2 * n <= |text| && forall k :: 0 <= k < |text| ==> text[k] < 0x80
    ensures !ParsePairs(text, n).Panicked?
  {
    if n > 0 {
      AsciiNeverPanics(text, n - 1);
    }
  }

  /** Two hexadecimal digits, or a plus sign and one. */
  predicate IsHexPair(text: Bytes, k: nat)
    requires 2 * k + 1 < |text|
  {
    FromRadix(text[2 * k], text[2 * k + 1]).Some?
  }

  /** Slicing out pair `k` cuts a character at its start or its end. */
  predicate CutsCharacter(text: Bytes, k: nat) {
    Inside(text, 2 * k) || Inside(text, 2 * k + 2)
  }

  /** Some pair cuts a character, and every pair before it is hexadecimal. */
  predicate Unsliceable(text: Bytes, n: nat)
    requires 2 * n <= |text|
  {
    exists i: nat :: i < n && CutsCharacter(text, i) && forall k: nat :: k < i ==> IsHexPair(text, k)
  }

  predicate AllHexPairs(text: Bytes, n: nat)
    requires 2 * n <= |text|
  {
    forall k: nat :: k < n ==> IsHexPair(text, k) && !CutsCharacter(text, k)
  }

  /** Parsing panics, and accepts, exactly on the texts the two predicates describe. */
  lemma {:induction false} PanicsExactly(text: Bytes, n: nat)
    requires 2 * n <= |text|
    ensures ParsePairs(text, n).Panicked? <==> Unsliceable(text, n)
    ensures ParsePairs(text, n).Parsed? <==> AllHexPairs(text, n)
  {
    if n > 0 {
      PanicsExactly(text, n - 1);
      OneMorePair(text, n - 1);
      hide FromRadix, Inside, Unsliceable, AllHexPairs;
    }
  }

  lemma OneMorePair(text: Bytes, m: nat)
    requires 2 * m + 2 <= |text|
    ensures AllHexPairs(text, m + 1) <==> AllHexPairs(text, m) && IsHexPair(text, m) && !CutsCharacter(text, m)
    ensures Unsliceable(text, m + 1) <==> Unsliceable(text, m) || (AllHexPairs(text, m) && CutsCharacter(text, m))
  {
    hide IsHexPair, CutsCharacter;
    if Unsliceable(text, m + 1) && !Unsliceable(text, m) {
      var i: nat :| i < m + 1 && CutsCharacter(text, i) && forall k: nat :: k < i ==> IsHexPair(text, k);
      assert i == m;
      forall k: nat | k < m
        ensures IsHexPair(text, k) && !CutsCharacter(text, k)
      {
      }
    }
  }

  /** A whole identifier: it is accepted exactly when both halves have the right length and only
      whole hexadecimal pairs, and it panics exactly when a slice cuts a character before anything
      else has been rejected. */
  lemma PairExactly(traceHex: Bytes, spanHex: Bytes)
    ensures DecodedPair(traceHex, spanHex).APair? <==>
              |traceHex| == 32 && |spanHex| == 16 && AllHexPairs(traceHex, 16) && AllHexPairs(spanHex, 8)
    ensures DecodedPair(traceHex, spanHex) == PairPanicked <==>
              |traceHex| == 32 && |spanHex| == 16 &&
              (Unsliceable(traceHex, 16) || (AllHexPairs(traceHex, 16) && Unsliceable(spanHex, 8)))
  {
    if |traceHex| == 32 && |spanHex| == 16 {
      PanicsExactly(traceHex, 16);
      PanicsExactly(spanHex, 8);
      hide ParsePairs, AllHexPairs, Unsliceable;
    }
  }

  /** The text "a", then an e with an acute accent in UTF-8, then letters: well-formed, and it panics. */
  const ACCENTED: Bytes := [0x61, 0xC3, 0xA9] + seq(29, _ => 0x61)

  lemma AccentPanics()
    ensures DecodedPair(ACCENTED, seq(16, _ => 0x61)) == PairPanicked
  {
    assert CutsCharacter(ACCENTED, 0);
    PairExactly(ACCENTED, seq(16, _ => 0x61));
  }

  /** A sign in front of one digit is accepted, though no identifier is rendered so. */
  lemma SignAccepted()
    ensures var trace, span := [PLUS, 0x31] + seq(30, _ => 0x61), seq(16, _ => 0x61);
            DecodedPair(trace, span).APair? && forall id: Id :: Hex(id.trace) != trace
  {
    var trace: Bytes, span: Bytes := [PLUS, 0x31] + seq(30, _ => 0x61), seq(16, _ => 0x61);
    PairExactly(trace, span);
    forall id: Id
      ensures Hex(id.trace) != trace
    {
      NoSignRendered(id.trace);
    }
  }

  lemma NoSignRendered(bytes: Bytes)
    ensures bytes != [] ==> Hex(bytes)[0] != PLUS
  {
    HexAt(bytes);
    hide Hex;
    assert bytes != [] ==> Hex(bytes)[2 * 0] == HexDigit(bytes[0] / 16);
  }

  const HEX_DIGITS: Bytes :=
    [0x30, 0x31, 0x32, 0x33, 0x34, 0x35, 0x36, 0x37, 0x38, 0x39, 0x61, 0x62, 0x63, 0x64, 0x65, 0x66]

  /** A hexadecimal digit in either case, and its value. */
  ghost predicate IsDigitOf(c: byte, d: nat) {
    d < 16 && (c == HEX_DIGITS[d] || (d >= 10 && c + 0x20 == HEX_DIGITS[d]))
  }

  /** A pair is read exactly if it is two hexadecimal digits, or a plus sign and one, and as that number. */
  lemma PairValue(a: byte, c: byte, b: byte)
    ensures FromRadix(a, c) == Some(b) <==>
              exists high: nat, low: nat ::
                b == high * 16 + low && IsDigitOf(c, low) && (IsDigitOf(a, high) || (a == PLUS && high == 0))
  {
    NibbleIs(a);
    NibbleIs(c);
    if FromRadix(a, c) == Some(b) {
      var high, low := if a == PLUS then 0 else Nibble(a).value, Nibble(c).value;
      assert b == high * 16 + low && IsDigitOf(c, low) && (IsDigitOf(a, high) || (a == PLUS && high == 0));
    }
    hide IsDigitOf, Nibble;
    forall high: nat, low: nat |
      b == high * 16 + low && IsDigitOf(c, low) && (IsDigitOf(a, high) || (a == PLUS && high == 0))
      ensures FromRadix(a, c) == Some(b)
    {
      assert Nibble(c) == Some(low);
      assert a != PLUS ==> Nibble(a) == Some(high);
    }
  }

  lemma NibbleIs(c: byte)
    ensures forall d: nat :: Nibble(c) == Some(d) <==> IsDigitOf(c, d)
    ensures c == PLUS ==> Nibble(c).None?
  {
    DecimalDigits();
    LetterDigits();
  }

  lemma DecimalDigits()
    ensures forall d: nat :: d < 10 ==> HEX_DIGITS[d] == 0x30 + d
  {
    assert HEX_DIGITS[0] == 0x30 && HEX_DIGITS[1] == 0x31 && HEX_DIGITS[2] == 0x32 && HEX_DIGITS[3] == 0x33;
    assert HEX_DIGITS[4] == 0x34 && HEX_DIGITS[5] == 0x35 && HEX_DIGITS[6] == 0x36 && HEX_DIGITS[7] == 0x37;
    assert HEX_DIGITS[8] == 0x38 && HEX_DIGITS[9] == 0x39;
  }

  lemma LetterDigits()
    ensures forall d: nat :: 10 <= d < 16 ==> HEX_DIGITS[d] == 0x61 + (d - 10)
  {
    assert HEX_DIGITS[10] == 0x61 && HEX_DIGITS[11] == 0x62 && HEX_DIGITS[12] == 0x63;
    assert HEX_DIGITS[13] == 0x64 && HEX_DIGITS[14] == 0x65 && HEX_DIGITS[15] == 0x66;
  }
}
