/** The TLV writer and the two TLV readers of the browser tests (NDN Packet Format Specification 0.3,
    "TLV Encoding"), with their 32-bit operators. */
module NdnTlv {
  import opened Prelude
  import opened JsNumber
  import opened JsDouble
  import BigEndian

  datatype Tlv = Tlv(typ: nat, value: Bytes)

  /** The shortest encoding of a number; four bytes hold it modulo 2^32. */
  function Varu(v: nat): Bytes {
    if v < 253 then [v]
    else if v <= 0xffff then [253] + BigEndian.Digits(v, 2)
    else [254] + BigEndian.Digits(v, 4)
  }

  function Wire(t: Tlv): Bytes {
    Varu(t.typ) + Varu(|t.value|) + t.value
  }

  function WireAll(ts: seq<Tlv>): Bytes {
    if ts == [] then [] else WireAll(ts[..|ts| - 1]) + Wire(ts[|ts| - 1])
  }

  lemma DigitBytes(v: nat)
    ensures BigEndian.Digits(v, 2) == [v / 0x100 % 256, v % 256]
    ensures BigEndian.Digits(v, 4) == [v / 0x100_0000 % 256, v / 0x1_0000 % 256, v / 0x100 % 256, v % 256]
  {
    var a, b, c := v / 256, v / 0x1_0000, v / 0x100_0000;
    assert a / 256 == b && b / 256 == c;
    assert BigEndian.Digits(c, 1) == [c % 256] by {
      assert BigEndian.Digits(c / 256, 0) == [];
    }
    assert BigEndian.Digits(b, 1) == [b % 256] by {
      assert BigEndian.Digits(b / 256, 0) == [];
    }
    assert BigEndian.Digits(a, 1) == [a % 256];
    assert BigEndian.Digits(b, 2) == BigEndian.Digits(c, 1) + [b % 256];
    assert BigEndian.Digits(a, 3) == BigEndian.Digits(b, 2) + [a % 256];
    assert BigEndian.Digits(v, 4) == BigEndian.Digits(a, 3) + [v % 256];
  }

  /** The operators of the writer pick exactly the big-endian digits. */
  lemma PickedBytes(v: nat)
    ensures 0 <= And(ShiftRightUnsigned(v, 24), 0xff) < 256 && 0 <= And(ShiftRight(v, 16), 0xff) < 256
    ensures 0 <= And(ShiftRight(v, 8), 0xff) < 256 && 0 <= And(v, 0xff) < 256
    ensures BigEndian.Digits(v, 2) == [And(ShiftRight(v, 8), 0xff), And(v, 0xff)]
    ensures BigEndian.Digits(v, 4) ==
            [And(ShiftRightUnsigned(v, 24), 0xff), And(ShiftRight(v, 16), 0xff), And(ShiftRight(v, 8), 0xff),
             And(v, 0xff)]
  {
    hide And, ShiftRight, ShiftRightUnsigned, Pow2, BigEndian.Digits;
    DigitBytes(v);
    Powers();
    PickTopByte(v);
    LowByte(ShiftRightUnsigned(v, 24));
    PickByte(v, 16);
    PickByte(v, 8);
    LowByte(v);
  }

  /** A growing array of numbers; its type says every number pushed is a byte. */
  class NumberArray {
    var data: Bytes

    constructor ()
      ensures data == []
    {
      data := [];
    }

    method Push(b: byte)
      modifies this
      ensures data == old(data) + [b]
    {
      data := data + [b];
    }

    method PushAll(bytes: Bytes)
      modifies this
      ensures data == old(data) + bytes
    {
      for k := 0 to |bytes|
        invariant data == old(data) + bytes[..k]
      {
        assert bytes[..k + 1] == bytes[..k] + [bytes[k]];
        Push(bytes[k]);
      }
      assert bytes[..|bytes|] == bytes;
    }

    method PutVaru(v: nat)
      modifies this
      ensures data == old(data) + Varu(v)
    {
      hide And, ShiftRight, ShiftRightUnsigned, BigEndian.Digits;
      if v < 253 {
        Push(v);
      } else if v <= 0xffff {
        PickedBytes(v);
        Push(253);
        Push(And(ShiftRight(v, 8), 0xff));
        Push(And(v, 0xff));
      } else {
        PickedBytes(v);
        Push(254);
        Push(And(ShiftRightUnsigned(v, 24), 0xff));
        Push(And(ShiftRight(v, 16), 0xff));
        Push(And(ShiftRight(v, 8), 0xff));
        Push(And(v, 0xff));
      }
    }
  }

  function Components(parts: seq<Bytes>): seq<Tlv> {
    seq(|parts|, i requires 0 <= i < |parts| => Tlv(0x08, parts[i]))
  }

  function InterestFields(parts: seq<Bytes>, nonce: Bytes): seq<Tlv> {
    [Tlv(0x07, WireAll(Components(parts))), Tlv(0x21, []), Tlv(0x12, []), Tlv(0x0a, nonce), Tlv(0x0c, [0x0f, 0xa0])]
  }

  function Interest(parts: seq<Bytes>, nonce: Bytes): Bytes {
    Wire(Tlv(0x05, WireAll(InterestFields(parts, nonce))))
  }

  /** `encInterest` on components already encoded as UTF-8, with the random nonce as a parameter. */
  method EncInterest(parts: seq<Bytes>, nonce: Bytes) returns (wire: Bytes)
    requires |nonce| == 4
    ensures wire == Interest(parts, nonce)
  {
    hide WireAll, Wire, Components, InterestFields;
    assert WireAll(Components(parts[..0])) == [] by {
      NothingWritten(parts[..0]);
    }
    var nameBytes := new NumberArray();
    for k := 0 to |parts|
      invariant fresh(nameBytes)
      invariant nameBytes.data == WireAll(Components(parts[..k]))
    {
      ComponentAppended(parts, k);
      nameBytes.Push(0x08);
      nameBytes.PutVaru(|parts[k]|);
      nameBytes.PushAll(parts[k]);
    }
    assert parts[..|parts|] == parts;
    var name := new NumberArray();
    name.Push(0x07);
    name.PutVaru(|nameBytes.data|);
    name.PushAll(nameBytes.data);
    var body := name.data + [0x21, 0x00, 0x12, 0x00] + ([0x0a, 0x04] + nonce) + [0x0c, 0x02, 0x0f, 0xa0];
    BodyIs(parts, nonce, name.data);
    var out := new NumberArray();
    out.Push(0x05);
    out.PutVaru(|body|);
    out.PushAll(body);
    OuterIs(body);
    return out.data;
  }

  lemma NothingWritten(parts: seq<Bytes>)
    requires parts == []
    ensures WireAll(Components(parts)) == []
  {
  }

  lemma ComponentAppended(parts: seq<Bytes>, k: nat)
    requires k < |parts|
    ensures WireAll(Components(parts[..k + 1])) ==
            WireAll(Components(parts[..k])) + [0x08] + Varu(|parts[k]|) + parts[k]
  {
    var ts := Components(parts[..k + 1]);
    assert ts[..k] == Components(parts[..k]) && ts[k] == Tlv(0x08, parts[k]);
    hide Components, Varu;
    assert Varu(0x08) == [0x08];
  }

  lemma OuterIs(body: Bytes)
    ensures Wire(Tlv(0x05, body)) == [0x05] + Varu(|body|) + body
  {
  }

  lemma BodyIs(parts: seq<Bytes>, nonce: Bytes, name: Bytes)
    requires |nonce| == 4
    requires name == [0x07] + Varu(|WireAll(Components(parts))|) + WireAll(Components(parts))
    ensures WireAll(InterestFields(parts, nonce)) ==
            name + [0x21, 0x00, 0x12, 0x00] + ([0x0a, 0x04] + nonce) + [0x0c, 0x02, 0x0f, 0xa0]
  {
    var n := Tlv(0x07, WireAll(Components(parts)));
    assert Wire(n) == name;
    FiveFields(n, Tlv(0x21, []), Tlv(0x12, []), Tlv(0x0a, nonce), Tlv(0x0c, [0x0f, 0xa0]));
    assert Wire(Tlv(0x21, [])) == [0x21, 0x00] && Wire(Tlv(0x12, [])) == [0x12, 0x00];
    assert Wire(Tlv(0x0a, nonce)) == [0x0a, 0x04] + nonce;
    assert Wire(Tlv(0x0c, [0x0f, 0xa0])) == [0x0c, 0x02, 0x0f, 0xa0];
    hide WireAll, Wire, Varu;
  }

  lemma FiveFields(a: Tlv, b: Tlv, c: Tlv, d: Tlv, e: Tlv)
    ensures WireAll([a, b, c, d, e]) == Wire(a) + Wire(b) + Wire(c) + Wire(d) + Wire(e)
  {
    assert WireAll([]) == [];
    hide WireAll, Wire;
    WireAppend([], a);
    WireAppend([a], b);
    WireAppend([a] + [b], c);
    WireAppend([a] + [b] + [c], d);
    WireAppend([a] + [b] + [c] + [d], e);
    OneByOne(a, b, c, d, e);
    assert [] + Wire(a) == Wire(a) && [] + [a] == [a];
  }

  lemma OneByOne<T>(a: T, b: T, c: T, d: T, e: T)
    ensures [a] + [b] + [c] + [d] + [e] == [a, b, c, d, e]
  {
  }

  lemma WireAppend(ts: seq<Tlv>, t: Tlv)
    ensures WireAll(ts + [t]) == WireAll(ts) + Wire(t)
  {
    assert (ts + [t])[..|ts|] == ts;
  }

  /** An index past the end reads as undefined, which the operators take as zero. */
  function At(b: Bytes, i: nat): byte {
    if i < |b| then b[i] else 0
  }

  /** `readVaru`: the value and the next offset; a first byte that is 255 or missing is read like 254. */
  function ReadVaru(b: Bytes, off: nat): (r: (nat, nat))
    ensures off < r.1 && r.0 < 0x1_0000_0000
  {
    hide Or, ShiftLeft, ToUint32;
    JoinBytes(At(b, off + 2), At(b, off + 3), At(b, off + 4));
    JoinBytes(0, At(b, off + 1), At(b, off + 2));
    if off < |b| && b[off] < 253 then (b[off], off + 1)
    else if off < |b| && b[off] == 253 then
      (Or(ShiftLeft(At(b, off + 1), 8), At(b, off + 2)), off + 3)
    else
      (ToUint32(At(b, off + 1) * 0x100_0000 +
                Or(Or(ShiftLeft(At(b, off + 2), 16), ShiftLeft(At(b, off + 3), 8)), At(b, off + 4))), off + 5)
  }

  /** `readVarInt`: the same, except that it throws (None) when the first byte is 255 or missing. */
  function ReadVarInt(b: Bytes, off: nat): Option<(nat, nat)> {
    hide Or, ShiftLeft, ToUint32;
    JoinBytes(At(b, off + 2), At(b, off + 3), At(b, off + 4));
    JoinBytes(0, At(b, off + 1), At(b, off + 2));
    if off >= |b| then None
    else if b[off] < 0xfd then Some((b[off], off + 1))
    else if b[off] == 0xfd then Some((Or(ShiftLeft(At(b, off + 1), 8), At(b, off + 2)), off + 3))
    else if b[off] == 0xfe then
      var v := At(b, off + 1) * 0x100_0000 +
               Or(Or(ShiftLeft(At(b, off + 2), 16), ShiftLeft(At(b, off + 3), 8)), At(b, off + 4));
      Some((ToUint32(v), off + 5))
    else None
  }

  lemma ReadersAgree(b: Bytes, off: nat)
    ensures ReadVarInt(b, off) == if off < |b| && b[off] != 255 then Some(ReadVaru(b, off)) else None
  {
    hide Or, ShiftLeft, ToUint32, At;
  }

  function Min(a: nat, b: nat): nat {
    if a < b then a else b
  }

  /** `subarray` clamps both ends. */
  function Subarray(b: Bytes, lo: nat, hi: nat): Bytes
    requires lo <= hi
  {
    b[Min(lo, |b|)..Min(hi, |b|)]
  }

  function DecodeTlv(b: Bytes, off: nat): (r: Option<(Tlv, nat)>)
    ensures r.Some? ==> off + 1 < r.value.1
  {
    ReadersAgree(b, off);
    match ReadVarInt(b, off)
    case None => None
    case Some((typ, lenOff)) =>
      ReadersAgree(b, lenOff);
      match ReadVarInt(b, lenOff)
      case None => None
      case Some((len, valOff)) => Some((Tlv(typ, Subarray(b, valOff, valOff + len)), valOff + len))
  }

  datatype Span = Span(typ: nat, valOff: nat, end: nat)

  function ReadTlv(b: Bytes, off: nat): Span {
    var t := ReadVaru(b, off);
    var l := ReadVaru(b, t.1);
    Span(t.0, l.1, l.1 + l.0)
  }

  /** All the elements from an offset on, and the offset after the last one. */
  function Children(b: Bytes, off: nat): Option<(seq<Tlv>, nat)>
    decreases |b| - off
  {
    if off >= |b| then Some(([], off))
    else
      match DecodeTlv(b, off)
      case None => None
      case Some((t, next)) =>
        match Children(b, next)
        case None => None
        case Some((ts, end)) => Some(([t] + ts, end))
  }

  function Prepend(out: seq<Tlv>, r: Option<(seq<Tlv>, nat)>): Option<(seq<Tlv>, nat)> {
    match r
    case None => None
    case Some((ts, end)) => Some((out + ts, end))
  }

  lemma PrependTwice(a: seq<Tlv>, b: seq<Tlv>, r: Option<(seq<Tlv>, nat)>)
    ensures Prepend(a, Prepend(b, r)) == Prepend(a + b, r) && Prepend([], r) == r
  {
    if r.Some? {
      assert a + (b + r.value.0) == (a + b) + r.value.0 && [] + r.value.0 == r.value.0;
    }
  }

  /** `readChildren` ends on every buffer: each turn advances by at least two. None is its exception. */
  method ReadChildren(b: Bytes) returns (r: Option<seq<Tlv>>)
    ensures r == match Children(b, 0) { case None => None case Some((ts, _)) => Some(ts) }
  {
    var out: seq<Tlv>, off := [], 0;
    hide DecodeTlv;
    PrependTwice([], [], Children(b, 0));
    while off < |b|
      invariant Children(b, 0) == Prepend(out, Children(b, off))
      decreases |b| - off
    {
      var one := DecodeTlv(b, off);
      if one.None? {
        return None;
      }
      PrependTwice(out, [one.value.0], Children(b, one.value.1));
      assert Children(b, off) == Prepend([one.value.0], Children(b, one.value.1));
      out := out + [one.value.0];
      off := one.value.1;
    }
    assert out + [] == out;
    return Some(out);
  }

  /** The sum of `readNni`, rounded to a double at each byte; None is Infinity. */
  function Nni(buf: Bytes): Option<nat> {
    if buf == [] then Some(0)
    else
      match Nni(buf[..|buf| - 1])
      case None => None
      case Some(v) => Rounded(v * 256 + buf[|buf| - 1])
  }

  method ReadNni(buf: Bytes) returns (v: Option<nat>)
    ensures v == Nni(buf)
    ensures BigEndian.Value(buf) < 0x20_0000_0000_0000 ==> v == Some(BigEndian.Value(buf))
  {
    hide Rounded, Pow2, Exact;
    v := Some(0);
    for k := 0 to |buf|
      invariant v == Nni(buf[..k])
    {
      assert buf[..k + 1][..k] == buf[..k];
      v := if v.None? then None else Rounded(v.value * 256 + buf[k]);
    }
    assert buf[..|buf|] == buf;
    if BigEndian.Value(buf) < 0x20_0000_0000_0000 {
      SmallIsExact(BigEndian.Value(buf));
      NniExactly(buf);
    }
  }

  /** The reader is exact precisely on the values a double can hold. */
  lemma {:induction false} NniExactly(buf: Bytes)
    ensures Nni(buf) == Some(BigEndian.Value(buf)) <==>
              Exact(BigEndian.Value(buf)) && BigEndian.Value(buf) < Pow2(1024)
  {
    if buf == [] {
      SmallIsExact(0);
    } else {
      var init, b := buf[..|buf| - 1], buf[|buf| - 1];
      var p, n := BigEndian.Value(init), BigEndian.Value(buf);
      assert n == p * 256 + b && Nni(buf) == if Nni(init).None? then None else Rounded(Nni(init).value * 256 + b);
      NniExactly(init);
      RoundingExactly(n);
      hide BigEndian.Value, Nni, Exact, Nearest, Pow2, Ulp, Halved, Rounded;
      if Exact(n) {
        PrefixIsExact(n, 8);
        LowByteOff(p, b);
      }
      RoundedExactly(n);
      if Nni(init).Some? {
        RoundedIsExact(Nni(init).value * 256 + b);
      }
    }
  }

  /** Eight bytes worth 2^53 + 1 are read as 2^53. */
  lemma NniRounds()
    ensures var buf := [0, 0x20, 0, 0, 0, 0, 0, 1];
            BigEndian.Value(buf) == 0x20_0000_0000_0001 && Nni(buf) == Some(0x20_0000_0000_0000)
  {
    hide Pow2;
    var init, buf: Bytes := [0, 0x20, 0, 0, 0, 0, 0], [0, 0x20, 0, 0, 0, 0, 0, 1];
    assert buf[..7] == init;
    SevenBytes();
    assert Nni(init) == Some(0x2000_0000_0000) by {
      SmallIsExact(0x2000_0000_0000);
      NniExactly(init);
    }
    RoundsDown();
    hide BigEndian.Digits, Rounded;
  }

  lemma SevenBytes()
    ensures BigEndian.Value([0, 0x20, 0, 0, 0, 0, 0]) == 0x2000_0000_0000
  {
    var s: Bytes := [0, 0x20, 0, 0, 0, 0, 0];
    assert s[..6][..5] == s[..5] && s[..5][..4] == s[..4] && s[..4][..3] == s[..3];
    assert s[..3][..2] == s[..2] && s[..2][..1] == s[..1] && s[..1][..0] == [];
    assert BigEndian.Value(s[..1]) == 0;
    assert BigEndian.Value(s[..2]) == 0x20;
    assert BigEndian.Value(s[..3]) == 0x2000;
    assert BigEndian.Value(s[..4]) == 0x20_0000;
    assert BigEndian.Value(s[..5]) == 0x2000_0000;
    assert BigEndian.Value(s[..6]) == 0x20_0000_0000;
  }

  /** The lengths a number may be written in; a writer uses the shortest. */
  datatype Width = One | Three | Five

  predicate Fits(w: Width, v: nat) {
    match w
    case One => v < 253
    case Three => v < 0x1_0000
    case Five => v < 0x1_0000_0000
  }

  function Number(w: Width, v: nat): Bytes
    requires Fits(w, v)
  {
    match w
    case One => [v]
    case Three => [253] + BigEndian.Digits(v, 2)
    case Five => [254] + BigEndian.Digits(v, 4)
  }

  function Size(w: Width): nat {
    match w case One => 1 case Three => 3 case Five => 5
  }

  lemma TwoDigits(x: byte, y: byte, v: nat)
    requires v < 0x1_0000
    ensures BigEndian.Digits(v, 2) == [x, y] <==> v == x * 256 + y
  {
    hide BigEndian.Digits;
    DigitBytes(v);
  }

  lemma FourDigits(w: byte, x: byte, y: byte, z: byte, v: nat)
    requires v < 0x1_0000_0000
    ensures BigEndian.Digits(v, 4) == [w, x, y, z] <==> v == w * 0x100_0000 + (x * 0x1_0000 + y * 0x100 + z)
  {
    hide BigEndian.Digits;
    DigitBytes(v);
    var d := BigEndian.Digits(v, 4);
    FourUnique(v, d[0], d[1], d[2], d[3]);
    FourUnique(w * 0x100_0000 + (x * 0x1_0000 + y * 0x100 + z), w, x, y, z);
  }

  lemma FourUnique(v: nat, w: byte, x: byte, y: byte, z: byte)
    requires v < 0x1_0000_0000
    ensures w == v / 0x100_0000 % 256 && x == v / 0x1_0000 % 256 && y == v / 0x100 % 256 && z == v % 256 <==>
            v == w * 0x100_0000 + (x * 0x1_0000 + y * 0x100 + z)
  {
    var a, b, c := v / 0x100, v / 0x1_0000, v / 0x100_0000;
    assert a / 256 == b && b / 256 == c && c < 256;
    assert v == a * 256 + v % 256 && a == b * 256 + a % 256 && b == c * 256 + b % 256;
    if v == w * 0x100_0000 + (x * 0x1_0000 + y * 0x100 + z) {
      RemainderIs(v, 256, w * 0x1_0000 + x * 0x100 + y, z);
      RemainderIs(a, 256, w * 0x100 + x, y);
      RemainderIs(b, 256, w, x);
    }
  }

  /** What the operators of the readers compute. */
  lemma ReadsBigEndian(b: Bytes, off: nat)
    requires off < |b|
    ensures ReadVaru(b, off) ==
              if b[off] < 253 then (b[off], off + 1)
              else if b[off] == 253 then (At(b, off + 1) * 256 + At(b, off + 2), off + 3)
              else
                var low := At(b, off + 2) * 0x1_0000 + At(b, off + 3) * 0x100 + At(b, off + 4);
                (At(b, off + 1) * 0x100_0000 + low, off + 5)
  {
    hide Or, ShiftLeft, At, ToUint32;
    JoinBytes(0, At(b, off + 1), At(b, off + 2));
    JoinBytes(At(b, off + 2), At(b, off + 3), At(b, off + 4));
    WordFits(At(b, off + 1) * 0x100_0000 + (At(b, off + 2) * 0x1_0000 + At(b, off + 3) * 0x100 + At(b, off + 4)));
  }

  /** `x` stands in the buffer at `off`. */
  ghost predicate Sits(b: Bytes, off: nat, x: Bytes) {
    off + |x| <= |b| && b[off..off + |x|] == x
  }

  lemma SitsAt(b: Bytes, off: nat, x: Bytes, k: nat)
    requires Sits(b, off, x) && k < |x|
    ensures off + k < |b| && b[off + k] == x[k]
  {
    assert b[off..off + |x|][k] == b[off + k];
  }

  lemma SitsMiddle(a: Bytes, x: Bytes, rest: Bytes)
    ensures Sits(a + x + rest, |a|, x)
  {
  }

  /** A written number is read back, by the reader that refuses and by the one that does not. */
  lemma NumberReadsBack(b: Bytes, off: nat, w: Width, v: nat)
    requires Fits(w, v) && Sits(b, off, Number(w, v))
    ensures off + Size(w) <= |b| && b[off] != 255 && ReadVaru(b, off) == (v, off + Size(w))
  {
    hide ReadVaru, BigEndian.Digits, Sits;
    var s := Number(w, v);
    SitsAt(b, off, s, 0);
    SitsAt(b, off, s, Size(w) - 1);
    ReadsBigEndian(b, off);
    match w {
      case One =>
      case Three =>
        SitsAt(b, off, s, 1);
        assert BigEndian.Digits(v, 2) == [s[1], s[2]];
        TwoDigits(s[1], s[2], v);
      case Five =>
        SitsAt(b, off, s, 1);
        SitsAt(b, off, s, 2);
        SitsAt(b, off, s, 3);
        assert BigEndian.Digits(v, 4) == [s[1], s[2], s[3], s[4]];
        FourDigits(s[1], s[2], s[3], s[4], v);
    }
  }

  function WidthAt(b: Bytes, off: nat): Width
    requires off < |b|
  {
    if b[off] < 253 then One else if b[off] == 253 then Three else Five
  }

  /** A number read without running past the end was written in one of the three widths. */
  lemma NumberFound(b: Bytes, off: nat)
    requires off < |b| && b[off] != 255 && ReadVaru(b, off).1 <= |b|
    ensures var (v, next) := ReadVaru(b, off); var w := WidthAt(b, off);
            next == off + Size(w) && Fits(w, v) && Sits(b, off, Number(w, v)) && |Number(w, v)| == Size(w)
  {
    hide ReadVaru, BigEndian.Digits;
    var (v, next) := ReadVaru(b, off);
    ReadsBigEndian(b, off);
    match WidthAt(b, off) {
      case One =>
      case Three => TwoDigits(b[off + 1], b[off + 2], v);
      case Five => FourDigits(b[off + 1], b[off + 2], b[off + 3], b[off + 4], v);
    }
  }

  /** An element as written: each of its two numbers in some width. */
  datatype Element = Element(typWidth: Width, lenWidth: Width, tlv: Tlv)

  predicate WellFormed(e: Element) {
    Fits(e.typWidth, e.tlv.typ) && Fits(e.lenWidth, |e.tlv.value|)
  }

  predicate AllWellFormed(es: seq<Element>) {
    es == [] || (WellFormed(es[0]) && AllWellFormed(es[1..]))
  }

  function Encoded(e: Element): Bytes
    requires WellFormed(e)
  {
    Number(e.typWidth, e.tlv.typ) + (Number(e.lenWidth, |e.tlv.value|) + e.tlv.value)
  }

  function EncodedAll(es: seq<Element>): Bytes
    requires AllWellFormed(es)
  {
    if es == [] then [] else Encoded(es[0]) + EncodedAll(es[1..])
  }

  function Tlvs(es: seq<Element>): seq<Tlv> {
    if es == [] then [] else [es[0].tlv] + Tlvs(es[1..])
  }

  lemma SliceOf(b: Bytes, off: nat, x: Bytes, rest: Bytes)
    requires off <= |b| && b[off..] == x + rest
    ensures Sits(b, off, x) && off + |x| <= |b| && b[off + |x|..] == rest
  {
    assert b[off..off + |x|] == b[off..][..|x|] && b[off + |x|..] == b[off..][|x|..];
  }

  /** The two decoders in terms of the two numbers in front of a value. */
  lemma HeaderDecodes(b: Bytes, off: nat)
    ensures var (typ, lenOff) := ReadVaru(b, off); var (len, valOff) := ReadVaru(b, lenOff);
            && ReadTlv(b, off) == Span(typ, valOff, valOff + len)
            && DecodeTlv(b, off) ==
               if off < |b| && b[off] != 255 && lenOff < |b| && b[lenOff] != 255
               then Some((Tlv(typ, Subarray(b, valOff, valOff + len)), valOff + len)) else None
  {
    hide ReadVaru, ReadVarInt, Subarray;
    ReadersAgree(b, off);
    ReadersAgree(b, ReadVaru(b, off).1);
  }

  lemma NumberSize(w: Width, v: nat)
    requires Fits(w, v)
    ensures |Number(w, v)| == Size(w)
  {
  }

  lemma ValueCut(b: Bytes, off: nat, v: Bytes)
    requires Sits(b, off, v)
    ensures Subarray(b, off, off + |v|) == v
  {
  }

  lemma ThreePieces(b: Bytes, off: nat, t: Bytes, l: Bytes, v: Bytes, rest: Bytes)
    requires off <= |b| && b[off..] == t + (l + v) + rest
    ensures var mid, val := off + |t|, off + |t| + |l|;
            && Sits(b, off, t) && Sits(b, mid, l) && Sits(b, val, v)
            && val + |v| <= |b| && b[val + |v|..] == rest
  {
    hide Sits;
    SliceOf(b, off, t + (l + v), rest);
    SitsApart(b, off, t, l + v);
    SitsApart(b, off + |t|, l, v);
  }

  lemma SitsApart(b: Bytes, off: nat, x: Bytes, y: Bytes)
    requires Sits(b, off, x + y)
    ensures Sits(b, off, x) && Sits(b, off + |x|, y)
  {
    var s := b[off..off + |x + y|];
    assert s[..|x|] == x && s[|x|..] == y;
    assert s[..|x|] == b[off..off + |x|] && s[|x|..] == b[off + |x|..off + |x| + |y|];
  }

  lemma SitsTogether(b: Bytes, off: nat, x: Bytes, y: Bytes)
    requires Sits(b, off, x) && Sits(b, off + |x|, y)
    ensures Sits(b, off, x + y)
  {
  }

  /** One well-formed element is decoded where it stands, by both readers. */
  lemma ElementReadsBack(b: Bytes, off: nat, e: Element, rest: Bytes)
    requires WellFormed(e) && off <= |b| && b[off..] == Encoded(e) + rest
    ensures var next := off + |Encoded(e)|;
            && next <= |b| && b[next..] == rest
            && DecodeTlv(b, off) == Some((e.tlv, next))
            && ReadTlv(b, off) == Span(e.tlv.typ, next - |e.tlv.value|, next)
  {
    hide Number, DecodeTlv, ReadTlv, Sits, Size, Fits;
    var t, l := Number(e.typWidth, e.tlv.typ), Number(e.lenWidth, |e.tlv.value|);
    NumberSize(e.typWidth, e.tlv.typ);
    NumberSize(e.lenWidth, |e.tlv.value|);
    assert Encoded(e) == t + (l + e.tlv.value);
    hide Encoded;
    ThreePieces(b, off, t, l, e.tlv.value, rest);
    PiecesDecode(b, off, e);
    assert off + |Encoded(e)| == off + |t| + |l| + |e.tlv.value|;
  }

  lemma PiecesDecode(b: Bytes, off: nat, e: Element)
    requires WellFormed(e)
    requires Sits(b, off, Number(e.typWidth, e.tlv.typ))
    requires Sits(b, off + Size(e.typWidth), Number(e.lenWidth, |e.tlv.value|))
    requires Sits(b, off + Size(e.typWidth) + Size(e.lenWidth), e.tlv.value)
    ensures var val := off + Size(e.typWidth) + Size(e.lenWidth); var next := val + |e.tlv.value|;
            DecodeTlv(b, off) == Some((e.tlv, next)) && ReadTlv(b, off) == Span(e.tlv.typ, val, next)
  {
    hide Number, ReadVaru, DecodeTlv, ReadTlv, Sits, Size, Fits, Subarray;
    NumberReadsBack(b, off, e.typWidth, e.tlv.typ);
    NumberReadsBack(b, off + Size(e.typWidth), e.lenWidth, |e.tlv.value|);
    HeaderDecodes(b, off);
    ValueCut(b, off + Size(e.typWidth) + Size(e.lenWidth), e.tlv.value);
  }

  lemma ChildrenStep(b: Bytes, off: nat)
    requires off < |b|
    ensures Children(b, off) ==
            if DecodeTlv(b, off).None? then None
            else Prepend([DecodeTlv(b, off).value.0], Children(b, DecodeTlv(b, off).value.1))
  {
    hide DecodeTlv;
  }

  lemma FirstElement(es: seq<Element>)
    requires es != [] && AllWellFormed(es)
    ensures WellFormed(es[0]) && AllWellFormed(es[1..])
    ensures EncodedAll(es) == Encoded(es[0]) + EncodedAll(es[1..]) && Tlvs(es) == [es[0].tlv] + Tlvs(es[1..])
  {
    hide Encoded, WellFormed;
  }

  lemma {:induction false} ChildrenReadBack(b: Bytes, off: nat, es: seq<Element>)
    requires AllWellFormed(es) && off <= |b| && b[off..] == EncodedAll(es)
    ensures Children(b, off) == Some((Tlvs(es), |b|))
    decreases |es|
  {
    hide DecodeTlv, ReadTlv, Encoded, WellFormed;
    if es == [] {
      assert |b[off..]| == 0;
    } else {
      hide Children, AllWellFormed, EncodedAll, Tlvs;
      var e, rest := es[0], es[1..];
      FirstElement(es);
      ElementReadsBack(b, off, e, EncodedAll(rest));
      assert off < |b|;
      ChildrenStep(b, off);
      ChildrenReadBack(b, off + |Encoded(e)|, rest);
    }
  }

  lemma ElementFound(b: Bytes, off: nat) returns (e: Element)
    requires off < |b| && DecodeTlv(b, off).Some? && DecodeTlv(b, off).value.1 <= |b|
    ensures var (t, next) := DecodeTlv(b, off).value;
            WellFormed(e) && e.tlv == t && next == off + |Encoded(e)| && Sits(b, off, Encoded(e))
  {
    hide ReadVaru, DecodeTlv, WidthAt, Number, Fits, Size, ReadTlv, Sits, Subarray;
    HeaderDecodes(b, off);
    var t := DecodeTlv(b, off).value.0;
    var lenOff := ReadVaru(b, off).1;
    var (len, valOff) := ReadVaru(b, lenOff);
    NumberFound(b, off);
    NumberFound(b, lenOff);
    ValueSits(b, valOff, len);
    e := Element(WidthAt(b, off), WidthAt(b, lenOff), t);
    SitsTogether(b, lenOff, Number(e.lenWidth, len), t.value);
    SitsTogether(b, off, Number(e.typWidth, t.typ), Number(e.lenWidth, len) + t.value);
  }

  lemma ValueSits(b: Bytes, off: nat, len: nat)
    requires off + len <= |b|
    ensures |Subarray(b, off, off + len)| == len && Sits(b, off, Subarray(b, off, off + len))
  {
  }

  lemma {:induction false} ChildrenFound(b: Bytes, off: nat) returns (es: seq<Element>)
    requires off <= |b| && Children(b, off).Some? && Children(b, off).value.1 == |b|
    ensures AllWellFormed(es) && b[off..] == EncodedAll(es) && Tlvs(es) == Children(b, off).value.0
    decreases |b| - off
  {
    hide DecodeTlv;
    if off == |b| {
      es := [];
    } else {
      hide Children, Encoded, WellFormed, Sits, AllWellFormed, EncodedAll, Tlvs;
      ChildrenStep(b, off);
      var next := DecodeTlv(b, off).value.1;
      EndsAtOrAfter(b, next);
      var e := ElementFound(b, off);
      var rest := ChildrenFound(b, next);
      es := [e] + rest;
      EncodedCons(e, rest);
      SitsBefore(b, off, Encoded(e));
    }
  }

  lemma EncodedCons(e: Element, rest: seq<Element>)
    requires WellFormed(e) && AllWellFormed(rest)
    ensures AllWellFormed([e] + rest) && EncodedAll([e] + rest) == Encoded(e) + EncodedAll(rest)
    ensures Tlvs([e] + rest) == [e.tlv] + Tlvs(rest)
  {
    hide Encoded, WellFormed;
    assert ([e] + rest)[1..] == rest;
  }

  lemma SitsBefore(b: Bytes, off: nat, x: Bytes)
    requires Sits(b, off, x)
    ensures off + |x| <= |b| && b[off..] == x + b[off + |x|..]
  {
    assert b[off..] == b[off..off + |x|] + b[off + |x|..];
  }

  lemma {:induction false} EndsAtOrAfter(b: Bytes, off: nat)
    ensures Children(b, off).Some? ==> off <= Children(b, off).value.1 && |b| <= Children(b, off).value.1
    decreases |b| - off
  {
    if off < |b| && DecodeTlv(b, off).Some? {
      EndsAtOrAfter(b, DecodeTlv(b, off).value.1);
    }
  }

  /** The reader returns a list without overrunning the buffer exactly when the buffer is a
      concatenation of well-formed elements, and then it returns those. */
  lemma ChildrenExactly(b: Bytes, ts: seq<Tlv>)
    ensures Children(b, 0) == Some((ts, |b|)) <==>
            exists es :: AllWellFormed(es) && b == EncodedAll(es) && ts == Tlvs(es)
  {
    hide Children, AllWellFormed, EncodedAll, Tlvs;
    assert b[0..] == b;
    if Children(b, 0) == Some((ts, |b|)) {
      var es := ChildrenFound(b, 0);
    }
    forall es | AllWellFormed(es) && b == EncodedAll(es) && ts == Tlvs(es)
      ensures Children(b, 0) == Some((ts, |b|))
    {
      ChildrenReadBack(b, 0, es);
    }
  }

  /** An element whose value is shorter than its length says. */
  ghost predicate CutValue(tail: Bytes, t: Tlv) {
    exists tw: Width, lw: Width, len: nat :: CutValueAs(tail, t, tw, lw, len)
  }

  ghost predicate CutValueAs(tail: Bytes, t: Tlv, tw: Width, lw: Width, len: nat) {
    && Fits(tw, t.typ) && Fits(lw, len) && |t.value| < len
    && tail == Number(tw, t.typ) + (Number(lw, len) + t.value)
  }

  /** An element that ends inside its length: a first byte that announces more, and not all of it. */
  ghost predicate CutLength(tail: Bytes, t: Tlv) {
    exists tw: Width, part: Bytes :: CutLengthAs(tail, t, tw, part)
  }

  ghost predicate CutLengthAs(tail: Bytes, t: Tlv, tw: Width, part: Bytes) {
    && Fits(tw, t.typ) && t.value == [] && tail == Number(tw, t.typ) + part
    && part != [] && part[0] != 255 && |part| < Size(WidthAt(part, 0))
  }

  lemma ReadSize(b: Bytes, off: nat)
    requires off < |b|
    ensures ReadVaru(b, off).1 == off + Size(WidthAt(b, off))
  {
    hide Or, ShiftLeft, ToUint32, At;
  }

  lemma SitsToEnd(b: Bytes, off: nat, tail: Bytes)
    requires off <= |b| && b[off..] == tail
    ensures Sits(b, off, tail) && off + |tail| == |b|
  {
  }

  /** A cut element is decoded without an error, and its end lies beyond the buffer. */
  lemma CutDecodes(b: Bytes, off: nat, t: Tlv)
    requires off <= |b| && (CutValue(b[off..], t) || CutLength(b[off..], t))
    ensures off < |b| && DecodeTlv(b, off).Some? && DecodeTlv(b, off).value.0 == t && DecodeTlv(b, off).value.1 > |b|
  {
    var tail := b[off..];
    SitsToEnd(b, off, tail);
    if CutValue(tail, t) {
      var tw: Width, lw: Width, len: nat :| CutValueAs(tail, t, tw, lw, len);
      CutValueDecodes(b, off, t, tw, lw, len);
    } else {
      var tw: Width, part: Bytes :| CutLengthAs(tail, t, tw, part);
      CutLengthDecodes(b, off, t, tw, part);
    }
  }

  lemma CutValueDecodes(b: Bytes, off: nat, t: Tlv, tw: Width, lw: Width, len: nat)
    requires off <= |b| && CutValueAs(b[off..], t, tw, lw, len)
    ensures off < |b| && DecodeTlv(b, off).Some? && DecodeTlv(b, off).value.0 == t && DecodeTlv(b, off).value.1 > |b|
  {
    var x, y := Number(tw, t.typ), Number(lw, len);
    NumberSize(tw, t.typ);
    NumberSize(lw, len);
    hide Number, Fits, DecodeTlv, ReadVaru, Sits;
    SitsToEnd(b, off, x + (y + t.value));
    SitsApart(b, off, x, y + t.value);
    SitsApart(b, off + |x|, y, t.value);
    NumberReadsBack(b, off, tw, t.typ);
    NumberReadsBack(b, off + |x|, lw, len);
    HeaderDecodes(b, off);
    CutAtEnd(b, off + |x| + |y|, len, t.value);
  }

  lemma CutAtEnd(b: Bytes, off: nat, len: nat, v: Bytes)
    requires Sits(b, off, v) && off + |v| == |b| && |v| < len
    ensures Subarray(b, off, off + len) == v
  {
  }

  lemma CutLengthDecodes(b: Bytes, off: nat, t: Tlv, tw: Width, part: Bytes)
    requires off <= |b| && CutLengthAs(b[off..], t, tw, part)
    ensures off < |b| && DecodeTlv(b, off).Some? && DecodeTlv(b, off).value.0 == t && DecodeTlv(b, off).value.1 > |b|
  {
    var x := Number(tw, t.typ);
    NumberSize(tw, t.typ);
    hide Number, Fits, DecodeTlv, ReadVaru, Sits;
    SitsToEnd(b, off, x + part);
    SitsApart(b, off, x, part);
    SitsAt(b, off + |x|, part, 0);
    NumberReadsBack(b, off, tw, t.typ);
    ReadSize(b, off + |x|);
    HeaderDecodes(b, off);
  }

  /** Whatever is decoded beyond the end of the buffer is a cut element. */
  lemma CutFound(b: Bytes, off: nat)
    requires off < |b| && DecodeTlv(b, off).Some? && DecodeTlv(b, off).value.1 > |b|
    ensures var t := DecodeTlv(b, off).value.0; CutValue(b[off..], t) || CutLength(b[off..], t)
  {
    hide ReadVaru, DecodeTlv, Number, Fits, Sits, Subarray, ReadTlv, WidthAt, Size, CutValue, CutLength;
    HeaderDecodes(b, off);
    var t := DecodeTlv(b, off).value.0;
    var lenOff := ReadVaru(b, off).1;
    NumberFound(b, off);
    ReadSize(b, lenOff);
    if ReadVaru(b, lenOff).1 <= |b| {
      CutValueFound(b, off, t);
    } else {
      CutLengthFound(b, off, t);
    }
  }

  lemma CutValueFound(b: Bytes, off: nat, t: Tlv)
    requires off < |b| && DecodeTlv(b, off).Some? && DecodeTlv(b, off).value.1 > |b| && DecodeTlv(b, off).value.0 == t
    requires ReadVaru(b, ReadVaru(b, off).1).1 <= |b|
    ensures CutValue(b[off..], t)
  {
    hide ReadVaru, DecodeTlv, Number, Fits, Sits, ReadTlv, WidthAt, Size;
    HeaderDecodes(b, off);
    var lenOff := ReadVaru(b, off).1;
    var (len, valOff) := ReadVaru(b, lenOff);
    NumberFound(b, off);
    NumberFound(b, lenOff);
    var tw, lw := WidthAt(b, off), WidthAt(b, lenOff);
    var x, y := Number(tw, t.typ), Number(lw, len);
    assert t.value == b[valOff..];
    SitsBefore(b, off, x);
    SitsBefore(b, lenOff, y);
    assert CutValueAs(b[off..], t, tw, lw, len);
  }

  lemma CutLengthFound(b: Bytes, off: nat, t: Tlv)
    requires off < |b| && DecodeTlv(b, off).Some? && DecodeTlv(b, off).value.0 == t
    requires ReadVaru(b, ReadVaru(b, off).1).1 > |b|
    ensures CutLength(b[off..], t)
  {
    hide ReadVaru, DecodeTlv, Number, Fits, Sits, ReadTlv;
    HeaderDecodes(b, off);
    var lenOff := ReadVaru(b, off).1;
    NumberFound(b, off);
    ReadSize(b, lenOff);
    var tw, part := WidthAt(b, off), b[lenOff..];
    SitsBefore(b, off, Number(tw, t.typ));
    assert part[0] == b[lenOff] && t.value == [];
    assert CutLengthAs(b[off..], t, tw, part);
  }

  /** Reading on after well-formed elements is reading what follows them. */
  lemma {:induction false} ChildrenAfter(b: Bytes, off: nat, es: seq<Element>, tail: Bytes)
    requires AllWellFormed(es) && off <= |b| && b[off..] == EncodedAll(es) + tail
    ensures |tail| <= |b| && b[|b| - |tail|..] == tail
    ensures Children(b, off) == Prepend(Tlvs(es), Children(b, |b| - |tail|))
    decreases |es|
  {
    hide DecodeTlv, ReadTlv, Encoded, WellFormed;
    if es == [] {
      assert EncodedAll(es) + tail == tail;
      PrependTwice([], [], Children(b, off));
      hide Children;
    } else {
      hide Children, AllWellFormed, EncodedAll, Tlvs;
      var e, rest := es[0], es[1..];
      FirstElement(es);
      assert Encoded(e) + EncodedAll(rest) + tail == Encoded(e) + (EncodedAll(rest) + tail);
      ElementReadsBack(b, off, e, EncodedAll(rest) + tail);
      ChildrenStep(b, off);
      ChildrenAfter(b, off + |Encoded(e)|, rest, tail);
      PrependTwice([e.tlv], Tlvs(rest), Children(b, |b| - |tail|));
    }
  }

  /** A list read beyond the end comes from well-formed elements and one cut element. */
  lemma {:induction false} OverrunFound(b: Bytes, off: nat) returns (es: seq<Element>, tail: Bytes, t: Tlv)
    requires off <= |b| && Children(b, off).Some? && Children(b, off).value.1 > |b|
    ensures AllWellFormed(es) && b[off..] == EncodedAll(es) + tail && (CutValue(tail, t) || CutLength(tail, t))
    ensures Children(b, off).value.0 == Tlvs(es) + [t]
    decreases |b| - off
  {
    hide Children, DecodeTlv, CutValue, CutLength, Encoded, WellFormed, Sits;
    ChildrenPast(b, off);
    ChildrenStep(b, off);
    var next := DecodeTlv(b, off).value.1;
    ChildrenPast(b, next);
    if next > |b| {
      es, tail, t := [], b[off..], DecodeTlv(b, off).value.0;
      CutFound(b, off);
      assert EncodedAll(es) + tail == tail && [t] + [] == [t];
    } else {
      hide AllWellFormed, EncodedAll, Tlvs;
      var e := ElementFound(b, off);
      var rest;
      rest, tail, t := OverrunFound(b, next);
      es := [e] + rest;
      EncodedCons(e, rest);
      SitsBefore(b, off, Encoded(e));
      Associate(Encoded(e), EncodedAll(rest), tail);
      Associate([e.tlv], Tlvs(rest), [t]);
    }
  }

  lemma ChildrenPast(b: Bytes, off: nat)
    ensures off >= |b| ==> Children(b, off) == Some(([], off))
  {
  }

  lemma Associate<T>(x: seq<T>, y: seq<T>, z: seq<T>)
    ensures x + (y + z) == x + y + z
  {
  }

  ghost predicate CutAfter(b: Bytes, ts: seq<Tlv>, es: seq<Element>, tail: Bytes, t: Tlv) {
    && AllWellFormed(es) && b == EncodedAll(es) + tail && (CutValue(tail, t) || CutLength(tail, t))
    && ts == Tlvs(es) + [t]
  }

  /** The reader returns a list whose last element lies beyond the buffer exactly when the buffer is
      a concatenation of well-formed elements and one that is cut in its value, which is then returned
      short, or in its length, which then gives an empty value. A buffer cut in a type makes it throw. */
  lemma OverrunExactly(b: Bytes, ts: seq<Tlv>)
    ensures (exists end: nat :: end > |b| && Children(b, 0) == Some((ts, end))) <==>
            exists es: seq<Element>, tail: Bytes, t: Tlv :: CutAfter(b, ts, es, tail, t)
  {
    hide Children, AllWellFormed, EncodedAll, Tlvs, CutValue, CutLength, DecodeTlv;
    assert b[0..] == b;
    if end: nat :| end > |b| && Children(b, 0) == Some((ts, end)) {
      var es, tail, t := OverrunFound(b, 0);
      assert CutAfter(b, ts, es, tail, t);
    }
    forall es: seq<Element>, tail: Bytes, t: Tlv | CutAfter(b, ts, es, tail, t)
      ensures exists end: nat :: end > |b| && Children(b, 0) == Some((ts, end))
    {
      CutIsReturned(b, ts, es, tail, t);
    }
  }

  lemma CutIsReturned(b: Bytes, ts: seq<Tlv>, es: seq<Element>, tail: Bytes, t: Tlv)
    requires CutAfter(b, ts, es, tail, t)
    ensures exists end: nat :: end > |b| && Children(b, 0) == Some((ts, end))
  {
    hide AllWellFormed, EncodedAll, Tlvs, CutValue, CutLength, DecodeTlv;
    assert b[0..] == b;
    ChildrenAfter(b, 0, es, tail);
    var off := |b| - |tail|;
    CutDecodes(b, off, t);
    ChildrenStep(b, off);
    var end := DecodeTlv(b, off).value.1;
    assert Children(b, end) == Some(([], end));
    hide Children;
    assert [t] + [] == [t];
    assert Children(b, 0) == Some((ts, end));
  }

  /** A last value that its length says is longer than the buffer is returned cut short, without an error. */
  lemma CutShort()
    ensures Children([8, 5, 1], 0) == Some(([Tlv(8, [1])], 7))
  {
    var b: Bytes := [8, 5, 1];
    ReadersAgree(b, 0);
    ReadersAgree(b, 1);
    assert ReadVaru(b, 0) == (8, 1) && ReadVaru(b, 1) == (5, 2);
    hide ReadVaru, ReadVarInt;
    assert Subarray(b, 2, 7) == [1];
    assert DecodeTlv(b, 0) == Some((Tlv(8, [1]), 7));
    assert Children(b, 7) == Some(([], 7));
    assert [Tlv(8, [1])] + [] == [Tlv(8, [1])];
  }

  function ShortestWidth(v: nat): Width {
    if v < 253 then One else if v <= 0xffff then Three else Five
  }

  /** What the writer writes is in the shortest width that holds the number. */
  lemma WritesShortest(v: nat, w: Width)
    requires Fits(w, v)
    ensures |Varu(v)| <= |Number(w, v)| == Size(w)
  {
  }

  predicate Writable(t: Tlv) {
    t.typ < 0x1_0000_0000 && |t.value| < 0x1_0000_0000
  }

  function Shortest(t: Tlv): Element {
    Element(ShortestWidth(t.typ), ShortestWidth(|t.value|), t)
  }

  lemma ShortestFits(v: nat)
    ensures var n := if v <= 0xffff then v else v % 0x1_0000_0000; var w := ShortestWidth(v);
            Fits(w, n) && Number(w, n) == Varu(v)
  {
    DigitsOfWord(v);
    hide BigEndian.Digits;
  }

  lemma DigitsOfWord(v: nat)
    ensures BigEndian.Digits(v % 0x1_0000_0000, 4) == BigEndian.Digits(v, 4)
  {
    hide BigEndian.Digits;
    var u, t := v % 0x1_0000_0000, v / 0x1_0000_0000;
    DigitBytes(v);
    DigitBytes(u);
    ShiftedQuotient(v, u, 1, 0x100_0000, t);
    ShiftedQuotient(v, u, 0x100, 0x1_0000, t);
    ShiftedQuotient(v, u, 0x1_0000, 0x100, t);
    ShiftedQuotient(v, u, 0x100_0000, 1, t);
  }

  /** What the writer puts into an array reads back as the numbers it was given, exactly below 2^32. */
  lemma VaruReadsBack(a: Bytes, v: nat, rest: Bytes)
    ensures ReadVaru(a + Varu(v) + rest, |a|) == (if v <= 0xffff then v else v % 0x1_0000_0000, |a| + |Varu(v)|)
    ensures ReadVaru(a + Varu(v) + rest, |a|).0 == v <==> v < 0x1_0000_0000
  {
    var n := if v <= 0xffff then v else v % 0x1_0000_0000;
    hide ReadVaru, Varu, Number, Size, Fits, ShortestWidth, Sits;
    ShortestFits(v);
    NumberSize(ShortestWidth(v), n);
    SitsMiddle(a, Varu(v), rest);
    NumberReadsBack(a + Varu(v) + rest, |a|, ShortestWidth(v), n);
  }

  lemma {:induction false} WrittenReadsBack(ts: seq<Tlv>)
    requires forall k :: 0 <= k < |ts| ==> Writable(ts[k])
    ensures Children(WireAll(ts), 0) == Some((ts, |WireAll(ts)|))
  {
    hide WireAll, Children, Writable, EncodedAll;
    var es := ShortestAll(ts);
    assert WireAll(ts)[0..] == WireAll(ts);
    ChildrenReadBack(WireAll(ts), 0, es);
  }

  lemma ShortestIsWire(t: Tlv)
    requires Writable(t)
    ensures WellFormed(Shortest(t)) && Encoded(Shortest(t)) == Wire(t)
  {
    ShortestFits(t.typ);
    ShortestFits(|t.value|);
    hide Varu, Number, Fits, ShortestWidth;
    assert Varu(t.typ) + (Varu(|t.value|) + t.value) == Varu(t.typ) + Varu(|t.value|) + t.value;
  }

  lemma {:induction false} ShortestAll(ts: seq<Tlv>) returns (es: seq<Element>)
    requires forall k :: 0 <= k < |ts| ==> Writable(ts[k])
    ensures AllWellFormed(es) && EncodedAll(es) == WireAll(ts) && Tlvs(es) == ts
  {
    if ts == [] {
      es := [];
    } else {
      var n := |ts| - 1;
      var t := ts[n];
      assert WireAll(ts) == WireAll(ts[..n]) + Wire(t);
      assert ts == ts[..n] + [t];
      hide Encoded, Wire, WellFormed, WireAll, Writable, EncodedAll, AllWellFormed, Tlvs;
      var init := ShortestAll(ts[..n]);
      ShortestIsWire(t);
      assert Shortest(t).tlv == t;
      hide Shortest;
      ElementAppended(init, Shortest(t));
      es := init + [Shortest(t)];
    }
  }

  lemma {:induction false} ElementAppended(es: seq<Element>, e: Element)
    requires AllWellFormed(es) && WellFormed(e)
    ensures AllWellFormed(es + [e]) && EncodedAll(es + [e]) == EncodedAll(es) + Encoded(e)
    ensures Tlvs(es + [e]) == Tlvs(es) + [e.tlv]
  {
    hide Encoded, WellFormed;
    if es == [] {
      assert es + [e] == [e] && [e][1..] == [];
      assert EncodedAll([e]) == Encoded(e) + [];
    } else {
      assert (es + [e])[1..] == es[1..] + [e];
      ElementAppended(es[1..], e);
    }
  }

  lemma {:induction false} ComponentsBelow(parts: seq<Bytes>)
    ensures forall k :: 0 <= k < |parts| ==> |parts[k]| <= |WireAll(Components(parts))|
  {
    if parts != [] {
      var n := |parts| - 1;
      ComponentsBelow(parts[..n]);
      assert parts == parts[..n] + [parts[n]];
      ComponentAppended(parts, n);
      assert parts[..n + 1] == parts;
      hide Varu, WireAll, Components;
    }
  }

  lemma FieldsWritable(parts: seq<Bytes>, nonce: Bytes)
    requires |nonce| == 4 && |WireAll(Components(parts))| < 0x1_0000_0000
    ensures var ts := InterestFields(parts, nonce); forall k :: 0 <= k < |ts| ==> Writable(ts[k])
    ensures var ts := Components(parts); forall k :: 0 <= k < |ts| ==> Writable(ts[k])
  {
    ComponentsBelow(parts);
    hide WireAll;
  }

  lemma Sizes(parts: seq<Bytes>, nonce: Bytes)
    requires |nonce| == 4
    ensures var body := WireAll(InterestFields(parts, nonce));
            |WireAll(Components(parts))| <= |body| <= |Interest(parts, nonce)|
  {
    var name := WireAll(Components(parts));
    BodyIs(parts, nonce, [0x07] + Varu(|name|) + name);
    OuterIs(WireAll(InterestFields(parts, nonce)));
    hide WireAll, Varu, Wire, Components, InterestFields;
  }

  /** The Interest reads back, level by level, as its name components and its four other fields, each
      level exactly filling its buffer. A JavaScript array has fewer than 2^32 elements. */
  lemma InterestReadsBack(parts: seq<Bytes>, nonce: Bytes)
    requires |nonce| == 4 && |Interest(parts, nonce)| < 0x1_0000_0000
    ensures var wire, fields := Interest(parts, nonce), InterestFields(parts, nonce);
            var body, name := WireAll(fields), fields[0].value;
            && Children(wire, 0) == Some(([Tlv(0x05, body)], |wire|))
            && ReadTlv(wire, 0) == Span(0x05, |wire| - |body|, |wire|) && wire[|wire| - |body|..] == body
            && Children(body, 0) == Some((fields, |body|))
            && Children(name, 0) == Some((Components(parts), |name|))
  {
    Sizes(parts, nonce);
    FieldsWritable(parts, nonce);
    var body := WireAll(InterestFields(parts, nonce));
    hide Wire, WireAll, Components, ReadTlv, Children;
    WrittenReadsBack(InterestFields(parts, nonce));
    WrittenReadsBack(Components(parts));
    OneReadsBack(Tlv(0x05, body));
  }

  lemma OneReadsBack(t: Tlv)
    requires Writable(t)
    ensures Children(Wire(t), 0) == Some(([t], |Wire(t)|))
    ensures |t.value| <= |Wire(t)| && Wire(t)[|Wire(t)| - |t.value|..] == t.value
    ensures ReadTlv(Wire(t), 0) == Span(t.typ, |Wire(t)| - |t.value|, |Wire(t)|)
  {
    var wire := Wire(t);
    ShortestIsWire(t);
    WireEnds(t);
    assert Shortest(t).tlv == t;
    hide Children, DecodeTlv, ReadTlv, Varu, Encoded, WellFormed, Wire;
    assert wire[0..] == wire && wire + [] == wire;
    hide Shortest;
    ElementReadsBack(wire, 0, Shortest(t), []);
    ChildrenPast(wire, |wire|);
    ChildrenStep(wire, 0);
    assert [t] + [] == [t];
  }

  lemma WireEnds(t: Tlv)
    ensures 0 < |Wire(t)| && |t.value| <= |Wire(t)| && Wire(t)[|Wire(t)| - |t.value|..] == t.value
  {
  }
}
