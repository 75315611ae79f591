/** Decimal numerals: printing, zero padding and lexicographic order. */
module Decimal {
  import opened Prelude

  function Digit(d: nat): char
    requires d < 10
  {
    ('0' as int + d) as char
  }

  function Print(v: nat): (s: string)
    ensures s != []
  {
    if v < 10 then [Digit(v)] else Print(v / 10) + [Digit(v % 10)]
  }

  /** The last `width` digits, leading zeros included. */
  function Fixed(v: nat, width: nat): (s: string)
    ensures |s| == width
  {
    if width == 0 then [] else Fixed(v / 10, width - 1) + [Digit(v % 10)]
  }

  /** `{v:0width}`. */
  function Padded(v: nat, width: nat): string {
    var s := Print(v);
    if |s| >= width then s else seq(width - |s|, _ => '0') + s
  }

  function Power10(k: nat): nat {
    if k == 0 then 1 else 10 * Power10(k - 1)
  }

  lemma {:induction false} FixedZero(width: nat)
    ensures Fixed(0, width) == seq(width, _ => '0')
  {
    if width > 0 {
      FixedZero(width - 1);
    }
  }

  /** A number that fits is padded to exactly the width. */
  lemma {:induction false} PaddedIsFixed(v: nat, width: nat)
    requires 1 <= width && v < Power10(width)
    ensures |Print(v)| <= width && Padded(v, width) == Fixed(v, width)
  {
    if v < 10 {
      FixedZero(width - 1);
    } else {
      assert width > 1;
      PaddedIsFixed(v / 10, width - 1);
      var s, t := Print(v), Print(v / 10);
      if |s| < width {
        assert seq<char>(width - |s|, _ => '0') + s == seq<char>(width - |s|, _ => '0') + t + [Digit(v % 10)];
      }
    }
  }

  predicate LexLess(a: string, b: string) {
    b != [] && (a == [] || a[0] < b[0] || (a[0] == b[0] && LexLess(a[1..], b[1..])))
  }

  lemma {:induction false} LexConcat(a: string, b: string, x: string, y: string)
    requires |a| == |b|
    ensures LexLess(a + x, b + y) <==> LexLess(a, b) || (a == b && LexLess(x, y))
  {
    if a == [] {
      assert a + x == x && b + y == y;
    } else {
      assert (a + x)[1..] == a[1..] + x && (b + y)[1..] == b[1..] + y;
      LexConcat(a[1..], b[1..], x, y);
      if a[0] == b[0] && a[1..] == b[1..] {
        assert a == [a[0]] + a[1..] == b;
      }
    }
  }

  lemma {:induction false} LexIrreflexive(a: string)
    ensures !LexLess(a, a)
  {
    if a != [] {
      LexIrreflexive(a[1..]);
    }
  }

  /** On numerals of one width, lexicographic order is numeric order. */
  lemma {:induction false} FixedOrder(v: nat, w: nat, width: nat)
    requires v < Power10(width) && w < Power10(width)
    ensures LexLess(Fixed(v, width), Fixed(w, width)) <==> v < w
    ensures Fixed(v, width) == Fixed(w, width) <==> v == w
  {
    if width > 0 {
      FixedOrder(v / 10, w / 10, width - 1);
      var a, b := [Digit(v % 10)], [Digit(w % 10)];
      LexConcat(Fixed(v / 10, width - 1), Fixed(w / 10, width - 1), a, b);
      assert LexLess(a, b) <==> v % 10 < w % 10;
      var s, t := Fixed(v, width), Fixed(w, width);
      if s == t {
        assert s[..width - 1] == Fixed(v / 10, width - 1) && t[..width - 1] == Fixed(w / 10, width - 1);
        assert s[width - 1] == Digit(v % 10) && t[width - 1] == Digit(w % 10);
      }
    }
  }

  /** A fixed-width field followed by more text. */
  lemma FieldOrder(v: nat, w: nat, width: nat, x: string, y: string)
    requires v < Power10(width) && w < Power10(width)
    ensures LexLess(Fixed(v, width) + x, Fixed(w, width) + y) <==> v < w || (v == w && LexLess(x, y))
  {
    FixedOrder(v, w, width);
    LexConcat(Fixed(v, width), Fixed(w, width), x, y);
  }

  predicate IsDigit(c: char) {
    '0' <= c <= '9'
  }

  /** The value of a run of digits. */
  function Numeral(s: string): Option<nat> {
    if s == [] then Some(0)
    else
      var c := s[|s| - 1];
      match Numeral(s[..|s| - 1])
      case None => None
      case Some(v) => if IsDigit(c) then Some(v * 10 + (c as int - '0' as int)) else None
  }

  lemma {:induction false} PrintDigits(v: nat)
    ensures Numeral(Print(v)) == Some(v)
    ensures forall k :: 0 <= k < |Print(v)| ==> IsDigit(Print(v)[k])
  {
    var s := Print(v);
    if v < 10 {
      assert s[..0] == [];
    } else {
      PrintDigits(v / 10);
      assert s[..|s| - 1] == Print(v / 10);
    }
  }

  /** A fixed-width field reads back as its number. */
  lemma {:induction false} FixedReads(v: nat, width: nat)
    requires v < Power10(width)
    ensures Numeral(Fixed(v, width)) == Some(v)
  {
    if width > 0 {
      FixedReads(v / 10, width - 1);
      var s := Fixed(v, width);
      assert s[..|s| - 1] == Fixed(v / 10, width - 1);
    }
  }
}
