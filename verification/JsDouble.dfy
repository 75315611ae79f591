/** Natural numbers as ECMAScript holds them: IEEE 754 doubles, with 53 significant bits. */
module JsDouble {
  import opened Prelude
  import opened JsNumber

  /** The distance between neighbouring doubles at `n`. */
  function Ulp(n: nat): (u: nat)
    ensures u > 0
  {
    if n < 0x20_0000_0000_0000 then 1 else 2 * Ulp(n / 2)
  }

  /** The nearest double, ties to even, before the check for overflow. */
  function Nearest(n: nat): nat {
    var u := Ulp(n);
    var q, r := n / u, n % u;
    if 2 * r < u || (2 * r == u && q % 2 == 0) then q * u else (q + 1) * u
  }

  /** A result of an addition: None stands for Infinity. */
  function Rounded(n: nat): Option<nat> {
    if Nearest(n) < Pow2(1024) then Some(Nearest(n)) else None
  }

  /** A double can hold `n`: it is a multiple of the distance between its neighbours. */
  predicate Exact(n: nat) {
    n % Ulp(n) == 0
  }

  lemma RoundingExactly(n: nat)
    ensures Nearest(n) == n <==> Exact(n)
  {
    var u := Ulp(n);
    var q, r := n / u, n % u;
    assert n == u * q + r && q * u == u * q && (q + 1) * u == u * q + u;
  }

  /** Dropping the lowest bit keeps a number exact. */
  lemma HalfIsExact(n: nat)
    requires Exact(n)
    ensures Exact(n / 2)
  {
    if n >= 0x20_0000_0000_0000 {
      var s := Ulp(n / 2);
      var q := n / (2 * s);
      assert n == (2 * s) * q;
      assert n / 2 == s * q + 0 by {
        assert (2 * s) * q == 2 * (s * q);
      }
      RemainderIs(n / 2, s, q, 0);
    }
  }

  lemma {:induction false} PrefixIsExact(n: nat, k: nat)
    requires Exact(n)
    ensures Exact(Halved(n, k))
  {
    if k > 0 {
      HalfIsExact(n);
      PrefixIsExact(n / 2, k - 1);
      hide Exact;
    }
  }

  /** A number of at most 53 significant bits is exact. */
  lemma {:induction false} FewBitsAreExact(q: nat, e: nat, n: nat)
    requires q <= 0x20_0000_0000_0000 && n == Pow2(e) * q
    ensures Exact(n)
  {
    if e == 0 {
      assert Pow2(0) * q == q;
      WordIsExact(n);
    } else {
      var h := Pow2(e - 1) * q;
      TwiceProduct(Pow2(e), Pow2(e - 1), q);
      hide Exact, Pow2;
      FewBitsAreExact(q, e - 1, h);
      DoubleIsExact(h);
    }
  }

  lemma WordIsExact(n: nat)
    requires n <= 0x20_0000_0000_0000
    ensures Exact(n)
  {
    if n == 0x20_0000_0000_0000 {
      assert Ulp(n / 2) == 1 && Ulp(n) == 2;
    }
  }

  /** Doubling keeps a number exact. */
  lemma DoubleIsExact(h: nat)
    requires Exact(h)
    ensures Exact(2 * h)
  {
    var n := 2 * h;
    if n < 0x20_0000_0000_0000 {
      WordIsExact(n);
    } else {
      assert n / 2 == h && Ulp(n) == 2 * Ulp(h);
      DoubleMultiple(h, Ulp(h), n, Ulp(n));
    }
  }

  lemma DoubleMultiple(h: nat, s: nat, n: nat, u: nat)
    requires 0 < s && h % s == 0 && n == 2 * h && u == 2 * s
    ensures n % u == 0
  {
    var q := h / s;
    assert h == s * q;
    TwiceProduct(u, s, q);
    RemainderIs(n, u, q, 0);
  }

  lemma {:induction false} UlpIsPower(n: nat) returns (e: nat)
    ensures Ulp(n) == Pow2(e) && n / Ulp(n) < 0x20_0000_0000_0000
  {
    if n < 0x20_0000_0000_0000 {
      e := 0;
    } else {
      var d := UlpIsPower(n / 2);
      e := d + 1;
      var s := Ulp(n / 2);
      assert n / (2 * s) <= n / 2 / s by {
        HalfQuotient(n, s);
      }
    }
  }

  lemma HalfQuotient(n: nat, s: nat)
    requires 0 < s
    ensures n / (2 * s) == n / 2 / s
  {
    var q, r := n / 2 / s, n / 2 % s;
    assert n / 2 == s * q + r;
    assert n == (2 * s) * q + (2 * r + n % 2) by {
      assert (2 * s) * q == 2 * (s * q);
    }
    RemainderIs(n, 2 * s, q, 2 * r + n % 2);
  }

  lemma NearestIsNeighbour(n: nat)
    ensures Nearest(n) in {Ulp(n) * (n / Ulp(n)), Ulp(n) * (n / Ulp(n) + 1)}
  {
    hide Ulp;
  }

  /** What rounding gives is exact. */
  lemma NearestIsExact(n: nat)
    ensures Exact(Nearest(n))
  {
    var e := UlpIsPower(n);
    NearestIsNeighbour(n);
    hide Exact, Ulp, Nearest, Pow2;
    FewBitsAreExact(n / Ulp(n), e, Ulp(n) * (n / Ulp(n)));
    FewBitsAreExact(n / Ulp(n) + 1, e, Ulp(n) * (n / Ulp(n) + 1));
  }

  lemma LowByteOff(n: nat, b: byte)
    ensures Halved(n * 256 + b, 8) == n
  {
    var x := n * 256 + b;
    assert Halved(x, 8) == Halved(x / 16, 4) by {
      FourHalves(x, 4);
    }
    FourHalves(x / 16, 0);
    hide Halved;
  }

  lemma FourHalves(x: nat, k: nat)
    ensures Halved(x, k + 4) == Halved(x / 16, k)
  {
    var a, b, c := x / 2, x / 4, x / 8;
    assert a / 2 == b && b / 2 == c && c / 2 == x / 16;
    assert Halved(a, k + 3) == Halved(b, k + 2) == Halved(c, k + 1);
  }

  lemma {:induction false} PowersAdd(a: nat, b: nat)
    ensures Pow2(a + b) == Pow2(a) * Pow2(b)
  {
    if a > 0 {
      PowersAdd(a - 1, b);
      assert Pow2(a + b) == 2 * (Pow2(a - 1) * Pow2(b));
    }
  }

  lemma Pow2Of53()
    ensures Pow2(53) == 0x20_0000_0000_0000
  {
    Powers();
    PowersAdd(24, 24);
    PowersAdd(5, 48);
    assert Pow2(5) == 32;
    hide Pow2;
  }

  lemma BelowInfinity(n: nat)
    requires n <= 0x20_0000_0000_0000
    ensures n < Pow2(1024)
  {
    hide Pow2;
    PowersAdd(971, 53);
    PowersAdd(1, 970);
    PowerOne();
    Pow2Of53();
  }

  lemma PowerOne()
    ensures Pow2(1) == 2
  {
    assert Pow2(0) == 1;
  }

  lemma SmallIsExact(n: nat)
    requires n < 0x20_0000_0000_0000
    ensures Exact(n) && n < Pow2(1024)
  {
    hide Pow2;
    BelowInfinity(n);
  }

  lemma RoundsDown()
    ensures Rounded(0x20_0000_0000_0001) == Some(0x20_0000_0000_0000)
  {
    hide Pow2;
    var n: nat := 0x20_0000_0000_0001;
    assert Ulp(n) == 2 by {
      assert n / 2 == 0x10_0000_0000_0000 && Ulp(n / 2) == 1;
    }
    assert Nearest(n) == 0x20_0000_0000_0000;
    BelowInfinity(0x20_0000_0000_0000);
  }

  lemma RoundedExactly(n: nat)
    ensures Rounded(n) == Some(n) <==> Exact(n) && n < Pow2(1024)
  {
    RoundingExactly(n);
    NearestIsExact(n);
    hide Exact, Nearest, Pow2;
  }

  lemma RoundedIsExact(n: nat)
    ensures Rounded(n).Some? ==> Exact(Rounded(n).value) && Rounded(n).value < Pow2(1024)
  {
    NearestIsExact(n);
    hide Exact, Nearest, Pow2;
  }

  /** Rounding goes to the nearer neighbour - `below` or one step up - and from halfway to the one that is
      an even multiple of the step. */
  lemma NearestIsClosest(n: nat, q: nat, r: nat, below: nat)
    requires below == Ulp(n) * q && n == below + r && r < Ulp(n)
    ensures 2 * r < Ulp(n) ==> Nearest(n) == below
    ensures 2 * r > Ulp(n) ==> Nearest(n) == below + Ulp(n)
    ensures 2 * r == Ulp(n) ==> Nearest(n) == if q % 2 == 0 then below else below + Ulp(n)
  {
    RemainderIs(n, Ulp(n), q, r);
    NextMultiple(Ulp(n), q);
    hide Ulp;
  }

  lemma NextMultiple(u: nat, q: nat)
    ensures q * u == u * q && (q + 1) * u == u * q + u
  {
  }
}
