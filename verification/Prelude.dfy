/** Shared vocabulary: bytes, optional values and the few facts about sequences
    and sets that several components need. */
module Prelude {
  type byte = x: int | 0 <= x < 256

  type Bytes = seq<byte>

  datatype Option<+T> = None | Some(value: T)

  /** Whether `n` stays within a budget, if there is one. */
  predicate Within(n: nat, budget: Option<nat>) {
    budget.None? || n <= budget.value
  }

  /** Width of the source's `u64` and (64-bit) `usize`. */
  const TWO_64: nat := 0x1_0000_0000_0000_0000

  function Flatten<T>(parts: seq<seq<T>>): seq<T> {
    if parts == [] then [] else parts[0] + Flatten(parts[1..])
  }

  lemma {:induction false} FlattenAppend<T>(parts: seq<seq<T>>, last: seq<T>)
    ensures Flatten(parts + [last]) == Flatten(parts) + last
  {
    if parts == [] {
      assert parts + [last] == [last];
      assert Flatten([last]) == last + Flatten([]);
    } else {
      assert (parts + [last])[1..] == parts[1..] + [last];
      FlattenAppend(parts[1..], last);
    }
  }

  function Elems<T>(s: seq<T>): set<T> {
    if s == [] then {} else Elems(s[..|s| - 1]) + {s[|s| - 1]}
  }

  predicate NoRepeats<T(==)>(s: seq<T>) {
    s == [] || (s[|s| - 1] !in Elems(s[..|s| - 1]) && NoRepeats(s[..|s| - 1]))
  }

  lemma {:induction false} ElemsIn<T>(s: seq<T>, x: T)
    ensures x in Elems(s) <==> x in s
  {
    if s != [] {
      ElemsIn(s[..|s| - 1], x);
      assert s == s[..|s| - 1] + [s[|s| - 1]];
    }
  }

  lemma ElemsAppend<T>(s: seq<T>, x: T)
    ensures Elems(s + [x]) == Elems(s) + {x}
    ensures NoRepeats(s + [x]) <==> NoRepeats(s) && x !in Elems(s)
  {
    assert (s + [x])[..|s|] == s;
  }

  /** `order` lists every element of `s` exactly once: how a hash map is iterated. */
  ghost predicate Enumerates<T>(order: seq<T>, s: set<T>) {
    Elems(order) == s && NoRepeats(order)
  }

  lemma {:induction false} EnumerationLength<T>(order: seq<T>, s: set<T>)
    requires Enumerates(order, s)
    ensures |order| == |s|
  {
    if order != [] {
      var n := |order| - 1;
      EnumerationLength(order[..n], Elems(order[..n]));
    }
  }

  lemma {:induction false} SomeEnumeration<T>(s: set<T>) returns (order: seq<T>)
    ensures Enumerates(order, s)
  {
    if s == {} {
      order := [];
    } else {
      var x :| x in s;
      var rest := SomeEnumeration(s - {x});
      order := rest + [x];
      assert order[..|order| - 1] == rest;
    }
  }

  /** The elements of a set in whatever order iteration yields them. */
  method Listed<T(==)>(s: set<T>) returns (order: seq<T>)
    ensures Enumerates(order, s)
  {
    var left := s;
    order := [];
    assert NoRepeats(order) && Elems(order) == {};
    hide Elems, NoRepeats;
    while left != {}
      invariant NoRepeats(order) && Elems(order) !! left && Elems(order) + left == s
      decreases |left|
    {
      var x :| x in left;
      ElemsAppend(order, x);
      order := order + [x];
      left := left - {x};
    }
  }

  lemma {:induction false} NoRepeatsAt<T>(s: seq<T>, i: nat, j: nat)
    requires NoRepeats(s) && i < j < |s|
    ensures s[i] != s[j]
  {
    var n := |s| - 1;
    if j == n {
      assert s[..n][i] == s[i];
      ElemsIn(s[..n], s[i]);
    } else {
      NoRepeatsAt(s[..n], i, j);
    }
  }

  lemma {:induction false} AscendingNoRepeats(s: seq<nat>)
    requires forall i, j :: 0 <= i < j < |s| ==> s[i] < s[j]
    ensures NoRepeats(s)
  {
    if s != [] {
      AscendingNoRepeats(s[..|s| - 1]);
      ElemsIn(s[..|s| - 1], s[|s| - 1]);
    }
  }

  /** Quotient and remainder are unique. */
  lemma RemainderIs(n: int, k: int, q: int, r: int)
    requires 0 <= r < k && n == k * q + r
    ensures n / k == q && n % k == r
  {
    var d := n / k - q;
    assert n == k * (n / k) + n % k;
    assert k * d == r - n % k;
    assert d >= 1 ==> k * d >= k;
    assert d <= -1 ==> k * d <= -k;
  }
}
