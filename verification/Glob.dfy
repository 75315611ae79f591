/** `glob_match`: the greedy wildcard matcher behind `face list`, against a declarative semantics. */
module Glob {
  import opened Prelude

  const STAR: char := '*'

  /** A pattern matches a string: '*' stands for any run of characters, every other character for itself. */
  predicate Matches(pattern: string, s: string)
    decreases |pattern| + |s|
  {
    if pattern == [] then s == []
    else if pattern[0] == STAR then Matches(pattern[1..], s) || (s != [] && Matches(pattern, s[1..]))
    else s != [] && s[0] == pattern[0] && Matches(pattern[1..], s[1..])
  }

  /** `pattern.split('*')`. */
  function Split(pattern: string): (parts: seq<string>)
    ensures parts != []
    ensures forall i :: 0 <= i < |parts| ==> STAR !in parts[i]
  {
    if pattern == [] then [""]
    else
      var rest := Split(pattern[1..]);
      if pattern[0] == STAR then [""] + rest else [[pattern[0]] + rest[0]] + rest[1..]
  }

  predicate OccursAt(piece: string, s: string, at: nat) {
    at + |piece| <= |s| && s[at..at + |piece|] == piece
  }

  /** What is left to match after a star: the pieces, in order and without overlap, the last one at the end. */
  ghost predicate Tail(pieces: seq<string>, s: string)
    requires pieces != []
  {
    if |pieces| == 1 then exists at: nat :: OccursAt(pieces[0], s, at) && at + |pieces[0]| == |s|
    else exists at: nat :: OccursAt(pieces[0], s, at) && Tail(pieces[1..], s[at + |pieces[0]|..])
  }

  lemma {:induction false} LiteralPrefix(prefix: string, pattern: string, s: string)
    requires STAR !in prefix
    ensures Matches(prefix + pattern, s) <==> OccursAt(prefix, s, 0) && Matches(pattern, s[|prefix|..])
  {
    if prefix == [] {
      assert prefix + pattern == pattern && s[0..] == s;
    } else {
      var whole := prefix + pattern;
      assert whole[0] == prefix[0] && whole[1..] == prefix[1..] + pattern;
      assert prefix[0] in prefix && forall c :: c in prefix[1..] ==> c in prefix;
      if s != [] && s[0] == prefix[0] {
        LiteralPrefix(prefix[1..], pattern, s[1..]);
        if |prefix| <= |s| {
          assert s[1..][|prefix| - 1..] == s[|prefix|..];
        }
        if OccursAt(prefix[1..], s[1..], 0) {
          assert s[0..|prefix|] == [s[0]] + s[1..][0..|prefix| - 1] == prefix;
        }
        if OccursAt(prefix, s, 0) {
          assert s[1..][0..|prefix| - 1] == s[0..|prefix|][1..] == prefix[1..];
        }
      } else if |prefix| <= |s| {
        assert s[0..|prefix|][0] == s[0];
      }
    }
  }

  /** A star may swallow any number of characters. */
  lemma {:induction false} StarSkips(pattern: string, s: string)
    requires pattern != [] && pattern[0] == STAR
    ensures Matches(pattern, s) <==> exists at: nat :: at <= |s| && Matches(pattern[1..], s[at..])
    decreases |s|
  {
    assert s[0..] == s;
    if s != [] {
      StarSkips(pattern, s[1..]);
      if Matches(pattern, s[1..]) {
        var at: nat :| at <= |s[1..]| && Matches(pattern[1..], s[1..][at..]);
        assert s[1..][at..] == s[at + 1..];
      }
      if !Matches(pattern[1..], s) && exists at: nat :: at <= |s| && Matches(pattern[1..], s[at..]) {
        var at: nat :| at <= |s| && Matches(pattern[1..], s[at..]);
        assert s[1..][at - 1..] == s[at..];
      }
    }
  }

  /** The pattern in terms of its pieces: the text before the first star, then the tail after it. */
  ghost predicate ByPieces(parts: seq<string>, s: string)
    requires parts != []
  {
    if |parts| == 1 then s == parts[0]
    else OccursAt(parts[0], s, 0) && Tail(parts[1..], s[|parts[0]|..])
  }

  function Join(parts: seq<string>): string
    requires parts != []
  {
    if |parts| == 1 then parts[0] else parts[0] + ([STAR] + Join(parts[1..]))
  }

  lemma {:induction false} JoinOfSplit(pattern: string)
    ensures Join(Split(pattern)) == pattern
  {
    if pattern != [] {
      JoinOfSplit(pattern[1..]);
      var rest := Split(pattern[1..]);
      if pattern[0] == STAR {
        assert ([""] + rest)[1..] == rest;
      } else {
        var parts := [[pattern[0]] + rest[0]] + rest[1..];
        assert parts[1..] == rest[1..];
      }
    }
  }

  lemma {:induction false} MatchesByPieces(parts: seq<string>, s: string)
    requires parts != [] && forall i :: 0 <= i < |parts| ==> STAR !in parts[i]
    ensures Matches(Join(parts), s) <==> ByPieces(parts, s)
    decreases |parts|
  {
    var head := parts[0];
    if |parts| == 1 {
      assert head + [] == head;
      LiteralPrefix(head, [], s);
      if OccursAt(head, s, 0) && s[|head|..] == [] {
        assert s == s[0..|head|];
      }
    } else {
      var after := [STAR] + Join(parts[1..]);
      LiteralPrefix(head, after, s);
      if OccursAt(head, s, 0) {
        TailMatches(parts[1..], s[|head|..]);
      }
    }
  }

  lemma {:induction false} TailMatches(pieces: seq<string>, s: string)
    requires pieces != [] && forall i :: 0 <= i < |pieces| ==> STAR !in pieces[i]
    ensures Matches([STAR] + Join(pieces), s) <==> Tail(pieces, s)
    decreases |pieces|
  {
    var pattern := [STAR] + Join(pieces);
    assert pattern[1..] == Join(pieces);
    StarSkips(pattern, s);
    forall at: nat | at <= |s|
      ensures Matches(Join(pieces), s[at..]) <==> TailAt(pieces, s, at)
    {
      PieceAt(pieces, s, at);
    }
    TailByPosition(pieces, s);
  }

  /** The first piece placed at `at`, the rest after it. */
  ghost predicate TailAt(pieces: seq<string>, s: string, at: nat)
    requires pieces != []
  {
    && OccursAt(pieces[0], s, at)
    && if |pieces| == 1 then at + |pieces[0]| == |s| else Tail(pieces[1..], s[at + |pieces[0]|..])
  }

  lemma TailByPosition(pieces: seq<string>, s: string)
    requires pieces != []
    ensures Tail(pieces, s) <==> exists at: nat :: at <= |s| && TailAt(pieces, s, at)
  {
    if Tail(pieces, s) {
      if |pieces| == 1 {
        var at: nat :| OccursAt(pieces[0], s, at) && at + |pieces[0]| == |s|;
        assert TailAt(pieces, s, at);
      } else {
        var at: nat :| OccursAt(pieces[0], s, at) && Tail(pieces[1..], s[at + |pieces[0]|..]);
        assert TailAt(pieces, s, at);
      }
    }
  }

  lemma {:induction false} PieceAt(pieces: seq<string>, s: string, at: nat)
    requires pieces != [] && at <= |s| && forall i :: 0 <= i < |pieces| ==> STAR !in pieces[i]
    ensures Matches(Join(pieces), s[at..]) <==> TailAt(pieces, s, at)
    decreases |pieces|, 0
  {
    var head, rest := pieces[0], s[at..];
    assert OccursAt(head, rest, 0) <==> OccursAt(head, s, at) by {
      if |head| <= |rest| {
        assert rest[0..|head|] == s[at..at + |head|];
      }
    }
    if OccursAt(head, s, at) {
      assert rest[|head|..] == s[at + |head|..];
    }
    if |pieces| == 1 {
      assert head + [] == head;
      LiteralPrefix(head, [], rest);
    } else {
      LiteralPrefix(head, [STAR] + Join(pieces[1..]), rest);
      if OccursAt(head, s, at) {
        TailMatches(pieces[1..], s[at + |head|..]);
      }
    }
  }

  /** More room in front never hurts: this is why taking the leftmost occurrence loses nothing. */
  lemma {:induction false} TailMonotone(pieces: seq<string>, s: string, from: nat, to: nat)
    requires pieces != [] && from <= to <= |s| && Tail(pieces, s[to..])
    ensures Tail(pieces, s[from..])
  {
    TailByPosition(pieces, s[to..]);
    var at: nat :| at <= |s[to..]| && TailAt(pieces, s[to..], at);
    var head, shifted := pieces[0], at + (to - from);
    assert s[from..][shifted..shifted + |head|] == s[to..][at..at + |head|];
    assert s[from..][shifted + |head|..] == s[to..][at + |head|..];
    assert TailAt(pieces, s[from..], shifted);
    TailByPosition(pieces, s[from..]);
  }

  /** `s.find(piece)`: the leftmost occurrence, if any. */
  method Find(s: string, piece: string) returns (r: Option<nat>)
    ensures r.Some? ==> OccursAt(piece, s, r.value) && forall k: nat :: k < r.value ==> !OccursAt(piece, s, k)
    ensures r.None? ==> forall k: nat :: !OccursAt(piece, s, k)
  {
    var at: nat := 0;
    while at + |piece| <= |s|
      invariant forall k: nat :: k < at ==> !OccursAt(piece, s, k)
    {
      if s[at..at + |piece|] == piece {
        return Some(at);
      }
      at := at + 1;
    }
    return None;
  }

  /** Greedy choice: after a star, placing the next piece leftmost decides the whole tail. */
  lemma LeftmostSuffices(pieces: seq<string>, s: string, at: nat)
    requires |pieces| >= 2
    requires OccursAt(pieces[0], s, at) && forall k: nat :: k < at ==> !OccursAt(pieces[0], s, k)
    ensures Tail(pieces, s) <==> Tail(pieces[1..], s[at + |pieces[0]|..])
  {
    if Tail(pieces, s) {
      var k: nat :| OccursAt(pieces[0], s, k) && Tail(pieces[1..], s[k + |pieces[0]|..]);
      TailMonotone(pieces[1..], s, at + |pieces[0]|, k + |pieces[0]|);
    }
  }

  /** An empty piece between two stars changes nothing. */
  lemma EmptyPiece(pieces: seq<string>, s: string)
    requires |pieces| >= 2 && pieces[0] == []
    ensures Tail(pieces, s) <==> Tail(pieces[1..], s)
  {
    assert s[0..] == s;
    LeftmostSuffices(pieces, s, 0);
  }

  predicate EndsWith(s: string, last: string) {
    |last| <= |s| && s[|s| - |last|..] == last
  }

  lemma LastPiece(last: string, s: string)
    ensures Tail([last], s) <==> EndsWith(s, last)
  {
    if EndsWith(s, last) {
      assert OccursAt(last, s, |s| - |last|);
      assert TailAt([last], s, |s| - |last|);
    }
    TailByPosition([last], s);
    if Tail([last], s) {
      var at: nat :| at <= |s| && TailAt([last], s, at);
      assert s[at..at + |last|] == s[|s| - |last|..];
    }
  }

  lemma SliceOfSlice(s: string, a: nat, b: nat)
    requires a + b <= |s|
    ensures s[a..][b..] == s[a + b..]
  {
  }

  /** The greedy search accepts exactly the strings the pattern matches. */
  method GlobMatch(pattern: string, s: string) returns (r: bool)
    ensures r <==> Matches(pattern, s)
  {
    var parts := Split(pattern);
    JoinOfSplit(pattern);
    MatchesByPieces(parts, s);
    if |parts| == 1 {
      return parts[0] == s;
    }
    var pos: nat := 0;
    var first := parts[0];
    if !(|first| <= |s| && s[..|first|] == first) {
      assert !OccursAt(first, s, 0);
      return false;
    }
    hide Matches, Split, Join, Tail;
    pos := pos + |first|;
    var last := parts[|parts| - 1];
    for k := 1 to |parts| - 1
      invariant pos <= |s|
      invariant Matches(pattern, s) <==> Tail(parts[k..], s[pos..])
    {
      var piece := parts[k];
      assert parts[k..][0] == piece && parts[k..][1..] == parts[k + 1..];
      if piece == [] {
        EmptyPiece(parts[k..], s[pos..]);
        continue;
      }
      var found := Find(s[pos..], piece);
      match found {
        case None => return false;
        case Some(idx) =>
          LeftmostSuffices(parts[k..], s[pos..], idx);
          SliceOfSlice(s, pos, idx + |piece|);
          pos := pos + (idx + |piece|);
      }
    }
    assert parts[|parts| - 1..] == [last];
    LastPiece(last, s[pos..]);
    if last == [] {
      return true;
    }
    return EndsWith(s[pos..], last) && |s| - pos >= |last|;
  }

  datatype Face = Face(id: nat, uri: string, localUri: string)

  /** The text before the first "://", or the whole text, is `want`. */
  ghost predicate HasScheme(uri: string, want: string) {
    || (uri == want && forall k: nat :: !OccursAt("://", uri, k))
    || (exists at: nat :: OccursAt("://", uri, at) && uri[..at] == want &&
                          forall k: nat :: k < at ==> !OccursAt("://", uri, k))
  }

  /** A face passes every filter that is given; the scheme is read from the remote URI unless it is empty. */
  ghost predicate Wanted(f: Face, scheme: Option<string>, remote: Option<string>, local: Option<string>) {
    && (scheme.Some? ==> HasScheme(if f.uri != [] then f.uri else f.localUri, scheme.value))
    && (remote.Some? ==> Matches(remote.value, f.uri))
    && (local.Some? ==> Matches(local.value, f.localUri))
  }

  ghost function Filtered(entries: seq<Face>, scheme: Option<string>, remote: Option<string>,
                          local: Option<string>): seq<Face> {
    if entries == [] then []
    else
      var f := entries[|entries| - 1];
      Filtered(entries[..|entries| - 1], scheme, remote, local) + if Wanted(f, scheme, remote, local) then [f] else []
  }

  method UriMatchesScheme(f: Face, want: string) returns (r: bool)
    ensures r <==> HasScheme(if f.uri != [] then f.uri else f.localUri, want)
  {
    var uri := if f.uri != [] then f.uri else f.localUri;
    var at := Find(uri, "://");
    match at {
      case None => r := uri == want;
      case Some(k) =>
        r := uri[..k] == want;
        assert OccursAt("://", uri, k);
    }
  }

  method Passes(f: Face, scheme: Option<string>, remote: Option<string>, local: Option<string>) returns (keep: bool)
    ensures keep <==> Wanted(f, scheme, remote, local)
  {
    hide HasScheme, Matches;
    keep := true;
    if scheme.Some? {
      keep := UriMatchesScheme(f, scheme.value);
    }
    if keep && remote.Some? {
      keep := GlobMatch(remote.value, f.uri);
    }
    if keep && local.Some? {
      keep := GlobMatch(local.value, f.localUri);
    }
  }

  /** The faces that pass, in order. */
  method FilterFaceList(entries: seq<Face>, scheme: Option<string>, remote: Option<string>, local: Option<string>)
    returns (r: seq<Face>)
    ensures r == Filtered(entries, scheme, remote, local)
  {
    r := [];
    hide Wanted;
    for k := 0 to |entries|
      invariant r == Filtered(entries[..k], scheme, remote, local)
    {
      assert entries[..k + 1][..k] == entries[..k];
      var f := entries[k];
      var keep := Passes(f, scheme, remote, local);
      if keep {
        r := r + [f];
      }
    }
    assert entries[..|entries|] == entries;
  }

  /** The faces kept are those wanted, each once and in the order of the list. */
  lemma {:induction false} FilteredExactly(entries: seq<Face>, scheme: Option<string>, remote: Option<string>,
                                           local: Option<string>) returns (from: seq<nat>)
    ensures var r := Filtered(entries, scheme, remote, local);
            && |from| == |r| && (forall k :: 0 <= k < |from| ==> from[k] < |entries| && r[k] == entries[from[k]])
            && (forall j, k :: 0 <= j < k < |from| ==> from[j] < from[k])
            && (forall i: nat :: i < |entries| ==> (i in from <==> Wanted(entries[i], scheme, remote, local)))
  {
    from := [];
    hide Wanted;
    if entries != [] {
      var n := |entries| - 1;
      from := FilteredExactly(entries[..n], scheme, remote, local);
      var r := Filtered(entries[..n], scheme, remote, local);
      if Wanted(entries[n], scheme, remote, local) {
        assert Filtered(entries, scheme, remote, local) == r + [entries[n]];
        from := from + [n];
      } else {
        assert Filtered(entries, scheme, remote, local) == r + [];
      }
      hide Filtered;
    }
  }
}
