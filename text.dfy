/** The string operations the converter uses: `split` on one character,
    `startswith`, `strip`, and `replace` of one character. */
module Text {

  /** `s.startswith(prefix)` */
  predicate StartsWith(s: string, prefix: string) {
    |prefix| <= |s| && s[..|prefix|] == prefix
  }

  /** The position of the first `d` in `s`. */
  function FirstIndex(s: string, d: char): (i: nat)
    requires d in s
    ensures i < |s| && s[i] == d && d !in s[..i]
  {
    if s[0] == d then 0
    else
      assert d in s[1..] by {
        var k :| 0 <= k < |s| && s[k] == d;
        assert s[1..][k - 1] == d;
      }
      var j := FirstIndex(s[1..], d);
      assert s[..j + 1] == [s[0]] + s[1..][..j];
      j + 1
  }

  /** The first separator after a separator-free prefix is the one that ends it. */
  lemma FirstIndexAfter(a: string, d: char, b: string)
    requires d !in a
    ensures d in a + [d] + b && FirstIndex(a + [d] + b, d) == |a|
  {
    assert (a + [d] + b)[|a|] == d;
  }

  /** `d.join(parts)` for a one-character separator. */
  function Join(parts: seq<string>, d: char): string {
    if |parts| == 0 then ""
    else if |parts| == 1 then parts[0]
    else parts[0] + [d] + Join(parts[1..], d)
  }

  lemma JoinCons(p: string, ps: seq<string>, d: char)
    requires |ps| >= 1
    ensures Join([p] + ps, d) == p + [d] + Join(ps, d)
  {
    assert ([p] + ps)[1..] == ps;
  }

  /** Joining one more piece appends the separator and the piece. */
  lemma {:induction false} JoinSnoc(ps: seq<string>, p: string, d: char)
    requires |ps| >= 1
    ensures Join(ps + [p], d) == Join(ps, d) + [d] + p
  {
    if |ps| > 1 {
      assert (ps + [p])[1..] == ps[1..] + [p];
      JoinSnoc(ps[1..], p, d);
    }
  }

  /** Joining pieces that avoid a character other than the separator gives
      a text that avoids it too. */
  lemma {:induction false} JoinAvoids(parts: seq<string>, d: char, c: char)
    requires c != d
    requires forall k :: 0 <= k < |parts| ==> c !in parts[k]
    ensures c !in Join(parts, d)
  {
    if |parts| > 1 {
      JoinAvoids(parts[1..], d, c);
      assert forall k :: 0 <= k < |parts| - 1 ==> parts[1..][k] == parts[k + 1];
    }
  }

  /** `s.split(d)` for a one-character separator: the pieces between the
      separators, one more piece than there are separators, empty pieces kept. */
  function Split(s: string, d: char): (parts: seq<string>)
    ensures |parts| >= 1
    ensures (|parts| == 1) == (d !in s)
    decreases |s|
  {
    if d !in s then [s]
    else
      var i := FirstIndex(s, d);
      [s[..i]] + Split(s[i + 1..], d)
  }

  /** The pieces hold no separator, and joining them gives back the text. */
  lemma SplitSpec(s: string, d: char)
    ensures forall k :: 0 <= k < |Split(s, d)| ==> d !in Split(s, d)[k]
    ensures Join(Split(s, d), d) == s
  {
    SplitPiecesClean(s, d);
    JoinOfSplit(s, d);
  }

  lemma {:induction false} SplitPiecesClean(s: string, d: char)
    ensures forall k :: 0 <= k < |Split(s, d)| ==> d !in Split(s, d)[k]
    decreases |s|
  {
    if d in s {
      var i := FirstIndex(s, d);
      SplitPiecesClean(s[i + 1..], d);
    }
  }

  lemma {:induction false} JoinOfSplit(s: string, d: char)
    ensures Join(Split(s, d), d) == s
    decreases |s|
  {
    if d in s {
      var i := FirstIndex(s, d);
      var rest := Split(s[i + 1..], d);
      JoinOfSplit(s[i + 1..], d);
      JoinCons(s[..i], rest, d);
      assert s == s[..i] + [d] + s[i + 1..];
    }
  }

  /** Splitting what was joined gives back the pieces, when no piece holds
      the separator. */
  lemma {:induction false} SplitOfJoin(parts: seq<string>, d: char)
    requires |parts| >= 1
    requires forall k :: 0 <= k < |parts| ==> d !in parts[k]
    ensures Split(Join(parts, d), d) == parts
  {
    if |parts| > 1 {
      var p := parts[0];
      var rest := Join(parts[1..], d);
      var s := Join(parts, d);
      assert s == p + [d] + rest;
      assert s[|p|] == d;
      var i := FirstIndex(s, d);
      assert s[..i] == p;
      assert s[i + 1..] == rest;
      SplitOfJoin(parts[1..], d);
      assert parts == [p] + parts[1..];
    }
  }

  /** Splitting a join whose pieces, all but the last, avoid the separator
      gives back those pieces followed by the pieces of the last. */
  lemma SplitOfJoinLast(parts: seq<string>, last: string, d: char)
    requires |parts| >= 1
    requires forall k :: 0 <= k < |parts| ==> d !in parts[k]
    ensures Split(Join(parts + [last], d), d) == parts + Split(last, d)
  {
    var q := Split(last, d);
    SplitSpec(last, d);
    JoinFlatten(parts, q, d);
    SplitOfJoin(parts + q, d);
  }

  /** Joining pieces and then a joined tail is joining them all. */
  lemma {:induction false} JoinFlatten(parts: seq<string>, q: seq<string>, d: char)
    requires |parts| >= 1 && |q| >= 1
    ensures Join(parts + [Join(q, d)], d) == Join(parts + q, d)
  {
    var p := parts[0];
    if |parts| == 1 {
      assert parts + [Join(q, d)] == [p] + [Join(q, d)];
      JoinCons(p, [Join(q, d)], d);
      assert parts + q == [p] + q;
      JoinCons(p, q, d);
    } else {
      var more := parts[1..];
      JoinFlatten(more, q, d);
      assert parts + [Join(q, d)] == [p] + (more + [Join(q, d)]);
      JoinCons(p, more + [Join(q, d)], d);
      assert parts + q == [p] + (more + q);
      JoinCons(p, more + q, d);
    }
  }

  /** There is one more piece than there are separators. */
  lemma {:induction false} SplitCount(s: string, d: char)
    ensures |Split(s, d)| == multiset(s)[d] + 1
    decreases |s|
  {
    if d in s {
      var i := FirstIndex(s, d);
      SplitCount(s[i + 1..], d);
      assert s == s[..i] + [d] + s[i + 1..];
      assert multiset(s) == multiset(s[..i]) + multiset([d]) + multiset(s[i + 1..]);
      assert multiset(s[..i])[d] == 0;
    }
  }

  /** A character that does not occur in `s` occurs in none of its pieces. */
  lemma {:induction false} SplitPartsAvoid(s: string, d: char, c: char)
    requires c !in s
    ensures forall k :: 0 <= k < |Split(s, d)| ==> c !in Split(s, d)[k]
    decreases |s|
  {
    if d in s {
      var i := FirstIndex(s, d);
      assert c !in s[..i] by {
        forall k | 0 <= k < i ensures s[..i][k] != c { assert s[..i][k] == s[k]; }
      }
      assert c !in s[i + 1..] by {
        var t := s[i + 1..];
        forall k | 0 <= k < |t| ensures t[k] != c { assert t[k] == s[i + 1 + k]; }
      }
      SplitPartsAvoid(s[i + 1..], d, c);
    }
  }

  /** The characters `str.strip()` removes: those for which Python's
      `str.isspace()` holds. */
  predicate IsSpace(c: char) {
    var n := c as int;
    n == 0x20 || 0x09 <= n <= 0x0D || 0x1C <= n <= 0x1F || n == 0x85 || n == 0xA0
    || n == 0x1680 || 0x2000 <= n <= 0x200A || n == 0x2028 || n == 0x2029
    || n == 0x202F || n == 0x205F || n == 0x3000
  }

  /** `s.lstrip()`: the longest suffix of `s` that does not start with a space. */
  function TrimStart(s: string): (r: string)
    ensures |r| <= |s| && r == s[|s| - |r|..]
    ensures forall k :: 0 <= k < |s| - |r| ==> IsSpace(s[k])
    ensures r == [] || !IsSpace(r[0])
  {
    if |s| > 0 && IsSpace(s[0]) then TrimStart(s[1..]) else s
  }

  /** `s.rstrip()`: the longest prefix of `s` that does not end with a space. */
  function TrimEnd(s: string): (r: string)
    ensures |r| <= |s| && r == s[..|r|]
    ensures forall k :: |r| <= k < |s| ==> IsSpace(s[k])
    ensures r == [] || !IsSpace(r[|r| - 1])
  {
    if |s| > 0 && IsSpace(s[|s| - 1]) then TrimEnd(s[..|s| - 1]) else s
  }

  /** `s.strip()`: the slice of `s` left once the whitespace at both ends is
      cut off; everything cut off is whitespace, and what is left neither
      starts nor ends with whitespace. */
  function Strip(s: string): (r: string)
    ensures r == [] || (!IsSpace(r[0]) && !IsSpace(r[|r| - 1]))
    ensures exists i :: CutAt(s, r, i)
  {
    var t := TrimStart(s);
    var r := TrimEnd(t);
    assert r != [] ==> r[0] == t[0];
    SuffixPrefixCut(s, t, r);
    r
  }

  /** A prefix `r` of a suffix `t` of `s` is cut out of `s` by whitespace
      when what `t` leaves off `s` and what `r` leaves off `t` are. */
  lemma SuffixPrefixCut(s: string, t: string, r: string)
    requires |t| <= |s| && t == s[|s| - |t|..] && (forall k :: 0 <= k < |s| - |t| ==> IsSpace(s[k]))
    requires |r| <= |t| && r == t[..|r|] && (forall k :: |r| <= k < |t| ==> IsSpace(t[k]))
    ensures CutAt(s, r, |s| - |t|)
  {
    var i := |s| - |t|;
    assert r == s[i..i + |r|];
    forall k | i + |r| <= k < |s| ensures IsSpace(s[k]) {
      assert s[k] == t[k - i];
    }
  }

  /** `r` is the slice of `s` starting at `i`, with only whitespace before
      and after it. */
  predicate CutAt(s: string, r: string, i: int) {
    && 0 <= i <= |s| - |r| && r == s[i..i + |r|]
    && (forall k :: 0 <= k < i ==> IsSpace(s[k]))
    && (forall k :: i + |r| <= k < |s| ==> IsSpace(s[k]))
  }

  /** Stripping never adds a piece to a split. */
  lemma StripFewerPieces(s: string, d: char)
    ensures |Split(Strip(s), d)| <= |Split(s, d)|
  {
    var r := Strip(s);
    var i :| CutAt(s, r, i);
    SlicePieces(s, r, i, d);
  }

  /** A slice splits into no more pieces than the whole. */
  lemma SlicePieces(s: string, r: string, i: nat, d: char)
    requires i + |r| <= |s| && r == s[i..i + |r|]
    ensures |Split(r, d)| <= |Split(s, d)|
  {
    SplitCount(s, d);
    SplitCount(r, d);
    SliceCount(s, r, i, d);
  }

  /** A slice holds no more of a character than the whole. */
  lemma SliceCount(s: string, r: string, i: nat, d: char)
    requires i + |r| <= |s| && r == s[i..i + |r|]
    ensures multiset(r)[d] <= multiset(s)[d]
  {
    var j := i + |r|;
    assert s == s[..i] + r + s[j..];
    assert multiset(s) == multiset(s[..i]) + multiset(r) + multiset(s[j..]);
  }

  /** A string without surrounding spaces is left as it is, so stripping
      twice is stripping once. */
  lemma StripUnpadded(s: string)
    requires s == [] || (!IsSpace(s[0]) && !IsSpace(s[|s| - 1]))
    ensures Strip(s) == s
  {
  }

  lemma StripIdempotent(s: string)
    ensures Strip(Strip(s)) == Strip(s)
  {
    StripUnpadded(Strip(s));
  }

  /** `s.replace(c, "")`: every `c` deleted, every other character kept in order. */
  function Remove(s: string, c: char): (r: string)
    ensures c !in r
  {
    if |s| == 0 then "" else (if s[0] == c then "" else [s[0]]) + Remove(s[1..], c)
  }

  /** What `Remove` keeps: every other character, as often as it occurs. */
  lemma {:induction false} RemoveKeeps(s: string, c: char)
    ensures multiset(Remove(s, c)) == multiset(s)[c := 0]
  {
    if |s| > 0 {
      RemoveKeeps(s[1..], c);
      assert s == [s[0]] + s[1..];
      assert multiset(s) == multiset([s[0]]) + multiset(s[1..]);
    }
  }

  /** A character absent from `s` is absent after removing another one. */
  lemma RemoveAvoids(s: string, c: char, x: char)
    requires x !in s
    ensures x !in Remove(s, c)
  {
    RemoveKeeps(s, c);
    assert multiset(s)[x] == 0;
  }

  /** Removing a character that does not occur changes nothing. */
  lemma {:induction false} RemoveAbsent(s: string, c: char)
    requires c !in s
    ensures Remove(s, c) == s
  {
    if |s| > 0 {
      assert c !in s[1..] by {
        forall k | 0 <= k < |s| - 1 ensures s[1..][k] != c { assert s[1..][k] == s[k + 1]; }
      }
      RemoveAbsent(s[1..], c);
    }
  }

  /** Removing from a concatenation removes from each part. */
  lemma {:induction false} RemoveConcat(a: string, b: string, c: char)
    ensures Remove(a + b, c) == Remove(a, c) + Remove(b, c)
  {
    if |a| > 0 {
      assert (a + b)[1..] == a[1..] + b;
      RemoveConcat(a[1..], b, c);
    } else {
      assert a + b == b;
    }
  }

  /** `s.replace(a, b)` for one-character `a` and `b`. */
  function ReplaceChar(s: string, a: char, b: char): (r: string)
    ensures |r| == |s|
  {
    if |s| == 0 then "" else [if s[0] == a then b else s[0]] + ReplaceChar(s[1..], a, b)
  }

  /** Every `a` becomes `b` and every other character stays where it is. */
  lemma {:induction false} ReplaceCharAt(s: string, a: char, b: char)
    ensures forall k :: 0 <= k < |s| ==> ReplaceChar(s, a, b)[k] == if s[k] == a then b else s[k]
  {
    if |s| > 0 {
      ReplaceCharAt(s[1..], a, b);
      var r := ReplaceChar(s, a, b);
      forall k | 1 <= k < |s| ensures r[k] == if s[k] == a then b else s[k] {
        assert r[k] == ReplaceChar(s[1..], a, b)[k - 1];
        assert s[k] == s[1..][k - 1];
      }
    }
  }
}
