/** String helpers of the Kotlin standard library that the modelled code relies on:
    `trim`, `indexOf`, `lastIndexOf`, `split` (which keeps empty pieces) and
    `joinToString`. */
module Text {

  /** Kotlin's `Char.isWhitespace()`: Java's `Character.isWhitespace` or
      `Character.isSpaceChar`, written out as the set of code points it accepts. */
  predicate IsWhitespace(c: char) {
    || c == ' ' || c == '\t' || c == '\n' || c == '\r'
    || c == '\U{000B}' || c == '\U{000C}'
    || ('\U{001C}' <= c <= '\U{001F}')
    || c == '\U{00A0}' || c == '\U{1680}'
    || ('\U{2000}' <= c <= '\U{200A}')
    || c == '\U{2028}' || c == '\U{2029}' || c == '\U{202F}' || c == '\U{205F}' || c == '\U{3000}'
  }

  /** `trimStart()`: drops the longest all-whitespace prefix. */
  function TrimStart(s: string): (r: string)
    ensures |r| <= |s| && r == s[|s| - |r|..]
    ensures forall k :: 0 <= k < |s| - |r| ==> IsWhitespace(s[k])
    ensures r != [] ==> !IsWhitespace(r[0])
  {
    if s != [] && IsWhitespace(s[0]) then TrimStart(s[1..]) else s
  }

  /** `trimEnd()`: drops the longest all-whitespace suffix. */
  function TrimEnd(s: string): (r: string)
    ensures |r| <= |s| && r == s[..|r|]
    ensures forall k :: |r| <= k < |s| ==> IsWhitespace(s[k])
    ensures r != [] ==> !IsWhitespace(r[|r| - 1])
  {
    if s != [] && IsWhitespace(s[|s| - 1]) then TrimEnd(s[..|s| - 1]) else s
  }

  /** Text with no whitespace at either end. */
  predicate Trimmed(s: string) {
    s == [] || (!IsWhitespace(s[0]) && !IsWhitespace(s[|s| - 1]))
  }

  /** s is r placed at offset i with only whitespace before and after it. */
  predicate PaddedAt(s: string, r: string, i: int) {
    && 0 <= i <= |s| - |r| && r == s[i..i + |r|]
    && (forall k :: 0 <= k < i ==> IsWhitespace(s[k]))
    && (forall k :: i + |r| <= k < |s| ==> IsWhitespace(s[k]))
  }

  /** `trim()`: the text without leading and trailing whitespace. */
  function Trim(s: string): (r: string)
    ensures |r| <= |s| && Trimmed(r)
    ensures r != [] ==> !IsWhitespace(r[0]) && !IsWhitespace(r[|r| - 1])
    ensures r == [] <==> forall k :: 0 <= k < |s| ==> IsWhitespace(s[k])
    ensures exists i :: PaddedAt(s, r, i)
  {
    var t := TrimStart(s);
    assert t == [] ==> forall k :: 0 <= k < |s| ==> IsWhitespace(s[k]);
    TrimEndPadded(s, t, TrimEnd(t));
    TrimEnd(t)
  }

  /** A prefix r of a suffix t of s, with only whitespace cut off around them, is a
      middle part of s padded by whitespace. */
  lemma TrimEndPadded(s: string, t: string, r: string)
    requires |t| <= |s| && t == s[|s| - |t|..]
    requires forall k :: 0 <= k < |s| - |t| ==> IsWhitespace(s[k])
    requires |r| <= |t| && r == t[..|r|]
    requires forall k :: |r| <= k < |t| ==> IsWhitespace(t[k])
    ensures PaddedAt(s, r, |s| - |t|)
  {
    var i := |s| - |t|;
    WhitespaceShift(s, t, i, |r|);
    PrefixOfSuffix(s, t, i, |r|);
  }

  /** Whitespace at the end of a suffix of s is whitespace at the end of s. */
  lemma WhitespaceShift(s: string, t: string, i: int, n: int)
    requires 0 <= i && i + |t| == |s| && t == s[i..] && 0 <= n <= |t|
    requires forall j :: n <= j < |t| ==> IsWhitespace(t[j])
    ensures forall k :: i + n <= k < |s| ==> IsWhitespace(s[k])
  {
    forall k | i + n <= k < |s|
      ensures IsWhitespace(s[k])
    {
      assert s[k] == t[k - i];
    }
  }

  lemma PrefixOfSuffix(s: string, t: string, i: int, n: int)
    requires 0 <= i && i + |t| == |s| && t == s[i..] && 0 <= n <= |t|
    ensures t[..n] == s[i..i + n]
  {
  }


  /** Text with no whitespace at either end is its own trim; in particular trimming twice
      changes nothing. */
  lemma {:induction false} TrimOfTrimmed(s: string)
    requires Trimmed(s)
    ensures Trim(s) == s
  {
    assert TrimStart(s) == s;
    assert TrimEnd(s) == s;
  }

  /** Trimming twice is trimming once. */
  lemma TrimTwice(s: string)
    ensures Trim(Trim(s)) == Trim(s)
  {
    TrimOfTrimmed(Trim(s));
  }

  /** `indexOf(c)`: the first position of c, or -1. */
  function IndexOf(s: string, c: char): (r: int)
    ensures -1 <= r < |s|
    ensures r >= 0 ==> s[r] == c
    ensures forall k :: 0 <= k < |s| && (r < 0 || k < r) ==> s[k] != c
  {
    if s == [] then -1
    else if s[0] == c then 0
    else
      var k := IndexOf(s[1..], c);
      if k < 0 then -1 else k + 1
  }

  /** IndexOf finds c exactly when c occurs. */
  lemma IndexOfFound(s: string, c: char)
    ensures IndexOf(s, c) >= 0 <==> c in s
  {
  }

  /** `lastIndexOf(c)`: the last position of c, or -1. */
  function LastIndexOf(s: string, c: char): (r: int)
    ensures -1 <= r < |s|
    ensures r >= 0 ==> s[r] == c
    ensures forall k :: 0 <= k < |s| && r < k ==> s[k] != c
  {
    if s == [] then -1
    else if s[|s| - 1] == c then |s| - 1
    else LastIndexOf(s[..|s| - 1], c)
  }

  /** LastIndexOf finds c exactly when c occurs. */
  lemma LastIndexOfFound(s: string, c: char)
    ensures LastIndexOf(s, c) >= 0 <==> c in s
  {
  }

  /** `split(c)` as Kotlin does it: every occurrence of c separates two pieces, and empty
      pieces (also at either end) are kept, so the result is never empty. */
  function Split(s: string, c: char): (r: seq<string>)
    ensures |r| >= 1
    decreases |s|
  {
    var i := IndexOf(s, c);
    if i < 0 then [s] else [s[..i]] + Split(s[i + 1..], c)
  }

  /** No piece of a split holds the separator. */
  lemma {:induction false} SplitPieces(s: string, c: char)
    ensures forall i :: 0 <= i < |Split(s, c)| ==> c !in Split(s, c)[i]
    decreases |s|
  {
    var i := IndexOf(s, c);
    if i >= 0 {
      SplitPieces(s[i + 1..], c);
    }
  }

  /** `joinToString(sep)`. */
  function Join(pieces: seq<string>, sep: string): string {
    if |pieces| == 0 then ""
    else if |pieces| == 1 then pieces[0]
    else pieces[0] + sep + Join(pieces[1..], sep)
  }

  /** Joining a piece in front of a non-empty list puts the separator between them. */
  lemma JoinCons(p: string, ps: seq<string>, sep: string)
    requires |ps| >= 1
    ensures Join([p] + ps, sep) == p + sep + Join(ps, sep)
  {
    assert ([p] + ps)[1..] == ps;
  }

  /** Joining the pieces of a split with the separator gives the text back. */
  lemma {:induction false} JoinSplit(s: string, c: char)
    ensures Join(Split(s, c), [c]) == s
    decreases |s|
  {
    var i := IndexOf(s, c);
    if i >= 0 {
      var head, rest := s[..i], s[i + 1..];
      var r := Split(rest, c);
      calc {
        Join(Split(s, c), [c]);
        Join([head] + r, [c]);
        { JoinCons(head, r, [c]); }
        head + [c] + Join(r, [c]);
        { JoinSplit(rest, c); }
        head + [c] + rest;
        { CutAt(s, i); }
        s;
      }
    }
  }

  /** A text is the part before position i, the character at i and the part after it. */
  lemma CutAt(s: string, i: nat)
    requires i < |s|
    ensures s[..i] + [s[i]] + s[i + 1..] == s
  {
  }

  /** Splitting a join of separator-free pieces gives the pieces back. */
  lemma {:induction false} SplitJoin(pieces: seq<string>, c: char)
    requires |pieces| >= 1
    requires forall i :: 0 <= i < |pieces| ==> c !in pieces[i]
    ensures Split(Join(pieces, [c]), c) == pieces
  {
    if |pieces| > 1 {
      var p, ps := pieces[0], pieces[1..];
      var rest := Join(ps, [c]);
      calc {
        Split(Join(pieces, [c]), c);
        { assert pieces == [p] + ps; JoinCons(p, ps, [c]); }
        Split(p + [c] + rest, c);
        { SplitAtFirst(p, rest, c); }
        [p] + Split(rest, c);
        { SplitJoin(ps, c); }
        [p] + ps;
        pieces;
      }
    }
  }

  /** The first separator of `p c rest`, when p has none, is the one after p. */
  lemma SplitAtFirst(p: string, rest: string, c: char)
    requires c !in p
    ensures Split(p + [c] + rest, c) == [p] + Split(rest, c)
  {
    var s := p + [c] + rest;
    assert s[|p|] == c;
    assert IndexOf(s, c) == |p|;
    assert s[..|p|] == p && s[|p| + 1..] == rest;
  }

  /** a + (b + c) == (a + b) + c, for the steps that regroup concatenations. */
  lemma AppendAssoc(a: string, b: string, c: string)
    ensures a + (b + c) == (a + b) + c
  {
  }

  /** Joining with one more piece at the end puts the separator before it. */
  lemma {:induction false} JoinSnoc(ps: seq<string>, x: string, sep: string)
    requires |ps| >= 1
    ensures Join(ps + [x], sep) == Join(ps, sep) + sep + x
    decreases |ps|
  {
    var p := ps[0];
    if |ps| == 1 {
      assert ps + [x] == [p] + [x];
      JoinCons(p, [x], sep);
    } else {
      var tail := ps[1..];
      calc {
        Join(ps + [x], sep);
        { assert ps + [x] == [p] + (tail + [x]); JoinCons(p, tail + [x], sep); }
        p + sep + Join(tail + [x], sep);
        { JoinSnoc(tail, x, sep); }
        p + sep + (Join(tail, sep) + sep + x);
        { AppendAssoc(p + sep, Join(tail, sep) + sep, x); AppendAssoc(p + sep, Join(tail, sep), sep); }
        p + sep + Join(tail, sep) + sep + x;
        { assert ps == [p] + tail; JoinCons(p, tail, sep); }
        Join(ps, sep) + sep + x;
      }
    }
  }

  /** The last c of `a c b`, when b has none, is the one after a. */
  lemma LastIndexAfter(a: string, b: string, c: char)
    requires c !in b
    ensures LastIndexOf(a + [c] + b, c) == |a|
  {
    var s := a + [c] + b;
    assert s[|a|] == c;
    assert s[|a| + 1..] == b;
  }

  /** Text without any whitespace. */
  predicate NoWhitespace(s: string) {
    forall k :: 0 <= k < |s| ==> !IsWhitespace(s[k])
  }

  /** A leading space is trimmed away from whitespace-free text. */
  lemma TrimSpaceBefore(x: string)
    requires NoWhitespace(x)
    ensures Trim(" " + x) == x
  {
    var s := " " + x;
    assert s[1..] == x;
    assert TrimStart(x) == x;
    assert TrimStart(s) == x;
    assert TrimEnd(x) == x;
  }

  /** `startsWith(prefix)`. */
  predicate StartsWith(s: string, prefix: string) {
    |prefix| <= |s| && s[..|prefix|] == prefix
  }

  /** `removePrefix(prefix)`: the text without the prefix when it starts with it, else unchanged. */
  function RemovePrefix(s: string, prefix: string): (r: string)
    ensures StartsWith(s, prefix) ==> s == prefix + r
    ensures !StartsWith(s, prefix) ==> r == s
  {
    if StartsWith(s, prefix) then s[|prefix|..] else s
  }

  /** `substringAfterLast(c)`: the text after the last c, or the whole text when there is none. */
  function SubstringAfterLast(s: string, c: char): (r: string)
    ensures |r| <= |s| && r == s[|s| - |r|..]
    ensures forall k :: 0 <= k < |r| ==> r[k] != c
    ensures r == s || s[|s| - |r| - 1] == c
  {
    var k := LastIndexOf(s, c);
    if k < 0 then s else s[k + 1..]
  }

  /** `replace(from, to)` on characters. */
  function ReplaceChar(s: string, from: char, to: char): (r: string)
    ensures |r| == |s|
    ensures forall k :: 0 <= k < |s| ==> r[k] == (if s[k] == from then to else s[k])
  {
    if s == [] then [] else [if s[0] == from then to else s[0]] + ReplaceChar(s[1..], from, to)
  }
}
