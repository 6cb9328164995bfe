/** String operations of the Python runtime that the loan pipeline relies on:
    whitespace stripping, ASCII lowercasing, substring search, `str.join`,
    `str.split` on one character, string ordering, and decimal formatting. */
module Text {

  // ---------------------------------------------------------------------
  // Whitespace and str.strip()
  // ---------------------------------------------------------------------

  /** The characters for which Python's `str.isspace()` holds; `str.strip()`
      with no argument removes exactly these. */
  predicate IsSpace(c: char) {
    c == ' ' || c == '\t' || c == '\n' || c == '\r' || c == '\U{B}' || c == '\U{C}'
    || ('\U{1C}' <= c <= '\U{1F}') || c == '\U{85}' || c == '\U{A0}' || c == '\U{1680}'
    || ('\U{2000}' <= c <= '\U{200A}') || c == '\U{2028}' || c == '\U{2029}'
    || c == '\U{202F}' || c == '\U{205F}' || c == '\U{3000}'
  }

  /** Neither end of `s` is whitespace. */
  predicate Stripped(s: string) {
    s == [] || (!IsSpace(s[0]) && !IsSpace(s[|s| - 1]))
  }

  /** `s.lstrip()`: the suffix left after removing leading whitespace. */
  function LStrip(s: string): (r: string)
    ensures |r| <= |s| && r == s[|s| - |r|..]
    ensures r == [] || !IsSpace(r[0])
    decreases |s|
  {
    if s != [] && IsSpace(s[0]) then LStrip(s[1..]) else s
  }

  /** `lstrip` removes whitespace only. */
  lemma {:induction false} LStripRemovesSpace(s: string)
    ensures forall i :: 0 <= i < |s| - |LStrip(s)| ==> IsSpace(s[i])
    decreases |s|
  {
    if s != [] && IsSpace(s[0]) {
      LStripRemovesSpace(s[1..]);
      forall i | 1 <= i < |s| - |LStrip(s)| ensures IsSpace(s[i]) {
        assert s[i] == s[1..][i - 1];
      }
    }
  }

  /** `s.rstrip()`: the prefix left after removing trailing whitespace. */
  function RStrip(s: string): (r: string)
    ensures |r| <= |s| && r == s[..|r|]
    ensures r == [] || !IsSpace(r[|r| - 1])
    decreases |s|
  {
    if s != [] && IsSpace(s[|s| - 1]) then RStrip(s[..|s| - 1]) else s
  }

  /** `rstrip` removes whitespace only. */
  lemma {:induction false} RStripRemovesSpace(s: string)
    ensures forall i :: |RStrip(s)| <= i < |s| ==> IsSpace(s[i])
    decreases |s|
  {
    if s != [] && IsSpace(s[|s| - 1]) {
      RStripRemovesSpace(s[..|s| - 1]);
    }
  }

  /** `s.strip()`: a contiguous slice of `s` with no whitespace at either end,
      and `s` itself when there was none to remove. */
  function Strip(s: string): (r: string)
    ensures Stripped(r)
    ensures |s| - |LStrip(s)| + |r| <= |s|
    ensures r == s[|s| - |LStrip(s)|..|s| - |LStrip(s)| + |r|]
    ensures Stripped(s) ==> r == s
  {
    var l := LStrip(s);
    var r := RStrip(l);
    PrefixOfSuffix(s, |s| - |l|, |r|);
    RStripStripped(l);
    if Stripped(s) then
      LStripNoop(s);
      RStripNoop(s);
      r
    else
      r
  }

  lemma RStripStripped(l: string)
    requires l == [] || !IsSpace(l[0])
    ensures Stripped(RStrip(l))
  {
    var r := RStrip(l);
    assert r != [] ==> r[0] == l[0];
  }

  /** `strip` removes whitespace only: every character outside the slice it
      keeps is whitespace. */
  lemma StripRemovesSpace(s: string)
    ensures var a := |s| - |LStrip(s)|;
      forall i :: 0 <= i < |s| && !(a <= i < a + |Strip(s)|) ==> IsSpace(s[i])
  {
    var l := LStrip(s);
    var a := |s| - |l|;
    LStripRemovesSpace(s);
    RStripRemovesSpace(l);
    forall i | a + |Strip(s)| <= i < |s| ensures IsSpace(s[i]) {
      assert s[i] == l[i - a];
    }
  }

  /** A slice holds no character that the whole string lacks. */
  lemma SliceLacks(s: string, c: char, a: int, b: int)
    requires 0 <= a <= b <= |s|
    ensures c !in s ==> c !in s[a..b]
  {
    if c in s[a..b] {
      var i :| 0 <= i < b - a && s[a..b][i] == c;
      assert s[a + i] == c;
    }
  }

  lemma PrefixOfSuffix(s: string, a: nat, k: nat)
    requires a + k <= |s|
    ensures s[a..][..k] == s[a..a + k]
  {
  }

  lemma LStripNoop(s: string)
    requires s != [] ==> !IsSpace(s[0])
    ensures LStrip(s) == s
  {
  }

  lemma RStripNoop(s: string)
    requires s != [] ==> !IsSpace(s[|s| - 1])
    ensures RStrip(s) == s
  {
  }

  /** The non-whitespace characters of `s`, in order: what a rewrite that
      only touches whitespace must leave as it was. */
  function NonSpace(s: string): (r: string)
    ensures |r| <= |s|
    ensures forall i :: 0 <= i < |r| ==> !IsSpace(r[i])
    decreases |s|
  {
    if s == [] then []
    else NonSpace(s[..|s| - 1]) + (if IsSpace(s[|s| - 1]) then [] else [s[|s| - 1]])
  }

  lemma {:induction false} NonSpaceAppend(a: string, b: string)
    ensures NonSpace(a + b) == NonSpace(a) + NonSpace(b)
    decreases |b|
  {
    if b == [] {
      assert a + b == a;
    } else {
      assert (a + b)[..|a + b| - 1] == a + b[..|b| - 1];
      NonSpaceAppend(a, b[..|b| - 1]);
    }
  }

  /** A run of whitespace has no non-whitespace characters. */
  lemma {:induction false} NonSpaceOfSpaces(s: string, lo: nat, hi: nat)
    requires lo <= hi <= |s|
    requires forall i :: lo <= i < hi ==> IsSpace(s[i])
    ensures NonSpace(s[lo..hi]) == []
    decreases hi - lo
  {
    if lo < hi {
      assert s[lo..hi][..hi - 1 - lo] == s[lo..hi - 1];
      NonSpaceOfSpaces(s, lo, hi - 1);
    }
  }

  lemma ThreeSlices(s: string, a: nat, b: nat)
    requires a <= b <= |s|
    ensures s == s[0..a] + s[a..b] + s[b..|s|]
  {
  }

  /** Dropping whitespace from both ends of `s` keeps its non-whitespace
      characters. */
  lemma NonSpaceMiddle(s: string, a: nat, b: nat)
    requires a <= b <= |s|
    requires forall i :: 0 <= i < |s| && !(a <= i < b) ==> IsSpace(s[i])
    ensures NonSpace(s[a..b]) == NonSpace(s)
  {
    NonSpaceOfSpaces(s, 0, a);
    NonSpaceOfSpaces(s, b, |s|);
    ThreeSlices(s, a, b);
    NonSpaceAppend(s[0..a] + s[a..b], s[b..|s|]);
    NonSpaceAppend(s[0..a], s[a..b]);
  }

  /** `strip` loses no character that is not whitespace. */
  lemma NonSpaceStrip(s: string)
    ensures NonSpace(Strip(s)) == NonSpace(s)
  {
    var a := |s| - |LStrip(s)|;
    var b := a + |Strip(s)|;
    assert Strip(s) == s[a..b];
    StripRemovesSpace(s);
    NonSpaceMiddle(s, a, b);
  }

  // ---------------------------------------------------------------------
  // Lowercasing
  // ---------------------------------------------------------------------

  /** `c.lower()` for the ASCII letters; every other character is kept. */
  function LowerChar(c: char): char {
    if 'A' <= c <= 'Z' then (c as int + 32) as char else c
  }

  /** `s.lower()`, character by character: no upper-case ASCII letter is
      left, each one becomes its lower-case letter 32 code points on, and
      every other character stays where it was. */
  function Lower(s: string): (r: string)
    ensures |r| == |s|
    ensures forall i :: 0 <= i < |r| ==> !('A' <= r[i] <= 'Z')
    ensures forall i :: 0 <= i < |s| && 'A' <= s[i] <= 'Z' ==> r[i] as int == s[i] as int + 32
    ensures forall i :: 0 <= i < |s| && !('A' <= s[i] <= 'Z') ==> r[i] == s[i]
  {
    seq(|s|, i requires 0 <= i < |s| => LowerChar(s[i]))
  }

  /** A string without upper-case ASCII letters is its own lowercase. */
  lemma LowerOfLowercase(s: string)
    requires forall i :: 0 <= i < |s| ==> !('A' <= s[i] <= 'Z')
    ensures Lower(s) == s
  {
  }

  /** Lowercasing works piecewise on a concatenation. */
  lemma LowerAppend(a: string, b: string)
    ensures Lower(a + b) == Lower(a) + Lower(b)
  {
  }

  /** Lowercasing a lowercase string changes nothing. */
  lemma LowerIdempotent(s: string)
    ensures Lower(Lower(s)) == Lower(s)
  {
  }

  // ---------------------------------------------------------------------
  // Substring search: Python's `p in s`
  // ---------------------------------------------------------------------

  /** `p` occurs in `s` starting at position `i`. */
  predicate OccursAt(s: string, p: string, i: int) {
    0 <= i <= |s| - |p| && s[i..i + |p|] == p
  }

  /** Python's `p in s`: some slice of `s` equals `p`. */
  predicate Contains(s: string, p: string) {
    exists i :: 0 <= i <= |s| - |p| && OccursAt(s, p, i)
  }

  /** `p in s` fails when some character of `p` never occurs in `s`. */
  lemma AbsentCharRulesOut(s: string, p: string, c: char)
    requires c in p && c !in s
    ensures !Contains(s, p)
  {
  }

  /** `p in x + y` fails when `y` is too short to hold the part of `p` from
      position `j` on and the character `p[j]` never occurs in `x`. */
  lemma AbsentCharInPrefixRulesOut(x: string, y: string, p: string, j: int)
    requires 0 <= j < |p| && |y| + j < |p| && p[j] !in x
    ensures !Contains(x + y, p)
  {
    var s := x + y;
    forall i | 0 <= i <= |s| - |p| ensures !OccursAt(s, p, i) {
      assert s[i..i + |p|][j] == s[i + j] == x[i + j];
    }
  }

  /** `s.rstrip(c)`: `s` without the run of `c` at its end. */
  function RStripChar(s: string, c: char): (r: string)
    ensures r <= s
    ensures r == [] || r[|r| - 1] != c
    ensures forall i :: |r| <= i < |s| ==> s[i] == c
    decreases |s|
  {
    if s != [] && s[|s| - 1] == c then RStripChar(s[..|s| - 1], c) else s
  }

  // ---------------------------------------------------------------------
  // sep.join(parts) and s.split(c)
  // ---------------------------------------------------------------------

  /** Concatenation is associative; stated once so that proofs about text
      built piece by piece can regroup it cheaply. */
  lemma AppendAssoc(a: string, b: string, c: string)
    ensures (a + b) + c == a + (b + c)
  {
  }

  /** A slice inside a prefix is the same slice of the whole. */
  lemma SliceOfPrefix(a: string, b: string, lo: int, hi: int)
    requires a <= b && 0 <= lo <= hi <= |a|
    ensures b[lo..hi] == a[lo..hi]
  {
    assert b[..|a|] == a;
    assert b[lo..hi] == b[..|a|][lo..hi];
  }

  /** A slice of the second operand, shifted past the first. */
  lemma SliceAfter(p: string, s: string, lo: int, hi: int)
    requires 0 <= lo <= hi <= |s|
    ensures (p + s)[|p| + lo..|p| + hi] == s[lo..hi]
  {
  }

  /** `h` stands right after `a` in any string that `a + (h + c)` begins. */
  lemma MiddleSliceOfPrefix(a: string, h: string, c: string, whole: string)
    requires a + (h + c) <= whole
    ensures |a| + |h| <= |whole| && whole[|a|..|a| + |h|] == h
  {
    var u := a + (h + c);
    assert u[|a|..|a| + |h|] == h;
    SliceOfPrefix(u, whole, |a|, |a| + |h|);
  }

  /** A slice that equals `h` still equals `h` once shifted past a prefix. */
  lemma ShiftedSlice(pre: string, s: string, o: int, h: string)
    requires 0 <= o && o + |h| <= |s| && s[o..o + |h|] == h
    ensures |pre| + o + |h| <= |pre + s| && (pre + s)[|pre| + o..|pre| + o + |h|] == h
  {
    SliceAfter(pre, s, o, o + |h|);
  }

  /** `s` is `a`, `x`, `b`, `y` and `c` written one after another: each of
      the five pieces stands at its offset. */
  predicate Filled(s: string, a: string, x: string, b: string, y: string, c: string) {
    var i, j := |a|, |a| + |x| + |b|;
    && |s| == j + |y| + |c|
    && s[..i] == a
    && s[i..i + |x|] == x
    && s[i + |x|..j] == b
    && s[j..j + |y|] == y
    && s[j + |y|..] == c
  }

  /** In `a + m + z`, `m` stands right after `a`. */
  lemma MiddleOf(a: string, m: string, z: string)
    ensures (a + m + z)[|a|..|a| + |m|] == m
  {
  }

  /** The pieces `x` and `y` of a filled string are fixed by `s` once the
      length of `x` is. */
  lemma FilledInjective(s: string, a: string, x: string, b: string, y: string, c: string, x': string, y': string)
    requires Filled(s, a, x, b, y, c) && Filled(s, a, x', b, y', c) && |x| == |x'|
    ensures x == x' && y == y'
  {
  }

  /** A slice of the last piece of a filled string, read off `s`. */
  lemma FilledTailSlice(s: string, a: string, x: string, b: string, y: string, c: string, lo: nat, hi: nat)
    requires Filled(s, a, x, b, y, c) && lo <= hi <= |c|
    ensures s[|s| - |c| + lo..|s| - |c| + hi] == c[lo..hi]
  {
    var k := |s| - |c|;
    assert s[k..] == c;
    assert s[k + lo..k + hi] == s[k..][lo..hi];
  }

  lemma FillSlices(a: string, x: string, b: string, y: string, c: string)
    ensures Filled(a + x + b + y + c, a, x, b, y, c)
  {
    var s := a + x + b + y + c;
    assert s == a + (x + (b + (y + c)));
    assert s == (a + x + b) + (y + c);
  }

  /** `x + y` ends with `y`. */
  lemma EndsWith(x: string, y: string)
    ensures (x + y)[|x + y| - |y|..] == y
  {
  }

  /** `x + y` ends with the last `n` characters of `y`. */
  lemma SuffixOfSuffix(x: string, y: string, n: nat)
    requires n <= |y|
    ensures (x + y)[|x + y| - n..] == y[|y| - n..]
  {
  }

  /** The parts written one after another (`"".join(parts)`). */
  function Concat(parts: seq<string>): string
    decreases |parts|
  {
    if parts == [] then "" else Concat(parts[..|parts| - 1]) + parts[|parts| - 1]
  }

  /** Writing one more part extends the text by exactly that part. */
  lemma ConcatAppend(parts: seq<string>, x: string)
    ensures Concat(parts + [x]) == Concat(parts) + x
  {
    assert (parts + [x])[..|parts|] == parts;
  }

  /** The text of the first `j` parts is a prefix of that of the first `k`. */
  lemma {:induction false} ConcatPrefix(parts: seq<string>, j: nat, k: nat)
    requires j <= k <= |parts|
    ensures Concat(parts[..j]) <= Concat(parts[..k])
    decreases k - j
  {
    if j < k {
      ConcatPrefix(parts, j, k - 1);
      assert parts[..k] == parts[..k - 1] + [parts[k - 1]];
      ConcatAppend(parts[..k - 1], parts[k - 1]);
    }
  }

  /** When part `i` begins with `h`, `h` stands right after the parts
      before it. */
  lemma ConcatPartAt(parts: seq<string>, i: nat, h: string, rest: string)
    requires i < |parts| && parts[i] == h + rest
    ensures var all, o := Concat(parts), |Concat(parts[..i])|;
      o + |h| <= |all| && all[o..o + |h|] == h
  {
    assert parts[..i + 1] == parts[..i] + [parts[i]];
    ConcatAppend(parts[..i], parts[i]);
    ConcatPrefix(parts, i + 1, |parts|);
    assert parts[..|parts|] == parts;
    MiddleSliceOfPrefix(Concat(parts[..i]), h, rest, Concat(parts));
  }

  /** The parts before a later part `j` reach past the whole of part `i`. */
  lemma ConcatOrdered(parts: seq<string>, i: nat, j: nat)
    requires i < j <= |parts|
    ensures |Concat(parts[..i])| + |parts[i]| <= |Concat(parts[..j])|
  {
    assert parts[..i + 1] == parts[..i] + [parts[i]];
    ConcatAppend(parts[..i], parts[i]);
    ConcatPrefix(parts, i + 1, j);
  }

  /** `sep.join(parts)`. */
  function Join(parts: seq<string>, sep: string): string
    decreases |parts|
  {
    if |parts| == 0 then ""
    else if |parts| == 1 then parts[0]
    else parts[0] + sep + Join(parts[1..], sep)
  }

  /** Where `parts[i]` begins inside `Join(parts, sep)`. */
  function JoinOffset(parts: seq<string>, sep: string, i: nat): nat
    requires i < |parts|
    decreases i
  {
    if i == 0 then 0 else |parts[0]| + |sep| + JoinOffset(parts[1..], sep, i - 1)
  }

  /** Every part sits, unchanged and in order, at its offset in the joined string. */
  lemma {:induction false} JoinPartAt(parts: seq<string>, sep: string, i: nat)
    requires i < |parts|
    ensures JoinOffset(parts, sep, i) + |parts[i]| <= |Join(parts, sep)|
    ensures Join(parts, sep)[JoinOffset(parts, sep, i)..JoinOffset(parts, sep, i) + |parts[i]|] == parts[i]
    decreases i
  {
    if |parts| == 1 {
    } else if i == 0 {
      assert Join(parts, sep) == parts[0] + (sep + Join(parts[1..], sep));
    } else {
      JoinPartAt(parts[1..], sep, i - 1);
      var o := JoinOffset(parts[1..], sep, i - 1);
      var pre := parts[0] + sep;
      assert Join(parts, sep) == pre + Join(parts[1..], sep);
      assert JoinOffset(parts, sep, i) == |pre| + o;
      assert (pre + Join(parts[1..], sep))[|pre| + o..|pre| + o + |parts[i]|]
          == Join(parts[1..], sep)[o..o + |parts[i]|];
    }
  }

  /** Between a part and the next stands the separator. */
  lemma {:induction false} JoinSepAt(parts: seq<string>, sep: string, i: nat)
    requires i + 1 < |parts|
    ensures var e := JoinOffset(parts, sep, i) + |parts[i]|;
      e + |sep| <= |Join(parts, sep)| && Join(parts, sep)[e..e + |sep|] == sep
    decreases i
  {
    var rest := Join(parts[1..], sep);
    if i == 0 {
      MiddleOf(parts[0], sep, rest);
    } else {
      JoinSepAt(parts[1..], sep, i - 1);
      var e := JoinOffset(parts[1..], sep, i - 1) + |parts[i]|;
      ShiftedSlice(parts[0] + sep, rest, e, sep);
      assert Join(parts, sep) == (parts[0] + sep) + rest;
    }
  }

  /** The next part begins one separator after the end of this one. */
  lemma {:induction false} JoinOffsetNext(parts: seq<string>, sep: string, i: nat)
    requires i + 1 < |parts|
    ensures JoinOffset(parts, sep, i + 1) == JoinOffset(parts, sep, i) + |parts[i]| + |sep|
    decreases i
  {
    if i > 0 {
      JoinOffsetNext(parts[1..], sep, i - 1);
    }
  }

  /** `s.split(c)`: the maximal pieces of `s` between occurrences of `c`. */
  function Split(s: string, c: char): (r: seq<string>)
    ensures |r| >= 1
    ensures r[0] <= s
    ensures forall k :: 0 <= k < |r| ==> c !in r[k]
    decreases |s|
  {
    if s == [] then [""]
    else
      var rest := Split(s[1..], c);
      if s[0] == c then [""] + rest
      else [[s[0]] + rest[0]] + rest[1..]
  }

  /** Joining the pieces of a split with the separator gives the string back. */
  lemma {:induction false} JoinSplit(s: string, c: char)
    ensures Join(Split(s, c), [c]) == s
    decreases |s|
  {
    if s != [] {
      JoinSplit(s[1..], c);
      var rest := Split(s[1..], c);
      if s[0] == c {
        assert Split(s, c) == [""] + rest;
        assert ([""] + rest)[1..] == rest;
      } else {
        var r := Split(s, c);
        assert r == [[s[0]] + rest[0]] + rest[1..];
        if |rest| > 1 {
          assert r[1..] == rest[1..];
          assert Join(rest, [c]) == rest[0] + [c] + Join(rest[1..], [c]);
        }
      }
    }
  }

  lemma {:induction false} SplitWithoutSeparator(a: string, c: char)
    requires c !in a
    ensures Split(a, c) == [a]
    decreases |a|
  {
    if a != [] {
      assert c !in a[1..];
      SplitWithoutSeparator(a[1..], c);
      assert [a[0]] + a[1..] == a;
    }
  }

  lemma {:induction false} SplitAfterPiece(a: string, b: string, c: char)
    requires c !in a
    ensures Split(a + [c] + b, c) == [a] + Split(b, c)
    decreases |a|
  {
    if a == [] {
      assert a + [c] + b == [c] + b;
      assert ([c] + b)[1..] == b;
    } else {
      assert c !in a[1..];
      SplitAfterPiece(a[1..], b, c);
      assert (a + [c] + b)[1..] == a[1..] + [c] + b;
      assert [a[0]] + a[1..] == a;
    }
  }

  /** Splitting a join of separator-free pieces gives the pieces back. */
  lemma {:induction false} SplitJoin(parts: seq<string>, c: char)
    requires |parts| >= 1
    requires forall k :: 0 <= k < |parts| ==> c !in parts[k]
    ensures Split(Join(parts, [c]), c) == parts
    decreases |parts|
  {
    if |parts| == 1 {
      SplitWithoutSeparator(parts[0], c);
    } else {
      SplitJoin(parts[1..], c);
      SplitAfterPiece(parts[0], Join(parts[1..], [c]), c);
      assert [parts[0]] + parts[1..] == parts;
    }
  }

  // ---------------------------------------------------------------------
  // Adjacent repeats of one character
  // ---------------------------------------------------------------------

  /** `s` never has `c` twice in a row. */
  predicate NoAdjacent(s: string, c: char) {
    forall i :: 0 <= i < |s| - 1 ==> !(s[i] == c && s[i + 1] == c)
  }

  lemma NoAdjacentConcat(a: string, b: string, c: char)
    requires NoAdjacent(a, c) && NoAdjacent(b, c)
    requires a == [] || b == [] || a[|a| - 1] != c || b[0] != c
    ensures NoAdjacent(a + b, c)
  {
    var s := a + b;
    forall i | 0 <= i < |s| - 1
      ensures !(s[i] == c && s[i + 1] == c)
    {
      if i < |a| - 1 {
        assert s[i] == a[i] && s[i + 1] == a[i + 1];
      } else if i >= |a| {
        assert s[i] == b[i - |a|] && s[i + 1] == b[i + 1 - |a|];
      }
    }
  }

  lemma NoAdjacentSlice(s: string, c: char, a: int, b: int)
    requires NoAdjacent(s, c) && 0 <= a <= b <= |s|
    ensures NoAdjacent(s[a..b], c)
  {
    var t := s[a..b];
    forall i | 0 <= i < |t| - 1
      ensures !(t[i] == c && t[i + 1] == c)
    {
      assert t[i] == s[a + i] && t[i + 1] == s[a + i + 1];
    }
  }

  // ---------------------------------------------------------------------
  // Ordering of strings (Python compares code point by code point)
  // ---------------------------------------------------------------------

  /** `a < b` on Python strings: lexicographic by code point, a proper
      prefix before the longer string. */
  predicate Less(a: string, b: string)
    decreases |a|
  {
    if |a| == 0 then |b| > 0
    else if |b| == 0 then false
    else if a[0] != b[0] then a[0] < b[0]
    else Less(a[1..], b[1..])
  }

  lemma {:induction false} LessIrreflexive(a: string)
    ensures !Less(a, a)
    decreases |a|
  {
    if |a| > 0 {
      LessIrreflexive(a[1..]);
    }
  }

  lemma {:induction false} LessTransitive(a: string, b: string, c: string)
    requires Less(a, b) && Less(b, c)
    ensures Less(a, c)
    decreases |a|
  {
    if |a| > 0 && a[0] == b[0] && b[0] == c[0] {
      LessTransitive(a[1..], b[1..], c[1..]);
    }
  }

  lemma {:induction false} LessTotal(a: string, b: string)
    requires a != b
    ensures Less(a, b) || Less(b, a)
    decreases |a|
  {
    if |a| > 0 && |b| > 0 && a[0] == b[0] {
      assert a == [a[0]] + a[1..] && b == [b[0]] + b[1..];
      LessTotal(a[1..], b[1..]);
    }
  }

  lemma LessAsymmetric(a: string, b: string)
    requires Less(a, b)
    ensures !Less(b, a)
  {
    if Less(b, a) {
      LessTransitive(a, b, a);
      LessIrreflexive(a);
    }
  }

  /** Ascending with no repeats, as `sorted` leaves the distinct keys of a dict. */
  predicate StrictlySorted(s: seq<string>) {
    forall i, j :: 0 <= i < j < |s| ==> Less(s[i], s[j])
  }

  /** Places `k` into a strictly ascending sequence, unless it is there already. */
  function InsertSorted(s: seq<string>, k: string): (r: seq<string>)
    requires StrictlySorted(s)
    ensures StrictlySorted(r)
    ensures forall x :: x in r <==> x in s || x == k
    decreases |s|
  {
    if s == [] then [k]
    else if k == s[0] then s
    else if Less(k, s[0]) then
      assert forall j :: 0 < j < |s| ==> Less(k, s[j]) by {
        forall j | 0 < j < |s| ensures Less(k, s[j]) { LessTransitive(k, s[0], s[j]); }
      }
      [k] + s
    else
      LessTotal(k, s[0]);
      var t := InsertSorted(s[1..], k);
      assert forall x :: x in s[1..] ==> Less(s[0], x);
      [s[0]] + t
  }

  /** A strictly sorted sequence is determined by its set of elements. */
  lemma {:induction false} StrictlySortedUnique(a: seq<string>, b: seq<string>)
    requires StrictlySorted(a) && StrictlySorted(b)
    requires forall x :: x in a <==> x in b
    ensures a == b
    decreases |a|
  {
    if a != [] {
      assert a[0] in b;
    }
    if b != [] {
      assert b[0] in a;
    }
    if a != [] {
      if a[0] != b[0] {
        var i :| 0 <= i < |a| && a[i] == b[0];
        var j :| 0 <= j < |b| && b[j] == a[0];
        assert i > 0 && j > 0;
        LessAsymmetric(a[0], b[0]);
        assert false;
      }
      forall x ensures x in a[1..] <==> x in b[1..] {
        if x in a[1..] {
          var i :| 1 <= i < |a| && a[i] == x;
          LessIrreflexive(x);
          assert x != b[0] && x in b;
          var j :| 0 <= j < |b| && b[j] == x;
          assert b[1..][j - 1] == x;
        }
        if x in b[1..] {
          var j :| 1 <= j < |b| && b[j] == x;
          LessIrreflexive(x);
          assert x != a[0] && x in a;
          var i :| 0 <= i < |a| && a[i] == x;
          assert a[1..][i - 1] == x;
        }
      }
      StrictlySortedUnique(a[1..], b[1..]);
      assert a == [a[0]] + a[1..] && b == [b[0]] + b[1..];
    }
  }

  // ---------------------------------------------------------------------
  // Decimal formatting: str(n) and f"{n:04d}"
  // ---------------------------------------------------------------------

  predicate IsDigit(c: char) {
    '0' <= c <= '9'
  }

  predicate AllDigits(s: string) {
    forall i :: 0 <= i < |s| ==> IsDigit(s[i])
  }

  function DigitChar(d: nat): (c: char)
    requires d < 10
    ensures IsDigit(c) && c as int - '0' as int == d
  {
    "0123456789"[d]
  }

  /** The decimal numeral of `n` without sign or leading zeros, as `str(n)`. */
  function Decimal(n: nat): (r: string)
    ensures |r| >= 1 && AllDigits(r)
    decreases n
  {
    if n < 10 then [DigitChar(n)] else Decimal(n / 10) + [DigitChar(n % 10)]
  }

  /** A positive number's numeral does not start with a zero. */
  lemma {:induction false} DecimalLeadingDigit(n: nat)
    requires n > 0
    ensures Decimal(n)[0] != '0'
    decreases n
  {
    if n >= 10 {
      DecimalLeadingDigit(n / 10);
      assert Decimal(n)[0] == Decimal(n / 10)[0];
    }
  }

  /** The number a string of decimal digits denotes. */
  function DigitsValue(s: string): nat
    requires AllDigits(s)
    decreases |s|
  {
    if s == [] then 0
    else DigitsValue(s[..|s| - 1]) * 10 + (s[|s| - 1] as int - '0' as int)
  }

  lemma {:induction false} DecimalRoundTrip(n: nat)
    ensures DigitsValue(Decimal(n)) == n
    decreases n
  {
    if n >= 10 {
      DecimalRoundTrip(n / 10);
      var d := Decimal(n);
      assert d[..|d| - 1] == Decimal(n / 10);
    }
  }

  /** `10` to the power `k`. */
  function Pow10(k: nat): (r: nat)
    ensures r >= 1
  {
    if k == 0 then 1 else 10 * Pow10(k - 1)
  }

  /** A number below `10^k` has at most `k` digits. */
  lemma {:induction false} DecimalLength(n: nat, k: nat)
    requires 1 <= k && n < Pow10(k)
    ensures |Decimal(n)| <= k
    decreases k
  {
    if n >= 10 {
      DecimalLength(n / 10, k - 1);
    }
  }

  function Zeros(k: nat): (r: string)
    ensures |r| == k && AllDigits(r)
  {
    seq(k, _ => '0')
  }

  /** The numeral `s` padded on the left with zeros to at least `width`
      characters, as the `0<width>d` format does for a non-negative value. */
  function PadLeft(s: string, width: nat): (r: string)
    requires AllDigits(s)
    ensures AllDigits(r)
    ensures |r| == if |s| >= width then |s| else width
  {
    if |s| >= width then s else Zeros(width - |s|) + s
  }

  lemma {:induction false} LeadingZerosValue(k: nat, s: string)
    requires AllDigits(s)
    ensures DigitsValue(Zeros(k) + s) == DigitsValue(s)
    decreases |s|, k
  {
    if s == [] {
      assert Zeros(k) + s == Zeros(k);
      if k > 0 {
        assert Zeros(k)[..k - 1] == Zeros(k - 1);
        LeadingZerosValue(k - 1, s);
        assert Zeros(k - 1) + s == Zeros(k - 1);
      }
    } else {
      var t := Zeros(k) + s;
      assert t[..|t| - 1] == Zeros(k) + s[..|s| - 1];
      LeadingZerosValue(k, s[..|s| - 1]);
    }
  }

  /** Padding with zeros does not change the value of a numeral. */
  lemma PadLeftValue(s: string, width: nat)
    requires AllDigits(s)
    ensures DigitsValue(PadLeft(s, width)) == DigitsValue(s)
  {
    if |s| < width {
      assert PadLeft(s, width) == Zeros(width - |s|) + s;
      LeadingZerosValue(width - |s|, s);
    } else {
      assert PadLeft(s, width) == s;
    }
  }
}
