/** `DataCleaner.normalize_text` (src/data_processor.py): collapse runs of
    spaces, cap runs of newlines at two, strip every line, drop the empty
    ones and strip the result. The UTF-8 encode/decode step is the identity
    on the strings modelled here. */
module DataCleaner {
  import opened Text

  /** `s` with every occurrence of `c` removed. */
  function Without(s: string, c: char): (r: string)
    ensures c !in r
    decreases |s|
  {
    if s == [] then []
    else if s[|s| - 1] == c then Without(s[..|s| - 1], c)
    else Without(s[..|s| - 1], c) + [s[|s| - 1]]
  }

  /** Positions listed in increasing order: each above the one before. */
  predicate Ascending(idx: seq<nat>) {
    forall j :: 0 < j < |idx| ==> idx[j - 1] < idx[j]
  }

  /** `r` is `s` read at the positions `idx`, one character per position. */
  predicate ReadsAt(s: string, r: string, idx: seq<nat>) {
    |r| == |idx| && forall j :: 0 <= j < |r| ==> idx[j] < |s| && r[j] == s[idx[j]]
  }

  /** Reading a prefix of `s` is reading `s`. */
  lemma ReadsAtPrefix(s: string, n: nat, r: string, idx: seq<nat>)
    requires n <= |s| && ReadsAt(s[..n], r, idx)
    ensures ReadsAt(s, r, idx)
  {
    forall j | 0 <= j < |r| ensures r[j] == s[idx[j]] {
      assert s[..n][idx[j]] == s[idx[j]];
    }
  }

  /** Reading one more position appends its character. */
  lemma ReadsAtAppend(s: string, r: string, idx: seq<nat>, n: nat)
    requires ReadsAt(s, r, idx) && n < |s|
    ensures ReadsAt(s, r + [s[n]], idx + [n])
  {
    var r', idx' := r + [s[n]], idx + [n];
    forall j | 0 <= j < |r'| ensures idx'[j] < |s| && r'[j] == s[idx'[j]] {
      if j < |r| {
        assert r'[j] == r[j] && idx'[j] == idx[j];
      }
    }
  }

  /** Position `k` of `s` is a space directly after a space. */
  predicate SpaceDropped(s: string, k: nat)
    requires k < |s|
  {
    k >= 1 && s[k] == ' ' && s[k - 1] == ' '
  }

  /** The positions of `s` that survive the space substitution, in order:
      exactly those that are not a space directly after a space. */
  function SpaceKept(s: string): (idx: seq<nat>)
    ensures Ascending(idx)
    ensures forall j :: 0 <= j < |idx| ==> idx[j] < |s|
    ensures forall k :: 0 <= k < |s| ==> (k in idx <==> !SpaceDropped(s, k))
    decreases |s|
  {
    if s == [] then []
    else
      var n := |s| - 1;
      var p := SpaceKept(s[..n]);
      assert forall k :: 0 <= k < n ==> SpaceDropped(s[..n], k) == SpaceDropped(s, k);
      if SpaceDropped(s, n) then p else p + [n]
  }

  /** `re.sub(r' +', ' ', s)`: each run of spaces shrinks to one space, that
      is, a space directly after a space disappears. Only spaces go, no two
      spaces stay adjacent, and the last character survives;
      `CollapseSpacesPositions` says which characters go. */
  function CollapseSpaces(s: string): (r: string)
    ensures NoAdjacent(r, ' ')
    ensures Without(r, ' ') == Without(s, ' ')
    ensures |r| <= |s| && (s != [] ==> r != [] && r[|r| - 1] == s[|s| - 1])
    decreases |s|
  {
    if |s| < 2 then s
    else
      var last := s[|s| - 1];
      var p := CollapseSpaces(s[..|s| - 1]);
      assert s[..|s| - 1][..|s| - 2] == s[..|s| - 2];
      if last == ' ' && s[|s| - 2] == ' ' then p
      else
        NoAdjacentConcat(p, [last], ' ');
        assert (p + [last])[..|p|] == p;
        p + [last]
  }

  /** The space substitution reads `s` at the positions `SpaceKept(s)`, in
      order: a character is dropped exactly when it is a space directly after
      a space, and every other character is kept (see `SpaceKept`). */
  lemma {:induction false} CollapseSpacesPositions(s: string)
    ensures ReadsAt(s, CollapseSpaces(s), SpaceKept(s))
    decreases |s|
  {
    if |s| == 1 {
      assert SpaceKept(s) == SpaceKept(s[..0]) + [0];
    } else if |s| >= 2 {
      var n := |s| - 1;
      CollapseSpacesPositions(s[..n]);
      var p, q := CollapseSpaces(s[..n]), SpaceKept(s[..n]);
      ReadsAtPrefix(s, n, p, q);
      if SpaceDropped(s, n) {
        assert CollapseSpaces(s) == p && SpaceKept(s) == q;
      } else {
        ReadsAtAppend(s, p, q, n);
        assert CollapseSpaces(s) == p + [s[n]] && SpaceKept(s) == q + [n];
      }
    }
  }

  /** No three newlines in a row. */
  predicate AtMostTwoNewlines(s: string) {
    forall i :: 0 <= i < |s| - 2 ==> !(s[i] == '\n' && s[i + 1] == '\n' && s[i + 2] == '\n')
  }

  /** `re.sub(r'\n{3,}', '\n\n', s)`: each run of three or more newlines
      shrinks to two, that is, a newline directly after two newlines
      disappears. The last two characters survive; the lemmas below show
      that no three newlines stay adjacent, that only newlines go and that
      no spaces become adjacent. */
  function CapNewlines(s: string): (r: string)
    ensures |r| <= |s| && (|s| < 2 ==> r == s)
    ensures |s| >= 2 ==> |r| >= 2 && r[|r| - 2] == s[|s| - 2] && r[|r| - 1] == s[|s| - 1]
    decreases |s|
  {
    if |s| < 3 then s
    else
      var last := s[|s| - 1];
      var p := CapNewlines(s[..|s| - 1]);
      assert |p| >= 2 && p[|p| - 1] == s[|s| - 2];
      if last == '\n' && s[|s| - 2] == '\n' && s[|s| - 3] == '\n' then p
      else
        assert (p + [last])[|p| - 1] == p[|p| - 1];
        p + [last]
  }

  /** Position `k` of `s` is a newline directly after two newlines. */
  predicate NewlineDropped(s: string, k: nat)
    requires k < |s|
  {
    k >= 2 && s[k] == '\n' && s[k - 1] == '\n' && s[k - 2] == '\n'
  }

  /** The positions of `s` that survive the newline substitution, in order:
      exactly those that are not a newline directly after two newlines. */
  function NewlineKept(s: string): (idx: seq<nat>)
    ensures Ascending(idx)
    ensures forall j :: 0 <= j < |idx| ==> idx[j] < |s|
    ensures forall k :: 0 <= k < |s| ==> (k in idx <==> !NewlineDropped(s, k))
    decreases |s|
  {
    if s == [] then []
    else
      var n := |s| - 1;
      var p := NewlineKept(s[..n]);
      assert forall k :: 0 <= k < n ==> NewlineDropped(s[..n], k) == NewlineDropped(s, k);
      if NewlineDropped(s, n) then p else p + [n]
  }

  /** The newline substitution reads `s` at the positions `NewlineKept(s)`,
      in order: a character is dropped exactly when it is a newline directly
      after two newlines, and every other character is kept (see
      `NewlineKept`). */
  lemma {:induction false} CapNewlinesPositions(s: string)
    ensures ReadsAt(s, CapNewlines(s), NewlineKept(s))
    decreases |s|
  {
    if s != [] {
      var n := |s| - 1;
      CapNewlinesPositions(s[..n]);
      var p, q := CapNewlines(s[..n]), NewlineKept(s[..n]);
      ReadsAtPrefix(s, n, p, q);
      if NewlineDropped(s, n) {
        assert CapNewlines(s) == p && NewlineKept(s) == q;
      } else {
        ReadsAtAppend(s, p, q, n);
        assert |s| < 3 ==> p == s[..n];
        assert CapNewlines(s) == p + [s[n]] && NewlineKept(s) == q + [n];
      }
    }
  }

  /** After capping, no three newlines are adjacent. */
  lemma {:induction false} CapNewlinesCaps(s: string)
    ensures AtMostTwoNewlines(CapNewlines(s))
    decreases |s|
  {
    if |s| >= 3 {
      var init := s[..|s| - 1];
      CapNewlinesCaps(init);
      var p := CapNewlines(init);
      assert p[|p| - 1] == s[|s| - 2] && p[|p| - 2] == s[|s| - 3];
      if !(s[|s| - 1] == '\n' && s[|s| - 2] == '\n' && s[|s| - 3] == '\n') {
        AppendKeepsAtMostTwo(p, s[|s| - 1]);
      }
    }
  }

  /** Capping removes newlines and nothing else. */
  lemma {:induction false} CapNewlinesOnlyNewlines(s: string)
    ensures Without(CapNewlines(s), '\n') == Without(s, '\n')
    decreases |s|
  {
    if |s| >= 3 {
      var init, last := s[..|s| - 1], s[|s| - 1];
      CapNewlinesOnlyNewlines(init);
      WithoutAppend(init, last, '\n');
      assert init + [last] == s;
      if !(last == '\n' && s[|s| - 2] == '\n' && s[|s| - 3] == '\n') {
        WithoutAppend(CapNewlines(init), last, '\n');
      }
    }
  }

  /** Capping makes no two spaces adjacent. */
  lemma {:induction false} CapNewlinesKeepsSpacing(s: string)
    requires NoAdjacent(s, ' ')
    ensures NoAdjacent(CapNewlines(s), ' ')
    decreases |s|
  {
    if |s| >= 3 {
      var init, last := s[..|s| - 1], s[|s| - 1];
      NoAdjacentSlice(s, ' ', 0, |s| - 1);
      CapNewlinesKeepsSpacing(init);
      if !(last == '\n' && s[|s| - 2] == '\n' && s[|s| - 3] == '\n') {
        NoAdjacentConcat(CapNewlines(init), [last], ' ');
      }
    }
  }

  /** A prefix keeps the cap on newlines. */
  lemma AtMostTwoPrefix(s: string, n: nat)
    requires n <= |s| && AtMostTwoNewlines(s)
    ensures AtMostTwoNewlines(s[..n])
  {
    var t := s[..n];
    forall i | 0 <= i < |t| - 2 ensures !(t[i] == '\n' && t[i + 1] == '\n' && t[i + 2] == '\n') {
      assert t[i] == s[i] && t[i + 1] == s[i + 1] && t[i + 2] == s[i + 2];
    }
  }

  /** Without two newlines in a row there are certainly not three. */
  lemma NoAdjacentCaps(s: string)
    requires NoAdjacent(s, '\n')
    ensures AtMostTwoNewlines(s)
  {
  }

  /** Removing `c` from a string extended by one character. */
  lemma WithoutAppend(p: string, x: char, c: char)
    ensures Without(p + [x], c) == if x == c then Without(p, c) else Without(p, c) + [x]
  {
    assert (p + [x])[..|p|] == p;
  }

  /** A character that does not complete three newlines keeps the cap. */
  lemma AppendKeepsAtMostTwo(p: string, x: char)
    requires AtMostTwoNewlines(p)
    requires |p| >= 2 ==> !(x == '\n' && p[|p| - 1] == '\n' && p[|p| - 2] == '\n')
    ensures AtMostTwoNewlines(p + [x])
  {
    var t := p + [x];
    forall i | 0 <= i < |t| - 2 ensures !(t[i] == '\n' && t[i + 1] == '\n' && t[i + 2] == '\n') {
      if i + 2 < |p| {
        assert t[i] == p[i] && t[i + 1] == p[i + 1] && t[i + 2] == p[i + 2];
      }
    }
  }

  /** `[line.strip() for line in lines]` followed by the filter `if line`. */
  function StripLines(lines: seq<string>): (r: seq<string>)
    ensures |r| <= |lines|
    ensures forall k :: 0 <= k < |r| ==> r[k] != [] && Stripped(r[k])
    decreases |lines|
  {
    if lines == [] then []
    else
      var line := Strip(lines[0]);
      (if line == [] then [] else [line]) + StripLines(lines[1..])
  }

  /** The positions, from `from` on, whose flag is set, in order. */
  function Marked(flags: seq<bool>, from: nat): (idx: seq<nat>)
    requires from <= |flags|
    ensures forall j :: 0 <= j < |idx| ==> from <= idx[j] < |flags|
    decreases |flags| - from
  {
    if from == |flags| then []
    else
      var rest := Marked(flags, from + 1);
      if flags[from] then [from] + rest else rest
  }

  /** The marked positions ascend, and a position from `from` on is marked
      exactly when its flag is set. */
  lemma {:induction false} MarkedIff(flags: seq<bool>, from: nat)
    requires from <= |flags|
    ensures Ascending(Marked(flags, from))
    ensures forall k :: from <= k < |flags| ==> (k in Marked(flags, from) <==> flags[k])
    decreases |flags| - from
  {
    if from < |flags| {
      MarkedIff(flags, from + 1);
      var rest := Marked(flags, from + 1);
      assert from !in rest;
      if flags[from] {
        var idx := [from] + rest;
        forall j | 0 < j < |idx| ensures idx[j - 1] < idx[j] {
          assert idx[j] == rest[j - 1];
          if j > 1 {
            assert idx[j - 1] == rest[j - 2];
          }
        }
      }
    }
  }

  /** Which lines are non-empty once stripped. */
  function NonBlank(lines: seq<string>): (flags: seq<bool>)
    ensures |flags| == |lines|
  {
    seq(|lines|, i requires 0 <= i < |lines| => Strip(lines[i]) != [])
  }

  /** The positions, from `from` on, of the lines that are non-empty once
      stripped, in order. */
  function KeptLines(lines: seq<string>, from: nat): seq<nat>
    requires from <= |lines|
  {
    Marked(NonBlank(lines), from)
  }

  lemma KeptLinesIff(lines: seq<string>)
    ensures Ascending(KeptLines(lines, 0))
    ensures forall k :: 0 <= k < |lines| ==> (k in KeptLines(lines, 0) <==> Strip(lines[k]) != [])
  {
    var flags := NonBlank(lines);
    MarkedIff(flags, 0);
    forall k | 0 <= k < |lines| ensures k in KeptLines(lines, 0) <==> Strip(lines[k]) != [] {
      assert flags[k] == (Strip(lines[k]) != []);
    }
  }

  /** `r` holds the stripped lines of `lines` at the positions `idx`. */
  predicate StrippedAt(lines: seq<string>, r: seq<string>, idx: seq<nat>) {
    |r| == |idx| && forall j :: 0 <= j < |r| ==> idx[j] < |lines| && r[j] == Strip(lines[idx[j]])
  }

  lemma StrippedAtCons(lines: seq<string>, r: seq<string>, idx: seq<nat>, k: nat)
    requires StrippedAt(lines, r, idx) && k < |lines|
    ensures StrippedAt(lines, [Strip(lines[k])] + r, [k] + idx)
  {
    var r', idx' := [Strip(lines[k])] + r, [k] + idx;
    forall j | 0 <= j < |r'| ensures idx'[j] < |lines| && r'[j] == Strip(lines[idx'[j]]) {
      if j > 0 {
        assert r'[j] == r[j - 1] && idx'[j] == idx[j - 1];
      }
    }
  }

  lemma {:induction false} StripLinesFrom(lines: seq<string>, from: nat)
    requires from <= |lines|
    ensures StrippedAt(lines, StripLines(lines[from..]), KeptLines(lines, from))
    decreases |lines| - from
  {
    if from < |lines| {
      StripLinesFrom(lines, from + 1);
      var flags := NonBlank(lines);
      var r, idx := StripLines(lines[from + 1..]), Marked(flags, from + 1);
      var line := Strip(lines[from]);
      assert lines[from..][1..] == lines[from + 1..];
      assert lines[from..][0] == lines[from];
      assert StripLines(lines[from..]) == (if line == [] then [] else [line]) + r;
      assert flags[from] == (line != []);
      if line == [] {
        assert Marked(flags, from) == idx;
      } else {
        StrippedAtCons(lines, r, idx, from);
        assert Marked(flags, from) == [from] + idx;
      }
    }
  }

  /** The kept lines are exactly the stripped forms of the input lines that
      are non-empty once stripped, in input order: the `j`-th kept line is
      `Strip(lines[KeptLines(lines, 0)[j]])`. */
  lemma StripLinesPositions(lines: seq<string>)
    ensures StrippedAt(lines, StripLines(lines), KeptLines(lines, 0))
    ensures Ascending(KeptLines(lines, 0))
    ensures forall k :: 0 <= k < |lines| ==> (k in KeptLines(lines, 0) <==> Strip(lines[k]) != [])
  {
    KeptLinesIff(lines);
    StripLinesFrom(lines, 0);
    assert lines[0..] == lines;
  }

  /** The lines of the normalised text, before the final join. */
  function Lines(text: string): seq<string> {
    StripLines(Split(CapNewlines(CollapseSpaces(text)), '\n'))
  }

  /** `DataCleaner.normalize_text(text)`: empty for an empty text, and
      never with whitespace at either end. */
  function NormalizeText(text: string): (r: string)
    ensures text == [] ==> r == []
    ensures Stripped(r)
  {
    if text == [] then [] else Strip(Join(Lines(text), "\n"))
  }

  /** Lines as `normalize_text` leaves them: non-empty, stripped, free of
      newlines and of double spaces. */
  predicate CleanLines(lines: seq<string>) {
    forall k :: 0 <= k < |lines| ==>
      lines[k] != [] && Stripped(lines[k]) && '\n' !in lines[k] && NoAdjacent(lines[k], ' ')
  }

  /** Stripping takes a slice, so it adds no character and no adjacency. */
  lemma StripKeeps(s: string)
    ensures '\n' !in s ==> '\n' !in Strip(s)
    ensures NoAdjacent(s, ' ') ==> NoAdjacent(Strip(s), ' ')
  {
    var a := |s| - |LStrip(s)|;
    var r := Strip(s);
    SliceLacks(s, '\n', a, a + |r|);
    if NoAdjacent(s, ' ') {
      NoAdjacentSlice(s, ' ', a, a + |r|);
    }
  }

  /** The pieces of a split inherit "no adjacent `d`" from the whole string. */
  lemma {:induction false} SplitKeepsNoAdjacent(s: string, c: char, d: char)
    requires NoAdjacent(s, d)
    ensures forall k :: 0 <= k < |Split(s, c)| ==> NoAdjacent(Split(s, c)[k], d)
    decreases |s|
  {
    if s != [] {
      NoAdjacentSlice(s, d, 1, |s|);
      SplitKeepsNoAdjacent(s[1..], c, d);
      var rest := Split(s[1..], c);
      if s[0] != c {
        var first := [s[0]] + rest[0];
        assert rest[0] != [] ==> rest[0][0] == s[1];
        NoAdjacentConcat([s[0]], rest[0], d);
        assert Split(s, c) == [first] + rest[1..];
        forall k | 0 <= k < |Split(s, c)| ensures NoAdjacent(Split(s, c)[k], d) {
          if k > 0 { assert Split(s, c)[k] == rest[k]; }
        }
      } else {
        assert Split(s, c) == [""] + rest;
      }
    }
  }

  /** Each stripped line keeps "no newline" and "no double space". */
  lemma {:induction false} StripLinesKeeps(lines: seq<string>)
    requires forall k :: 0 <= k < |lines| ==> '\n' !in lines[k] && NoAdjacent(lines[k], ' ')
    ensures CleanLines(StripLines(lines))
    decreases |lines|
  {
    if lines != [] {
      var line := Strip(lines[0]);
      StripKeeps(lines[0]);
      assert forall k :: 0 <= k < |lines| - 1 ==> lines[1..][k] == lines[k + 1];
      StripLinesKeeps(lines[1..]);
      var rest := StripLines(lines[1..]);
      if line != [] {
        var r := [line] + rest;
        assert StripLines(lines) == r;
        forall k | 0 <= k < |r|
          ensures r[k] != [] && Stripped(r[k]) && '\n' !in r[k] && NoAdjacent(r[k], ' ')
        {
          if k > 0 {
            assert r[k] == rest[k - 1];
          }
        }
      }
    }
  }

  /** The lines of any text are clean. */
  lemma LinesClean(text: string)
    ensures CleanLines(Lines(text))
  {
    var s := CapNewlines(CollapseSpaces(text));
    CapNewlinesKeepsSpacing(CollapseSpaces(text));
    SplitKeepsNoAdjacent(s, '\n', ' ');
    StripLinesKeeps(Split(s, '\n'));
  }

  /** Joining clean lines with newlines gives a stripped text without empty
      lines and without double spaces. */
  lemma {:induction false} JoinClean(lines: seq<string>)
    requires CleanLines(lines)
    ensures var j := Join(lines, "\n");
      && Stripped(j) && NoAdjacent(j, ' ') && NoAdjacent(j, '\n')
      && (lines != [] ==> j != [] && j[0] == lines[0][0])
    decreases |lines|
  {
    if |lines| >= 2 {
      JoinClean(lines[1..]);
      var a, b := lines[0], Join(lines[1..], "\n");
      assert Join(lines, "\n") == a + "\n" + b;
      NoAdjacentConcat(a, "\n", ' ');
      NoAdjacentConcat(a + "\n", b, ' ');
      assert NoAdjacent(a, '\n') by {
        forall i | 0 <= i < |a| - 1 ensures a[i] != '\n' { assert a[i] in a; }
      }
      NoAdjacentConcat(a, "\n", '\n');
      NoAdjacentConcat(a + "\n", b, '\n');
    } else if |lines| == 1 {
      assert NoAdjacent(lines[0], '\n') by {
        forall i | 0 <= i < |lines[0]| - 1 ensures lines[0][i] != '\n' { assert lines[0][i] in lines[0]; }
      }
    }
  }

  /** Stripping clean lines again changes nothing. */
  lemma {:induction false} StripLinesOfClean(lines: seq<string>)
    requires CleanLines(lines)
    ensures StripLines(lines) == lines
    decreases |lines|
  {
    if lines != [] {
      StripLinesOfClean(lines[1..]);
      assert [lines[0]] + lines[1..] == lines;
    }
  }

  /** The final `strip()` of `normalize_text` never removes anything: the
      result is the newline-join of the clean lines. */
  lemma NormalizeTextIsJoin(text: string)
    requires text != []
    ensures NormalizeText(text) == Join(Lines(text), "\n")
  {
    LinesClean(text);
    JoinClean(Lines(text));
  }

  /** What `normalize_text` promises about its result: empty for an empty
      text, no leading or trailing whitespace, no two spaces in a row, no
      empty line (no two newlines in a row), and every line non-empty and
      stripped. */
  lemma NormalizeTextShape(text: string)
    ensures var r := NormalizeText(text);
      && (text == [] ==> r == [])
      && Stripped(r) && NoAdjacent(r, ' ') && NoAdjacent(r, '\n')
      && (r != [] ==> forall k :: 0 <= k < |Split(r, '\n')| ==>
            Split(r, '\n')[k] != [] && Stripped(Split(r, '\n')[k]))
  {
    if text != [] {
      var lines := Lines(text);
      LinesClean(text);
      JoinClean(lines);
      NormalizeTextIsJoin(text);
      if lines != [] {
        SplitJoin(lines, '\n');
      }
    }
  }

  /** Normalising twice is normalising once. */
  lemma NormalizeTextIdempotent(text: string)
    ensures NormalizeText(NormalizeText(text)) == NormalizeText(text)
  {
    var r := NormalizeText(text);
    if r != [] {
      var lines := Lines(text);
      LinesClean(text);
      JoinClean(lines);
      NormalizeTextIsJoin(text);
      assert r == Join(lines, "\n");
      assert lines != [];
      CollapseSpacesFixed(r);
      NoAdjacentCaps(r);
      CapNewlinesFixed(r);
      SplitJoin(lines, '\n');
      StripLinesOfClean(lines);
      assert Lines(r) == lines;
    }
  }

  /** A text with no two adjacent spaces is left alone by the space step. */
  lemma {:induction false} CollapseSpacesFixed(s: string)
    requires NoAdjacent(s, ' ')
    ensures CollapseSpaces(s) == s
    decreases |s|
  {
    if |s| >= 2 {
      NoAdjacentSlice(s, ' ', 0, |s| - 1);
      CollapseSpacesFixed(s[..|s| - 1]);
      assert s[..|s| - 1] + [s[|s| - 1]] == s;
    }
  }

  /** A text with no three newlines in a row is left alone by the newline
      step. */
  lemma {:induction false} CapNewlinesFixed(s: string)
    requires AtMostTwoNewlines(s)
    ensures CapNewlines(s) == s
    decreases |s|
  {
    if |s| >= 3 {
      var n := |s| - 1;
      var init := s[..n];
      assert !NewlineDropped(s, n) by {
        var i := n - 2;
        assert !(s[i] == '\n' && s[i + 1] == '\n' && s[i + 2] == '\n');
      }
      AtMostTwoPrefix(s, n);
      CapNewlinesFixed(init);
      assert CapNewlines(s) == init + [s[n]];
      assert init + [s[n]] == s;
    }
  }
  // ---------------------------------------------------------------------
  // Only whitespace changes
  // ---------------------------------------------------------------------

  /** Removing one whitespace character everywhere keeps the rest. */
  lemma {:induction false} NonSpaceWithout(s: string, c: char)
    requires IsSpace(c)
    ensures NonSpace(Without(s, c)) == NonSpace(s)
    decreases |s|
  {
    if s != [] {
      var init, last := s[..|s| - 1], s[|s| - 1];
      NonSpaceWithout(init, c);
      if last != c {
        assert (Without(init, c) + [last])[..|Without(init, c)|] == Without(init, c);
      }
    }
  }

  /** The non-whitespace characters of the lines, one line after another. */
  function NonSpaceAll(lines: seq<string>): string
    decreases |lines|
  {
    if lines == [] then [] else NonSpace(lines[0]) + NonSpaceAll(lines[1..])
  }

  /** A newline join adds only whitespace. */
  lemma {:induction false} NonSpaceJoin(lines: seq<string>)
    ensures NonSpace(Join(lines, "\n")) == NonSpaceAll(lines)
    decreases |lines|
  {
    if |lines| == 1 {
      assert lines[1..] == [];
    } else if |lines| >= 2 {
      NonSpaceJoin(lines[1..]);
      var a, b := lines[0], Join(lines[1..], "\n");
      NonSpaceAppend(a + "\n", b);
      NonSpaceAppend(a, "\n");
      assert NonSpace("\n") == [] by {
        assert "\n"[..0] == [];
      }
    }
  }

  /** Stripping the lines and dropping the empty ones keeps the
      non-whitespace characters. */
  lemma {:induction false} NonSpaceStripLines(lines: seq<string>)
    ensures NonSpaceAll(StripLines(lines)) == NonSpaceAll(lines)
    decreases |lines|
  {
    if lines != [] {
      NonSpaceStripLines(lines[1..]);
      var line, rest := Strip(lines[0]), StripLines(lines[1..]);
      NonSpaceStrip(lines[0]);
      if line != [] {
        assert ([line] + rest)[0] == line && ([line] + rest)[1..] == rest;
      } else {
        assert [] + rest == rest;
      }
    }
  }

  /** `normalize_text` changes whitespace only: the non-whitespace
      characters of the text all survive, in their order, and nothing else
      is added. */
  lemma NormalizeTextKeepsContent(text: string)
    ensures NonSpace(NormalizeText(text)) == NonSpace(text)
  {
    if text != [] {
      var c := CollapseSpaces(text);
      var s := CapNewlines(c);
      NonSpaceWithout(c, ' ');
      NonSpaceWithout(text, ' ');
      NonSpaceWithout(s, '\n');
      NonSpaceWithout(c, '\n');
      CapNewlinesOnlyNewlines(c);
      assert NonSpace(s) == NonSpace(text);
      JoinSplit(s, '\n');
      NonSpaceJoin(Split(s, '\n'));
      NonSpaceStripLines(Split(s, '\n'));
      NonSpaceJoin(Lines(text));
      NonSpaceStrip(Join(Lines(text), "\n"));
    }
  }
}
