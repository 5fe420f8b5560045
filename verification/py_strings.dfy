/** The Python `str` operations that the interface parser relies on, written
    out over `string` (a `seq<char>`): `splitlines()`, `split()` with no
    argument, `split(sep)` with a one-character separator, `strip()` and the
    substring test `p in s`. Each comes with the lemmas that say what it
    computes: an inverse, or a characterisation by positions in the text. */
module PyStrings {

  /** `str.isspace()` restricted to ASCII: the space, the controls 9-13
      (\t \n \v \f \r) and the separators 0x1c-0x1f. */
  predicate IsSpace(c: char) {
    c == ' ' || 9 <= c as int <= 13 || 28 <= c as int <= 31
  }

  /** The line boundaries of `str.splitlines()`: \n \v \f \r, the separators
      0x1c-0x1e, NEXT LINE (0x85), LINE SEPARATOR and PARAGRAPH SEPARATOR. */
  predicate IsLineBreak(c: char) {
    || 10 <= c as int <= 13
    || 28 <= c as int <= 30
    || c as int == 0x85
    || c as int == 0x2028
    || c as int == 0x2029
  }

  predicate AllSpace(s: string) {
    forall i | 0 <= i < |s| :: IsSpace(s[i])
  }

  predicate NoSpace(s: string) {
    forall i | 0 <= i < |s| :: !IsSpace(s[i])
  }

  predicate NoLineBreak(s: string) {
    forall i | 0 <= i < |s| :: !IsLineBreak(s[i])
  }

  /** `p` is found in `s` starting at index `i`. */
  predicate OccursAt(s: string, p: string, i: int) {
    0 <= i && i + |p| <= |s| && forall j | 0 <= j < |p| :: s[i + j] == p[j]
  }

  /** Python's substring test `p in s`. */
  predicate Contains(s: string, p: string) {
    exists i | 0 <= i <= |s| - |p| :: OccursAt(s, p, i)
  }

  /** The kinds of character a scan can stop at. */
  datatype Stop = AtLineBreak | AtSpace | AtChar(sep: char)

  predicate StopsAt(stop: Stop, c: char) {
    match stop
    case AtLineBreak => IsLineBreak(c)
    case AtSpace => IsSpace(c)
    case AtChar(sep) => c == sep
  }

  /** Index of the first character of `s` that `stop` stops at, or `|s|`
      when there is none. */
  function IndexWhere(s: string, stop: Stop): (n: nat)
    ensures n <= |s|
    ensures forall j | 0 <= j < n :: !StopsAt(stop, s[j])
    ensures n < |s| ==> StopsAt(stop, s[n])
  {
    IndexFrom(s, stop, 0)
  }

  /** The scan of IndexWhere, from index `i` on. */
  function IndexFrom(s: string, stop: Stop, i: nat): (n: nat)
    requires i <= |s|
    ensures i <= n <= |s|
    ensures forall j | i <= j < n :: !StopsAt(stop, s[j])
    ensures n < |s| ==> StopsAt(stop, s[n])
    decreases |s| - i
  {
    if i == |s| || StopsAt(stop, s[i]) then i else IndexFrom(s, stop, i + 1)
  }

  /** The two properties of IndexWhere's contract pin its result down. */
  lemma {:induction false} IndexWhereUnique(s: string, stop: Stop, m: nat)
    requires m <= |s|
    requires forall j | 0 <= j < m :: !StopsAt(stop, s[j])
    requires m < |s| ==> StopsAt(stop, s[m])
    ensures IndexWhere(s, stop) == m
  {
  }

  // ---------------------------------------------------------------------
  // splitlines()
  // ---------------------------------------------------------------------

  /** Width of the line boundary at the head of `s`: "\r\n" is a single
      boundary of two characters. */
  function BreakWidth(s: string): (w: nat)
    requires s != [] && IsLineBreak(s[0])
    ensures 1 <= w <= |s|
    ensures w == 2 <==> |s| >= 2 && s[0] == '\r' && s[1] == '\n'
  {
    if |s| >= 2 && s[0] == '\r' && s[1] == '\n' then 2 else 1
  }

  /** `s.splitlines()`: the lines of `s` without their boundaries. A final
      boundary does not open an empty last line, and "" has no lines. */
  function SplitLines(s: string): (lines: seq<string>)
    ensures forall k | 0 <= k < |lines| :: NoLineBreak(lines[k])
    ensures lines == [] <==> s == []
    decreases |s|
  {
    if s == [] then []
    else
      var n := IndexWhere(s, AtLineBreak);
      if n == |s| then [s]
      else [s[..n]] + SplitLines(s[n + BreakWidth(s[n..])..])
  }

  /** The text whose lines are `lines`, each ended by "\n" (the shape of a
      command's output). */
  function Terminated(lines: seq<string>): string {
    if lines == [] then "" else lines[0] + "\n" + Terminated(lines[1..])
  }

  /** splitlines() undoes Terminated. */
  lemma {:induction false} SplitLinesTerminated(lines: seq<string>)
    requires forall k | 0 <= k < |lines| :: NoLineBreak(lines[k])
    ensures SplitLines(Terminated(lines)) == lines
  {
    if lines != [] {
      var l, rest := lines[0], Terminated(lines[1..]);
      var s := Terminated(lines);
      assert s == l + "\n" + rest;
      assert s[|l|] == '\n';
      IndexWhereUnique(s, AtLineBreak, |l|);
      assert s[..|l|] == l;
      assert BreakWidth(s[|l|..]) == 1;
      assert s[|l| + 1..] == rest;
      SplitLinesTerminated(lines[1..]);
    }
  }

  /** An occurrence in a slice is an occurrence in the whole text. */
  lemma {:induction false} ContainsOfSlice(s: string, p: string, a: nat, b: nat)
    requires a <= b <= |s| && Contains(s[a..b], p)
    ensures Contains(s, p)
  {
    var i :| 0 <= i <= b - a - |p| && OccursAt(s[a..b], p, i);
    forall j | 0 <= j < |p| ensures s[a + i + j] == p[j] {
      assert s[a..b][i + j] == p[j];
    }
    assert OccursAt(s, p, a + i);
  }

  /** An occurrence of a pattern free of line boundaries does not cover a
      line boundary of the text. */
  lemma {:induction false} OccurrenceAvoidsBreak(s: string, p: string, i: nat)
    requires NoLineBreak(p) && OccursAt(s, p, i)
    ensures forall m | i <= m < i + |p| :: !IsLineBreak(s[m])
  {
    forall m | i <= m < i + |p| ensures !IsLineBreak(s[m]) {
      assert s[i + (m - i)] == p[m - i];
    }
  }

  /** An occurrence of a pattern free of line boundaries lies wholly before
      or wholly after the first boundary of `s`. */
  lemma {:induction false} ContainsAroundBreak(s: string, p: string, n: nat, w: nat)
    requires p != [] && NoLineBreak(p)
    requires n < |s| && n == IndexWhere(s, AtLineBreak) && w == BreakWidth(s[n..])
    requires Contains(s, p)
    ensures Contains(s[..n], p) || Contains(s[n + w..], p)
  {
    var i :| 0 <= i <= |s| - |p| && OccursAt(s, p, i);
    if i + |p| <= n {
      forall j | 0 <= j < |p| ensures s[..n][i + j] == p[j] {
        assert s[i + j] == p[j];
      }
      assert OccursAt(s[..n], p, i);
    } else {
      OccurrenceAvoidsBreak(s, p, i);
      var tail := s[n + w..];
      forall j | 0 <= j < |p| ensures tail[i - n - w + j] == p[j] {
        assert s[i + j] == p[j];
      }
      assert OccursAt(tail, p, i - n - w);
    }
  }

  /** The list comprehension `[line for line in lines if p in line]`: the
      lines that contain `p`, in their original order. */
  function LinesContaining(lines: seq<string>, p: string): (r: seq<string>)
    ensures |r| <= |lines|
    ensures forall k | 0 <= k < |r| :: r[k] in lines && Contains(r[k], p)
    ensures forall k | 0 <= k < |lines| :: Contains(lines[k], p) ==> lines[k] in r
  {
    if lines == [] then []
    else (if Contains(lines[0], p) then [lines[0]] else []) + LinesContaining(lines[1..], p)
  }

  /** The comprehension keeps the order of the lines: filtering two runs of
      lines one after the other is filtering each and concatenating. */
  lemma {:induction false} LinesContainingAppend(a: seq<string>, b: seq<string>, p: string)
    ensures LinesContaining(a + b, p) == LinesContaining(a, p) + LinesContaining(b, p)
  {
    if a == [] {
      assert a + b == b;
    } else {
      assert (a + b)[1..] == a[1..] + b;
      LinesContainingAppend(a[1..], b, p);
    }
  }

  /** The comprehension starts with the first line that contains `p`. */
  lemma {:induction false} FirstContaining(lines: seq<string>, p: string, k: nat)
    requires k < |lines| && Contains(lines[k], p)
    requires forall j | 0 <= j < k :: !Contains(lines[j], p)
    ensures LinesContaining(lines, p) != [] && LinesContaining(lines, p)[0] == lines[k]
  {
    if k > 0 {
      FirstContaining(lines[1..], p, k - 1);
    }
  }

  /** The first line boundary of a text cuts off its first line; the
      remaining lines are those of the text after the boundary. */
  lemma {:induction false} SplitLinesStep(s: string, n: nat, w: nat)
    requires n == IndexWhere(s, AtLineBreak) && n < |s| && w == BreakWidth(s[n..])
    ensures SplitLines(s) == [s[..n]] + SplitLines(s[n + w..])
  {
    assert s != [];
  }

  /** Whether the comprehension keeps some line, one line at a time. */
  lemma {:induction false} LinesContainingCons(line: string, rest: seq<string>, p: string)
    ensures LinesContaining([line] + rest, p) != [] <==> Contains(line, p) || LinesContaining(rest, p) != []
  {
    assert ([line] + rest)[1..] == rest;
  }

  /** A pattern free of line boundaries occurs in a text exactly when it
      occurs before its first boundary or after it. */
  lemma {:induction false} ContainsAtBreak(s: string, p: string, n: nat, w: nat)
    requires p != [] && NoLineBreak(p)
    requires n < |s| && n == IndexWhere(s, AtLineBreak) && w == BreakWidth(s[n..])
    ensures Contains(s, p) <==> Contains(s[..n], p) || Contains(s[n + w..], p)
  {
    if Contains(s, p) {
      ContainsAroundBreak(s, p, n, w);
    }
    if Contains(s[..n], p) {
      ContainsOfSlice(s, p, 0, n);
    }
    if Contains(s[n + w..], p) {
      assert s[n + w..|s|] == s[n + w..];
      ContainsOfSlice(s, p, n + w, |s|);
    }
  }

  /** A non-empty pattern that holds no line boundary occurs in some line
      of `s` exactly when it occurs in `s` itself: splitting into lines
      neither hides nor invents an occurrence. */
  lemma {:induction false} LinesContain(s: string, p: string)
    requires p != [] && NoLineBreak(p)
    ensures LinesContaining(SplitLines(s), p) != [] <==> Contains(s, p)
    decreases |s|
  {
    var n := IndexWhere(s, AtLineBreak);
    if s == [] {
      assert !Contains(s, p);
    } else if n == |s| {
      assert SplitLines(s) == [s];
      LinesContainingCons(s, [], p);
    } else {
      var w := BreakWidth(s[n..]);
      var tail := s[n + w..];
      SplitLinesStep(s, n, w);
      LinesContainingCons(s[..n], SplitLines(tail), p);
      LinesContain(tail, p);
      ContainsAtBreak(s, p, n, w);
    }
  }

  // ---------------------------------------------------------------------
  // split() with no argument
  // ---------------------------------------------------------------------

  /** `s.split()`: the maximal runs of non-whitespace characters, in order;
      leading, trailing and repeated whitespace yields no empty word. */
  function Words(s: string): (words: seq<string>)
    ensures forall k | 0 <= k < |words| :: words[k] != [] && NoSpace(words[k])
    decreases |s|
  {
    if s == [] then []
    else if IsSpace(s[0]) then Words(s[1..])
    else
      var n := IndexWhere(s, AtSpace);
      [s[..n]] + Words(s[n..])
  }

  /** `sep.join(pieces)`. */
  function Join(pieces: seq<string>, sep: string): string {
    if pieces == [] then ""
    else if |pieces| == 1 then pieces[0]
    else pieces[0] + sep + Join(pieces[1..], sep)
  }

  /** split() undoes joining non-empty, whitespace-free words with single spaces. */
  lemma {:induction false} WordsOfJoin(words: seq<string>)
    requires forall k | 0 <= k < |words| :: words[k] != [] && NoSpace(words[k])
    ensures Words(Join(words, " ")) == words
  {
    if words != [] {
      var w := words[0];
      var s := Join(words, " ");
      if |words| == 1 {
        IndexWhereUnique(s, AtSpace, |w|);
        assert s[..|w|] == w && s[|w|..] == [];
      } else {
        var rest := Join(words[1..], " ");
        assert s == w + " " + rest;
        IndexWhereUnique(s, AtSpace, |w|);
        assert s[..|w|] == w;
        assert s[|w|..] == " " + rest;
        assert (" " + rest)[1..] == rest;
        WordsOfJoin(words[1..]);
      }
    }
  }

  /** Joining texts free of line boundaries gives a text free of them. */
  lemma {:induction false} JoinNoLineBreak(pieces: seq<string>, sep: string)
    requires NoLineBreak(sep)
    requires forall k | 0 <= k < |pieces| :: NoLineBreak(pieces[k])
    ensures NoLineBreak(Join(pieces, sep))
  {
    if |pieces| > 1 {
      JoinNoLineBreak(pieces[1..], sep);
      var rest := Join(pieces[1..], sep);
      var s := pieces[0] + sep + rest;
      forall i | 0 <= i < |s| ensures !IsLineBreak(s[i]) {
        if i < |pieces[0]| {
          assert s[i] == pieces[0][i];
        } else if i < |pieces[0]| + |sep| {
          assert s[i] == sep[i - |pieces[0]|];
        } else {
          assert s[i] == rest[i - |pieces[0]| - |sep|];
        }
      }
    }
  }

  /** split() finds no word exactly in an all-whitespace text. */
  lemma {:induction false} WordsEmptyIffAllSpace(s: string)
    ensures Words(s) == [] <==> AllSpace(s)
    decreases |s|
  {
    if s != [] {
      if IsSpace(s[0]) {
        WordsEmptyIffAllSpace(s[1..]);
        assert AllSpace(s) <==> AllSpace(s[1..]) by {
          if AllSpace(s[1..]) {
            forall i | 0 <= i < |s| ensures IsSpace(s[i]) {
              if i > 0 { assert s[i] == s[1..][i - 1]; }
            }
          }
        }
      }
    }
  }

  /** Whitespace in front of a text adds no word. */
  lemma {:induction false} WordsSkipLeadingSpace(pre: string, s: string)
    requires AllSpace(pre)
    ensures Words(pre + s) == Words(s)
    decreases |pre|
  {
    if pre != [] {
      assert (pre + s)[0] == pre[0];
      assert (pre + s)[1..] == pre[1..] + s;
      assert AllSpace(pre[1..]) by {
        forall i | 0 <= i < |pre| - 1 ensures IsSpace(pre[1..][i]) {
          assert pre[1..][i] == pre[i + 1];
        }
      }
      WordsSkipLeadingSpace(pre[1..], s);
      assert IsSpace((pre + s)[0]);
    } else {
      assert pre + s == s;
    }
  }

  /** A whitespace character at the end of a text adds no word. */
  lemma {:induction false} WordsSkipTrailingSpace(s: string, c: char)
    requires IsSpace(c)
    ensures Words(s + [c]) == Words(s)
    decreases |s|
  {
    var u := s + [c];
    if s == [] {
      assert Words(u) == Words(u[1..]);
    } else if IsSpace(s[0]) {
      assert u[1..] == s[1..] + [c];
      WordsSkipTrailingSpace(s[1..], c);
    } else {
      var n := IndexWhere(s, AtSpace);
      IndexWhereUnique(u, AtSpace, n);
      assert u[..n] == s[..n];
      assert u[n..] == s[n..] + [c];
      WordsSkipTrailingSpace(s[n..], c);
    }
  }

  // ---------------------------------------------------------------------
  // strip()
  // ---------------------------------------------------------------------

  /** `r` is a slice of `s` with only whitespace before and after it. */
  predicate SpaceAround(s: string, r: string) {
    exists a {:trigger AllSpace(s[..a])} | 0 <= a <= |s| - |r| :: s[a..a + |r|] == r && AllSpace(s[..a]) && AllSpace(s[a + |r|..])
  }

  /** `s.lstrip()`. */
  function LStrip(s: string): (r: string)
    ensures |r| <= |s| && r == s[|s| - |r|..]
    ensures AllSpace(s[..|s| - |r|])
    ensures r == [] || !IsSpace(r[0])
    decreases |s|
  {
    if s != [] && IsSpace(s[0]) then LStrip(s[1..]) else s
  }

  /** `s.rstrip()`. */
  function RStrip(s: string): (r: string)
    ensures |r| <= |s| && r == s[..|r|]
    ensures AllSpace(s[|r|..])
    ensures r == [] || !IsSpace(r[|r| - 1])
    decreases |s|
  {
    if s != [] && IsSpace(s[|s| - 1]) then
      var t := s[..|s| - 1];
      var r := RStrip(t);
      assert s[|r|..] == t[|r|..] + [s[|s| - 1]];
      r
    else s
  }

  /** `s.strip()`: the text without its leading and trailing whitespace. It is
      a slice of `s` with only whitespace on either side, empty exactly when
      `s` is all whitespace, and otherwise begins and ends with a
      non-whitespace character. */
  function Strip(s: string): (r: string)
    ensures SpaceAround(s, r)
    ensures r == [] <==> AllSpace(s)
    ensures r != [] ==> !IsSpace(r[0]) && !IsSpace(r[|r| - 1])
  {
    StripIsSlice(s, LStrip(s), RStrip(LStrip(s)), |s| - |LStrip(s)|);
    RStrip(LStrip(s))
  }

  /** Removing whitespace from the front of `s` (leaving `l`) and then from
      the back of `l` (leaving `r`) leaves a slice of `s` with only
      whitespace on either side. */
  lemma StripIsSlice(s: string, l: string, r: string, a: int)
    requires 0 <= a <= |s| && l == s[a..] && AllSpace(s[..a])
    requires |r| <= |l| && r == l[..|r|] && AllSpace(l[|r|..])
    ensures SpaceAround(s, r)
  {
    assert s[a + |r|..] == l[|r|..];
    assert s[a..a + |r|] == r;
  }

  lemma {:induction false} WordsOfLStrip(s: string)
    ensures Words(LStrip(s)) == Words(s)
    decreases |s|
  {
    if s != [] && IsSpace(s[0]) {
      WordsOfLStrip(s[1..]);
    }
  }

  lemma {:induction false} WordsOfRStrip(s: string)
    ensures Words(RStrip(s)) == Words(s)
    decreases |s|
  {
    if s != [] && IsSpace(s[|s| - 1]) {
      var t := s[..|s| - 1];
      assert s == t + [s[|s| - 1]];
      WordsSkipTrailingSpace(t, s[|s| - 1]);
      WordsOfRStrip(t);
    }
  }

  /** Stripping a text first does not change the words split() finds in it. */
  lemma {:induction false} WordsOfStrip(s: string)
    ensures Words(Strip(s)) == Words(s)
  {
    WordsOfRStrip(LStrip(s));
    WordsOfLStrip(s);
  }

  // ---------------------------------------------------------------------
  // split(sep) with a one-character separator
  // ---------------------------------------------------------------------

  /** `s.split(sep)`: the pieces between separators, empty ones included;
      there is always at least one piece. */
  function SplitOn(s: string, sep: char): (pieces: seq<string>)
    ensures |pieces| >= 1
    ensures forall k | 0 <= k < |pieces| :: sep !in pieces[k]
    decreases |s|
  {
    var n := IndexWhere(s, AtChar(sep));
    if n == |s| then [s] else [s[..n]] + SplitOn(s[n + 1..], sep)
  }

  /** The first separator of `s` cuts off the first piece; the remaining
      pieces are those of the text after it. */
  lemma {:induction false} SplitOnStep(s: string, sep: char, n: nat)
    requires n == IndexWhere(s, AtChar(sep))
    ensures n == |s| ==> SplitOn(s, sep) == [s]
    ensures n < |s| ==> s[n] == sep && SplitOn(s, sep) == [s[..n]] + SplitOn(s[n + 1..], sep)
  {
    if n < |s| {
      assert StopsAt(AtChar(sep), s[n]);
    }
  }

  /** Joining a first piece onto two or more. */
  lemma {:induction false} JoinCons(piece: string, rest: seq<string>, sep: string)
    requires rest != []
    ensures Join([piece] + rest, sep) == piece + sep + Join(rest, sep)
  {
    assert ([piece] + rest)[1..] == rest;
  }

  /** A text is the part before index `n`, the character there and the rest. */
  lemma {:induction false} Rejoin(s: string, n: nat)
    requires n < |s|
    ensures s == s[..n] + [s[n]] + s[n + 1..]
  {
  }

  /** Joining the pieces back with the separator gives the text again. */
  lemma {:induction false} JoinSplitOn(s: string, sep: char)
    ensures Join(SplitOn(s, sep), [sep]) == s
    decreases |s|
  {
    var n := IndexWhere(s, AtChar(sep));
    SplitOnStep(s, sep, n);
    if n < |s| {
      var rest := s[n + 1..];
      JoinSplitOn(rest, sep);
      JoinCons(s[..n], SplitOn(rest, sep), [sep]);
      Rejoin(s, n);
    }
  }

  /** Splitting undoes joining pieces that hold no separator. */
  lemma {:induction false} SplitOnJoin(pieces: seq<string>, sep: char)
    requires |pieces| >= 1
    requires forall k | 0 <= k < |pieces| :: sep !in pieces[k]
    ensures SplitOn(Join(pieces, [sep]), sep) == pieces
  {
    var p := pieces[0];
    var s := Join(pieces, [sep]);
    if |pieces| == 1 {
      IndexWhereUnique(s, AtChar(sep), |s|);
    } else {
      var rest := Join(pieces[1..], [sep]);
      assert s == p + [sep] + rest;
      IndexWhereUnique(s, AtChar(sep), |p|);
      assert s[..|p|] == p && s[|p| + 1..] == rest;
      SplitOnJoin(pieces[1..], sep);
    }
  }

  /** The prefix of `s` that runs `m` characters past index `n`. */
  lemma {:induction false} PrefixAroundIndex(s: string, n: nat, m: nat)
    requires n + 1 + m <= |s|
    ensures s[..n] + [s[n]] + s[n + 1..][..m] == s[..n + 1 + m]
  {
  }

  /** With a separator present, the first piece is the text before the first
      separator and the second piece runs from there to the next separator
      or to the end of the text. */
  lemma {:induction false} SplitOnFirstTwo(s: string, sep: char)
    requires sep in s
    ensures |SplitOn(s, sep)| >= 2
    ensures SplitOn(s, sep)[0] + [sep] + SplitOn(s, sep)[1] <= s
    ensures || |SplitOn(s, sep)[0]| + 1 + |SplitOn(s, sep)[1]| == |s|
            || s[|SplitOn(s, sep)[0]| + 1 + |SplitOn(s, sep)[1]|] == sep
  {
    var n := IndexWhere(s, AtChar(sep));
    var j :| 0 <= j < |s| && s[j] == sep;
    assert StopsAt(AtChar(sep), s[j]);
    SplitOnStep(s, sep, n);
    var rest := s[n + 1..];
    var m := IndexWhere(rest, AtChar(sep));
    SplitOnHead(rest, sep, m);
    var pieces := SplitOn(s, sep);
    assert pieces[0] == s[..n];
    assert pieces[1] == rest[..m];
    PrefixAroundIndex(s, n, m);
    assert n + 1 + m < |s| ==> s[n + 1 + m] == rest[m];
  }

  /** The first piece runs up to the first separator. */
  lemma {:induction false} SplitOnHead(s: string, sep: char, n: nat)
    requires n == IndexWhere(s, AtChar(sep))
    ensures SplitOn(s, sep)[0] == s[..n]
  {
  }

  /** Counting a character on both sides of index `n`. */
  lemma {:induction false} CountAround(s: string, n: nat, c: char)
    requires n < |s|
    ensures multiset(s)[c] == multiset(s[..n])[c] + (if s[n] == c then 1 else 0) + multiset(s[n + 1..])[c]
  {
    Rejoin(s, n);
    assert multiset(s) == multiset(s[..n]) + multiset{s[n]} + multiset(s[n + 1..]);
  }

  /** There is one piece more than there are separators. */
  lemma {:induction false} SplitOnCount(s: string, sep: char)
    ensures |SplitOn(s, sep)| == multiset(s)[sep] + 1
    decreases |s|
  {
    var n := IndexWhere(s, AtChar(sep));
    SplitOnStep(s, sep, n);
    if n == |s| {
      assert sep !in s by {
        forall j | 0 <= j < |s| ensures s[j] != sep {
          assert !StopsAt(AtChar(sep), s[j]);
        }
      }
    } else {
      SplitOnCount(s[n + 1..], sep);
      CountAround(s, n, sep);
      assert sep !in s[..n] by {
        forall j | 0 <= j < n ensures s[..n][j] != sep {
          assert !StopsAt(AtChar(sep), s[j]);
        }
      }
    }
  }
}
