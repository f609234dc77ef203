/** The pieces of Rust's `str` API that the DUT commands use on plain text:
    `trim` (Unicode white space at both ends), `split` on one character and
    `join` with one character, over strings modelled as `seq<char>`. */
module Text {
  import opened Seqs

  /** Rust's `char::is_whitespace`: the Unicode White_Space property. */
  predicate IsWhitespace(c: char) {
    || ('\t' <= c <= '\r')
    || c == ' '
    || c == '\U{0085}'
    || c == '\U{00A0}'
    || c == '\U{1680}'
    || ('\U{2000}' <= c <= '\U{200A}')
    || c == '\U{2028}'
    || c == '\U{2029}'
    || c == '\U{202F}'
    || c == '\U{205F}'
    || c == '\U{3000}'
  }

  predicate AllWhitespace(s: string) {
    forall i :: 0 <= i < |s| ==> IsWhitespace(s[i])
  }

  /** A string that `trim` leaves alone: empty, or starting and ending with
      a character that is not white space. */
  predicate NoEdgeWhitespace(s: string) {
    |s| == 0 || (!IsWhitespace(s[0]) && !IsWhitespace(s[|s| - 1]))
  }

  /** Length of the longest all-white-space prefix of `s`. */
  function LeadingWhitespace(s: string): (n: nat)
    ensures n <= |s|
    ensures AllWhitespace(s[..n])
    ensures n == |s| || !IsWhitespace(s[n])
  {
    if |s| > 0 && IsWhitespace(s[0]) then
      var n := 1 + LeadingWhitespace(s[1..]);
      assert s[..n] == [s[0]] + s[1..][..n - 1];
      n
    else 0
  }

  /** Length of the longest all-white-space suffix of `s`. */
  function TrailingWhitespace(s: string): (n: nat)
    ensures n <= |s|
    ensures AllWhitespace(s[|s| - n..])
    ensures n == |s| || !IsWhitespace(s[|s| - n - 1])
  {
    if |s| > 0 && IsWhitespace(s[|s| - 1]) then
      var n := 1 + TrailingWhitespace(s[..|s| - 1]);
      assert s[|s| - n..] == s[..|s| - 1][|s| - n..] + [s[|s| - 1]];
      n
    else 0
  }

  /** Rust's `str::trim`: drops the white space at both ends and keeps the
      characters in between exactly as they were (see `TrimSlice`). */
  function Trim(s: string): (r: string)
    ensures NoEdgeWhitespace(r)
    ensures |r| <= |s|
  {
    var start := s[LeadingWhitespace(s)..];
    start[..|start| - TrailingWhitespace(start)]
  }

  /** The trimmed text is the slice of the input between its leading and
      its trailing white space. */
  lemma TrimSlice(s: string)
    ensures var n := LeadingWhitespace(s); var r := Trim(s);
      && n + |r| <= |s|
      && s == s[..n] + r + s[n + |r|..]
      && AllWhitespace(s[..n])
      && AllWhitespace(s[n + |r|..])
  {
    var n := LeadingWhitespace(s);
    var start := s[n..];
    var t := TrailingWhitespace(start);
    var j := n + (|start| - t);
    assert Trim(s) == s[n..j];
    assert s[j..] == start[|start| - t..];
    SliceThree(s, n, j);
  }

  lemma AllWhitespaceConcat(x: string, y: string)
    requires AllWhitespace(x) && AllWhitespace(y)
    ensures AllWhitespace(x + y)
  {
    forall i | 0 <= i < |x + y| ensures IsWhitespace((x + y)[i]) {
      if i >= |x| { assert (x + y)[i] == y[i - |x|]; }
    }
  }

  /** White space followed by text that does not start with white space:
      the leading run is exactly the padding. */
  lemma {:induction false} LeadingWhitespaceOfPadded(x: string, y: string)
    requires AllWhitespace(x) && (|y| == 0 || !IsWhitespace(y[0]))
    ensures LeadingWhitespace(x + y) == |x|
  {
    if |x| == 0 {
      assert x + y == y;
    } else {
      assert (x + y)[0] == x[0];
      assert (x + y)[1..] == x[1..] + y;
      AllWhitespaceSlice(x, 1, |x|);
      LeadingWhitespaceOfPadded(x[1..], y);
    }
  }

  /** Text that does not end with white space, followed by white space:
      the trailing run is exactly the padding. */
  lemma {:induction false} TrailingWhitespaceOfPadded(y: string, c: string)
    requires AllWhitespace(c) && (|y| == 0 || !IsWhitespace(y[|y| - 1]))
    ensures TrailingWhitespace(y + c) == |c|
  {
    if |c| == 0 {
      assert y + c == y;
    } else {
      var c' := c[..|c| - 1];
      assert (y + c)[|y + c| - 1] == c[|c| - 1];
      assert (y + c)[..|y + c| - 1] == y + c';
      AllWhitespaceSlice(c, 0, |c| - 1);
      TrailingWhitespaceOfPadded(y, c');
    }
  }

  /** `trim` is determined by what it keeps: a core without edge white
      space, padded on both sides by white space only, trims to itself. */
  lemma TrimUnique(a: string, m: string, c: string)
    requires AllWhitespace(a) && AllWhitespace(c) && NoEdgeWhitespace(m)
    ensures Trim(a + m + c) == m
  {
    var s := a + m + c;
    if m == [] {
      assert s == (a + c) + [];
      AllWhitespaceConcat(a, c);
      LeadingWhitespaceOfPadded(a + c, []);
    } else {
      assert s == a + (m + c);
      LeadingWhitespaceOfPadded(a, m + c);
      assert s[|a|..] == m + c;
      TrailingWhitespaceOfPadded(m, c);
      assert (m + c)[..|m|] == m;
    }
  }

  /** Trimming again changes nothing. */
  lemma TrimIdempotent(s: string)
    ensures Trim(Trim(s)) == Trim(s)
  {
    TrimUnique([], Trim(s), []);
    assert [] + Trim(s) + [] == Trim(s);
  }

  /** Extra white space on either side does not change the trimmed text. */
  lemma TrimAbsorbsWhitespace(a: string, s: string, c: string)
    requires AllWhitespace(a) && AllWhitespace(c)
    ensures Trim(a + s + c) == Trim(s)
  {
    TrimSlice(s);
    var n := LeadingWhitespace(s);
    var m := Trim(s);
    var lead := s[..n];
    var trail := s[n + |m|..];
    Regroup(a, lead, m, trail, c);
    AllWhitespaceConcat(a, lead);
    AllWhitespaceConcat(trail, c);
    TrimUnique(a + lead, m, trail + c);
  }

  lemma AllWhitespaceSlice(x: string, i: int, j: int)
    requires AllWhitespace(x) && 0 <= i <= j <= |x|
    ensures AllWhitespace(x[i..j])
  {
    forall k | 0 <= k < j - i ensures IsWhitespace(x[i..j][k]) { assert x[i..j][k] == x[i + k]; }
  }

  lemma NoSeparatorConcat(xs: seq<string>, ys: seq<string>, sep: char)
    requires forall k :: 0 <= k < |xs| ==> sep !in xs[k]
    requires forall k :: 0 <= k < |ys| ==> sep !in ys[k]
    ensures forall k :: 0 <= k < |xs + ys| ==> sep !in (xs + ys)[k]
  {
    forall k | 0 <= k < |xs + ys| ensures sep !in (xs + ys)[k] {
      if k >= |xs| { assert (xs + ys)[k] == ys[k - |xs|]; }
    }
  }

  /** Number of occurrences of `c` in `s`. */
  function Count(s: string, c: char): nat {
    if |s| == 0 then 0 else (if s[0] == c then 1 else 0) + Count(s[1..], c)
  }

  /** Rust's `str::split(sep)`: the pieces between occurrences of `sep`,
      always one more piece than there are separators, so the empty
      string splits into one empty piece. */
  function Split(s: string, sep: char): (parts: seq<string>)
    ensures |parts| == Count(s, sep) + 1
  {
    if |s| == 0 then [[]]
    else
      var rest := Split(s[1..], sep);
      if s[0] == sep then [[]] + rest
      else [[s[0]] + rest[0]] + rest[1..]
  }

  /** Rust's `join(sep)` on a list of strings. */
  function Join(parts: seq<string>, sep: char): string {
    if |parts| == 0 then []
    else if |parts| == 1 then parts[0]
    else parts[0] + [sep] + Join(parts[1..], sep)
  }

  /** Joining the pieces of a split gives back the original text. */
  lemma {:induction false} JoinSplit(s: string, sep: char)
    ensures Join(Split(s, sep), sep) == s
  {
    if |s| > 0 {
      var rest := Split(s[1..], sep);
      JoinSplit(s[1..], sep);
      if s[0] == sep {
        assert Split(s, sep) == [[]] + rest;
        assert ([[]] + rest)[1..] == rest;
        assert s == [] + [sep] + s[1..];
      } else {
        var parts := [[s[0]] + rest[0]] + rest[1..];
        assert Split(s, sep) == parts;
        if |rest| == 1 {
          assert s == [s[0]] + rest[0];
        } else {
          assert parts[1..] == rest[1..];
          assert s == ([s[0]] + rest[0]) + [sep] + Join(rest[1..], sep);
        }
      }
    }
  }

  /** A string without the separator is a single piece. */
  lemma {:induction false} SplitNoSeparator(p: string, sep: char)
    requires sep !in p
    ensures Split(p, sep) == [p]
  {
    if |p| > 0 {
      SplitNoSeparator(p[1..], sep);
      assert [p[0]] + p[1..] == p;
    }
  }

  /** Splitting at a separator that follows a separator-free piece. */
  lemma {:induction false} SplitAfterPiece(p: string, sep: char, t: string)
    requires sep !in p
    ensures Split(p + [sep] + t, sep) == [p] + Split(t, sep)
  {
    if |p| == 0 {
      assert p + [sep] + t == [sep] + t;
      assert ([sep] + t)[1..] == t;
    } else {
      var s := p + [sep] + t;
      assert s[1..] == p[1..] + [sep] + t;
      SplitAfterPiece(p[1..], sep, t);
      assert [p[0]] + p[1..] == p;
    }
  }

  /** Splitting a joined list gives the list back when no piece contains
      the separator (and the list is not empty, which `split` never yields). */
  lemma {:induction false} SplitJoin(parts: seq<string>, sep: char)
    requires |parts| > 0
    requires forall k :: 0 <= k < |parts| ==> sep !in parts[k]
    ensures Split(Join(parts, sep), sep) == parts
  {
    if |parts| == 1 {
      SplitNoSeparator(parts[0], sep);
    } else {
      SplitJoin(parts[1..], sep);
      SplitAfterPiece(parts[0], sep, Join(parts[1..], sep));
      assert [parts[0]] + parts[1..] == parts;
    }
  }

  /** Appending the separator opens a new, empty last piece. */
  lemma {:induction false} SplitSnocSeparator(t: string, sep: char)
    ensures Split(t + [sep], sep) == Split(t, sep) + [[]]
  {
    if |t| == 0 {
      assert t + [sep] == [sep];
      assert [sep][1..] == [];
    } else {
      assert (t + [sep])[1..] == t[1..] + [sep];
      SplitSnocSeparator(t[1..], sep);
      var rest := Split(t[1..], sep);
      if t[0] != sep {
        assert (rest + [[]])[0] == rest[0];
        assert (rest + [[]])[1..] == rest[1..] + [[]];
      }
    }
  }

  /** Extending the last piece of a list of pieces. */
  function ExtendLast(parts: seq<string>, ch: char): seq<string>
    requires |parts| > 0
  {
    parts[..|parts| - 1] + [parts[|parts| - 1] + [ch]]
  }

  lemma ExtendLastCons(p: string, rest: seq<string>, ch: char)
    requires |rest| > 0
    ensures ExtendLast([p] + rest, ch) == [p] + ExtendLast(rest, ch)
  {
    var n := |rest|;
    assert ([p] + rest)[..n] == [p] + rest[..n - 1];
  }

  lemma ExtendLastFirst(c: char, rest: seq<string>, ch: char)
    requires |rest| > 0
    ensures var e := ExtendLast(rest, ch);
      [[c] + e[0]] + e[1..] == ExtendLast([[c] + rest[0]] + rest[1..], ch)
  {
    var n := |rest|;
    var e := ExtendLast(rest, ch);
    if n == 1 {
      assert e == [rest[0] + [ch]];
      assert [c] + (rest[0] + [ch]) == ([c] + rest[0]) + [ch];
    } else {
      assert e[0] == rest[0];
      assert e[1..] == ExtendLast(rest[1..], ch);
      ExtendLastCons([c] + rest[0], rest[1..], ch);
    }
  }

  /** Appending any other character extends the last piece. */
  lemma {:induction false} SplitSnocOther(t: string, ch: char, sep: char)
    requires ch != sep
    ensures Split(t + [ch], sep) == ExtendLast(Split(t, sep), ch)
  {
    if |t| == 0 {
      assert t + [ch] == [ch];
      assert [ch][1..] == [];
      assert Split([ch], sep) == [[ch] + []];
      assert [ch] + [] == [ch];
    } else {
      assert (t + [ch])[1..] == t[1..] + [ch];
      SplitSnocOther(t[1..], ch, sep);
      var rest := Split(t[1..], sep);
      if t[0] == sep {
        ExtendLastCons([], rest, ch);
      } else {
        ExtendLastFirst(t[0], rest, ch);
      }
    }
  }

  /** Each line trimmed, the blank ones dropped, in order: the
      `.map(str::trim).filter(|s| !s.is_empty())` stage of a line parse. */
  function KeepNonBlank(lines: seq<string>): (r: seq<string>)
    ensures |r| <= |lines|
  {
    if |lines| == 0 then []
    else
      var t := Trim(lines[0]);
      if t == [] then KeepNonBlank(lines[1..]) else [t] + KeepNonBlank(lines[1..])
  }

  /** Every kept string is non-empty and has no white space at its ends. */
  lemma {:induction false} KeepNonBlankClean(lines: seq<string>)
    ensures forall k :: 0 <= k < |KeepNonBlank(lines)| ==>
      KeepNonBlank(lines)[k] != [] && NoEdgeWhitespace(KeepNonBlank(lines)[k])
  {
    if |lines| > 0 {
      KeepNonBlankClean(lines[1..]);
    }
  }

  /** Every line trimmed, nothing dropped. */
  function TrimAll(lines: seq<string>): (r: seq<string>)
    ensures |r| == |lines|
    ensures forall k :: 0 <= k < |r| ==> r[k] == Trim(lines[k])
  {
    if |lines| == 0 then [] else [Trim(lines[0])] + TrimAll(lines[1..])
  }

  /** A string is kept exactly when it is non-empty and some line trims
      to it. */
  lemma {:induction false} KeepNonBlankMembership(lines: seq<string>, x: string)
    ensures x in KeepNonBlank(lines) <==> x != [] && x in TrimAll(lines)
  {
    if |lines| > 0 {
      KeepNonBlankMembership(lines[1..], x);
    }
  }

  lemma {:induction false} KeepNonBlankAppend(a: seq<string>, b: seq<string>)
    ensures KeepNonBlank(a + b) == KeepNonBlank(a) + KeepNonBlank(b)
  {
    if |a| > 0 {
      assert (a + b)[0] == a[0];
      assert (a + b)[1..] == a[1..] + b;
      KeepNonBlankAppend(a[1..], b);
    } else {
      assert a + b == b;
    }
  }

  /** White space before the text changes no kept line: it only adds blank
      lines or pads the first line on the left. */
  lemma {:induction false} KeepSplitDropsLeadingWhitespace(a: string, s: string)
    requires AllWhitespace(a)
    ensures KeepNonBlank(Split(a + s, '\n')) == KeepNonBlank(Split(s, '\n'))
  {
    if |a| > 0 {
      AllWhitespaceSlice(a, 1, |a|);
      KeepSplitDropsLeadingWhitespace(a[1..], s);
      ConsRegroup(a, s);
      KeepSplitDropsFirstWhitespace(a[0], a[1..] + s);
    } else {
      assert a + s == s;
    }
  }

  /** One white-space character at the start either adds a blank first
      line or pads the first line on the left. */
  lemma KeepSplitDropsFirstWhitespace(ch: char, t: string)
    requires IsWhitespace(ch)
    ensures KeepNonBlank(Split([ch] + t, '\n')) == KeepNonBlank(Split(t, '\n'))
  {
    var lines := Split(t, '\n');
    assert ([ch] + t)[1..] == t;
    if ch == '\n' {
      assert Split([ch] + t, '\n') == [[]] + lines;
      assert ([[]] + lines)[1..] == lines;
    } else {
      var first := [ch] + lines[0];
      assert Split([ch] + t, '\n') == [first] + lines[1..];
      assert ([first] + lines[1..])[1..] == lines[1..];
      TrimAbsorbsWhitespace([ch], lines[0], []);
      assert [ch] + lines[0] + [] == first;
      assert lines == [lines[0]] + lines[1..];
    }
  }

  /** White space after the text changes no kept line either. */
  lemma {:induction false} KeepSplitDropsTrailingWhitespace(s: string, c: string)
    requires AllWhitespace(c)
    ensures KeepNonBlank(Split(s + c, '\n')) == KeepNonBlank(Split(s, '\n'))
  {
    if |c| > 0 {
      var c' := c[..|c| - 1];
      var ch := c[|c| - 1];
      AllWhitespaceSlice(c, 0, |c| - 1);
      KeepSplitDropsTrailingWhitespace(s, c');
      SnocRegroup(s, c);
      KeepSplitDropsLastWhitespace(s + c', ch);
    } else {
      assert s + c == s;
    }
  }

  /** One white-space character at the end either adds a blank last line
      or pads the last line on the right. */
  lemma KeepSplitDropsLastWhitespace(t: string, ch: char)
    requires IsWhitespace(ch)
    ensures KeepNonBlank(Split(t + [ch], '\n')) == KeepNonBlank(Split(t, '\n'))
  {
    if ch == '\n' {
      SplitSnocSeparator(t, '\n');
      KeepIgnoresBlankLastLine(Split(t, '\n'));
    } else {
      SplitSnocOther(t, ch, '\n');
      KeepIgnoresWhitespaceAfterLastLine(Split(t, '\n'), ch);
    }
  }

  lemma KeepIgnoresBlankLastLine(lines: seq<string>)
    ensures KeepNonBlank(lines + [[]]) == KeepNonBlank(lines)
  {
    KeepNonBlankAppend(lines, [[]]);
    assert KeepNonBlank([[]]) == [];
  }

  lemma KeepIgnoresWhitespaceAfterLastLine(lines: seq<string>, ch: char)
    requires |lines| > 0 && IsWhitespace(ch)
    ensures KeepNonBlank(ExtendLast(lines, ch)) == KeepNonBlank(lines)
  {
    var n := |lines|;
    var init := lines[..n - 1];
    var last := lines[n - 1];
    InitLast(lines);
    KeepNonBlankAppend(init, [last + [ch]]);
    KeepNonBlankAppend(init, [last]);
    KeepOneLineIgnoresTrailingWhitespace(last, ch);
  }

  lemma KeepOneLineIgnoresTrailingWhitespace(line: string, ch: char)
    requires IsWhitespace(ch)
    ensures KeepNonBlank([line + [ch]]) == KeepNonBlank([line])
  {
    TrimAbsorbsWhitespace([], line, [ch]);
    assert [] + line + [ch] == line + [ch];
    assert [line + [ch]][1..] == [];
    assert [line][1..] == [];
  }
}
