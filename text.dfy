/**
 * The string operations the parser relies on, written out over `seq<char>`:
 * white-space stripping, prefix and suffix tests, decimal digits, splitting on
 * a separator, first-occurrence search and textual replacement.
 */
module Text {
  import opened Wrappers

  /**
   * The white-space characters stripped from lines and excluded from tag
   * names: the ASCII characters Python counts as white space, that is blank,
   * tab, line feed, carriage return, vertical tab, form feed and the four
   * separators U+001C to U+001F.
   */
  predicate IsSpace(c: char) {
    c == ' ' || c == '\t' || c == '\n' || c == '\r' || c == '\U{0B}' || c == '\U{0C}'
    || ('\U{1C}' <= c <= '\U{1F}')
  }

  predicate StartsWith(s: string, prefix: string) {
    |prefix| <= |s| && s[..|prefix|] == prefix
  }

  predicate EndsWith(s: string, suffix: string) {
    |suffix| <= |s| && s[|s| - |suffix|..] == suffix
  }

  // ---------------------------------------------------------------------------
  // Stripping white space

  /** `s` with its leading white space removed. */
  function LStrip(s: string): (r: string)
    ensures |r| <= |s| && r == s[|s| - |r|..]
    ensures r == [] || !IsSpace(r[0])
    ensures forall i :: 0 <= i < |s| - |r| ==> IsSpace(s[i])
  {
    if s != [] && IsSpace(s[0]) then LStrip(s[1..]) else s
  }

  /** `s` with its trailing white space removed. */
  function RStrip(s: string): (r: string)
    ensures |r| <= |s| && r == s[..|r|]
    ensures r == [] || !IsSpace(r[|r| - 1])
    ensures forall i :: |r| <= i < |s| ==> IsSpace(s[i])
  {
    if s != [] && IsSpace(s[|s| - 1]) then RStrip(s[..|s| - 1]) else s
  }

  /** Neither end of `s` is white space. */
  predicate Stripped(s: string) {
    s == [] || (!IsSpace(s[0]) && !IsSpace(s[|s| - 1]))
  }

  /** Python's `s.strip()`: white space removed from both ends, and nothing else changed. */
  function Strip(s: string): (r: string)
    ensures Stripped(r)
    ensures Stripped(s) ==> r == s
    ensures |r| <= |s|
  {
    RStrip(LStrip(s))
  }

  /** Stripping adds no character: what `s` lacks, `Strip(s)` lacks. */
  lemma StripKeepsAbsent(s: string, c: char)
    requires c !in s
    ensures c !in Strip(s)
  {
    var l := LStrip(s);
    var r := RStrip(l);
    assert forall i :: 0 <= i < |r| ==> r[i] == l[i] == s[|s| - |l| + i];
  }

  /** Stripping a stripped text preceded by any run of white space gives the text back. */
  lemma {:induction false} StripAfterSpaces(w: string, c: string)
    requires forall i :: 0 <= i < |w| ==> IsSpace(w[i])
    requires Stripped(c)
    ensures Strip(w + c) == c
  {
    LStripSpaces(w, c);
  }

  lemma {:induction false} LStripSpaces(w: string, c: string)
    requires forall i :: 0 <= i < |w| ==> IsSpace(w[i])
    requires c == [] || !IsSpace(c[0])
    ensures LStrip(w + c) == c
  {
    if w == [] {
      assert w + c == c;
    } else {
      assert (w + c)[0] == w[0];
      assert (w + c)[1..] == w[1..] + c;
      LStripSpaces(w[1..], c);
    }
  }

  // ---------------------------------------------------------------------------
  // Decimal digits

  predicate IsDigit(c: char) {
    '0' <= c <= '9'
  }

  predicate AllDigits(s: string) {
    forall i :: 0 <= i < |s| ==> IsDigit(s[i])
  }

  /** Length of the longest prefix of `s` made of decimal digits. */
  function DigitRun(s: string): (n: nat)
    ensures n <= |s| && AllDigits(s[..n])
    ensures n < |s| ==> !IsDigit(s[n])
  {
    if s != [] && IsDigit(s[0]) then
      var m := DigitRun(s[1..]);
      assert s[..1 + m] == [s[0]] + s[1..][..m];
      1 + m
    else 0
  }

  /** The digit run of a numeral followed by a non-digit is the numeral. */
  lemma {:induction false} DigitRunOf(d: string, t: string)
    requires AllDigits(d)
    requires t == [] || !IsDigit(t[0])
    ensures DigitRun(d + t) == |d|
  {
    if d != [] {
      assert (d + t)[1..] == d[1..] + t;
      DigitRunOf(d[1..], t);
    } else {
      assert d + t == t;
    }
  }

  /** The value of a decimal numeral, as Python's `int()` reads it. */
  function DigitsValue(d: string): (v: nat)
    requires AllDigits(d)
  {
    if d == [] then 0 else 10 * DigitsValue(d[..|d| - 1]) + (d[|d| - 1] as int - '0' as int)
  }

  function Digit(d: nat): (c: char)
    requires d < 10
    ensures IsDigit(c) && c as int - '0' as int == d
  {
    ('0' as int + d) as char
  }

  /** Python's `"{}".format(n)` for a natural number: its decimal numeral. */
  function NatToString(n: nat): (s: string)
    ensures s != [] && AllDigits(s)
  {
    if n < 10 then [Digit(n)] else NatToString(n / 10) + [Digit(n % 10)]
  }

  /** Reading back the numeral of `n` gives `n`. */
  lemma {:induction false} NatToStringRoundTrip(n: nat)
    ensures DigitsValue(NatToString(n)) == n
  {
    if n >= 10 {
      NatToStringRoundTrip(n / 10);
      var s := NatToString(n);
      assert s[..|s| - 1] == NatToString(n / 10);
    }
  }

  // ---------------------------------------------------------------------------
  // Splitting on a one-character separator

  /** Number of occurrences of `c` in `s`. */
  function Count(s: string, c: char): (n: nat)
    ensures n <= |s|
  {
    if s == [] then 0 else Count(s[..|s| - 1], c) + (if s[|s| - 1] == c then 1 else 0)
  }

  /** The pieces of a text extended by the character `x`: a separator starts a new piece. */
  function AddChar(pieces: seq<string>, x: char, sep: char): (r: seq<string>)
    requires pieces != []
    ensures |r| >= 1
    ensures (forall i :: 0 <= i < |pieces| ==> sep !in pieces[i]) ==> forall i :: 0 <= i < |r| ==> sep !in r[i]
  {
    if x == sep then pieces + [[]] else pieces[..|pieces| - 1] + [pieces[|pieces| - 1] + [x]]
  }

  /** Python's `s.split(sep)` for a one-character separator: the pieces between separators, in order. */
  function Split(s: string, sep: char): (pieces: seq<string>)
    ensures |pieces| >= 1
    ensures forall i :: 0 <= i < |pieces| ==> sep !in pieces[i]
  {
    if s == [] then [[]] else AddChar(Split(s[..|s| - 1], sep), s[|s| - 1], sep)
  }

  /** `k` separators make `k + 1` pieces. */
  lemma {:induction false} SplitLength(s: string, sep: char)
    ensures |Split(s, sep)| == Count(s, sep) + 1
  {
    if s != [] {
      SplitLength(s[..|s| - 1], sep);
    }
  }

  /** Python's `sep.join(pieces)`. */
  function Join(pieces: seq<string>, sep: char): string
    requires pieces != []
  {
    if |pieces| == 1 then pieces[0]
    else Join(pieces[..|pieces| - 1], sep) + [sep] + pieces[|pieces| - 1]
  }

  /** Joining the pieces of a split with the same separator gives the text back. */
  lemma {:induction false} JoinSplit(s: string, sep: char)
    ensures Join(Split(s, sep), sep) == s
  {
    if s != [] {
      var s', x := s[..|s| - 1], s[|s| - 1];
      assert s == s' + [x];
      JoinSplit(s', sep);
      var init := Split(s', sep);
      if x != sep {
        var pieces := Split(s, sep);
        assert pieces[..|pieces| - 1] == init[..|init| - 1];
        if |init| > 1 {
          assert Join(init, sep) == Join(init[..|init| - 1], sep) + [sep] + init[|init| - 1];
        }
      }
    }
  }

  /** How the pieces change when one character is appended. */
  lemma SplitSnoc(s: string, x: char, sep: char)
    ensures Split(s + [x], sep) == AddChar(Split(s, sep), x, sep)
  {
    assert (s + [x])[..|s + [x]| - 1] == s;
  }

  /** Adding a character only touches the last piece. */
  lemma AddCharAfter(left: seq<string>, right: seq<string>, x: char, sep: char)
    requires right != []
    ensures AddChar(left + right, x, sep) == left + AddChar(right, x, sep)
  {
    if x != sep {
      assert (left + right)[..|left + right| - 1] == left + right[..|right| - 1];
    }
  }

  /** Splitting around a separator splits both sides independently. */
  lemma {:induction false} SplitAround(a: string, b: string, sep: char)
    ensures Split(a + [sep] + b, sep) == Split(a, sep) + Split(b, sep)
    decreases |b|
  {
    if b == [] {
      SplitSnoc(a, sep, sep);
      assert a + [sep] + b == a + [sep];
    } else {
      var b', x := b[..|b| - 1], b[|b| - 1];
      assert b == b' + [x];
      assert a + [sep] + b == (a + [sep] + b') + [x];
      SplitAround(a, b', sep);
      SplitSnoc(a + [sep] + b', x, sep);
      SplitSnoc(b', x, sep);
      AddCharAfter(Split(a, sep), Split(b', sep), x, sep);
    }
  }

  /** A text without the separator is one piece. */
  lemma SplitWithoutSeparator(s: string, sep: char)
    requires sep !in s
    ensures Split(s, sep) == [s]
  {
    if s != [] {
      assert s[..|s| - 1] + [s[|s| - 1]] == s;
      SplitWithoutSeparator(s[..|s| - 1], sep);
    }
  }

  /** Splitting a join of separator-free pieces gives the pieces back. */
  lemma {:induction false} SplitJoin(pieces: seq<string>, sep: char)
    requires pieces != []
    requires forall i :: 0 <= i < |pieces| ==> sep !in pieces[i]
    ensures Split(Join(pieces, sep), sep) == pieces
  {
    if |pieces| == 1 {
      SplitWithoutSeparator(pieces[0], sep);
    } else {
      var init, last := pieces[..|pieces| - 1], pieces[|pieces| - 1];
      assert pieces == init + [last];
      assert Join(pieces, sep) == Join(init, sep) + [sep] + last;
      SplitJoin(init, sep);
      SplitAround(Join(init, sep), last, sep);
      SplitWithoutSeparator(last, sep);
    }
  }

  // ---------------------------------------------------------------------------
  // Searching and replacing

  /** A slice of the tail of `s` is the same slice of `s`, one place further on. */
  lemma TailSlice(s: string, i: nat, n: nat)
    requires 1 <= i && i + n <= |s|
    ensures s[1..][i - 1..i - 1 + n] == s[i..i + n]
  {
  }

  /** `pat` occurs in `s` at index `i`. */
  predicate OccursAt(s: string, pat: string, i: nat) {
    i + |pat| <= |s| && s[i..i + |pat|] == pat
  }

  /** One-character patterns occur exactly where the character does. */
  lemma OccursChar(s: string, c: char)
    ensures Occurs(s, [c]) <==> c in s
  {
    if c in s {
      var i :| 0 <= i < |s| && s[i] == c;
      assert OccursAt(s, [c], i);
    }
    if Occurs(s, [c]) {
      var i: nat :| i <= |s| && OccursAt(s, [c], i);
      assert s[i] == s[i..i + 1][0] == c;
    }
  }

  /** `pat` occurs somewhere in `s` (Python's `pat in s`). */
  predicate Occurs(s: string, pat: string) {
    exists i: nat | i <= |s| :: OccursAt(s, pat, i)
  }

  /** The index of the first occurrence of `pat` in `s` (Python's `s.find(pat)`), if any. */
  function IndexOf(s: string, pat: string): (r: Option<nat>)
    ensures r.Some? ==> OccursAt(s, pat, r.value)
    ensures r.Some? ==> forall j: nat :: j < r.value ==> !OccursAt(s, pat, j)
    ensures r.None? <==> !Occurs(s, pat)
    decreases |s|
  {
    if |s| < |pat| then None
    else if s[..|pat|] == pat then Some(0)
    else
      var rest := IndexOf(s[1..], pat);
      assert forall j: nat :: 0 < j ==> (OccursAt(s, pat, j) <==> OccursAt(s[1..], pat, j - 1)) by {
        forall j: nat | 0 < j ensures OccursAt(s, pat, j) <==> OccursAt(s[1..], pat, j - 1) {
          if j + |pat| <= |s| {
            TailSlice(s, j, |pat|);
          }
        }
      }
      assert !OccursAt(s, pat, 0);
      assert rest.None? ==> !Occurs(s, pat);
      match rest
      case None => None
      case Some(k) => Some(k + 1)
  }

  /**
   * Python's `s.replace(pat, v)` for a non-empty pattern: every occurrence of
   * `pat`, found left to right without overlap, replaced by `v`.
   */
  function Replace(s: string, pat: string, v: string): string
    requires pat != []
    decreases |s|
  {
    if |s| < |pat| then s
    else if s[..|pat|] == pat then v + Replace(s[|pat|..], pat, v)
    else [s[0]] + Replace(s[1..], pat, v)
  }

  /** A text in which the pattern does not occur is left unchanged. */
  lemma {:induction false} ReplaceAbsent(s: string, pat: string, v: string)
    requires pat != [] && !Occurs(s, pat)
    ensures Replace(s, pat, v) == s
    decreases |s|
  {
    if |pat| <= |s| {
      assert !OccursAt(s, pat, 0);
      assert !Occurs(s[1..], pat) by {
        if Occurs(s[1..], pat) {
          var i: nat :| i <= |s[1..]| && OccursAt(s[1..], pat, i);
          TailSlice(s, i + 1, |pat|);
          assert OccursAt(s, pat, i + 1);
        }
      }
      ReplaceAbsent(s[1..], pat, v);
    }
  }

  /**
   * The first occurrence is replaced, the text before it is kept, and the
   * scan resumes right after it.
   */
  lemma {:induction false} ReplaceFirst(a: string, pat: string, b: string, v: string)
    requires pat != []
    requires forall j: nat :: j < |a| ==> !OccursAt(a + pat + b, pat, j)
    ensures Replace(a + pat + b, pat, v) == a + v + Replace(b, pat, v)
    decreases |a|
  {
    var s := a + pat + b;
    if a == [] {
      assert s == pat + b;
      assert s[..|pat|] == pat;
      assert s[|pat|..] == b;
    } else {
      assert !OccursAt(s, pat, 0);
      assert s[..|pat|] != pat;
      var s1 := a[1..] + pat + b;
      assert s[1..] == s1;
      forall j: nat | j < |a| - 1 ensures !OccursAt(s1, pat, j) {
        assert !OccursAt(s, pat, j + 1);
        if j + |pat| <= |s1| {
          TailSlice(s, j + 1, |pat|);
        }
      }
      ReplaceFirst(a[1..], pat, b, v);
      assert Replace(s, pat, v) == [s[0]] + Replace(s1, pat, v);
      assert [a[0]] + a[1..] == a;
      assert [s[0]] + (a[1..] + v + Replace(b, pat, v)) == a + v + Replace(b, pat, v);
    }
  }
}
