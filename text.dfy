/**
 * The string primitives of Rust's `str` that the handler relies on:
 * `contains`, `split(char)`, `join`, `trim` and `split_whitespace`.
 * Strings are sequences of Unicode scalar values, as Rust's `char`.
 */
module Text {

  /** Unicode White_Space, the class `char::is_whitespace` tests and `trim` and
      `split_whitespace` use. */
  predicate IsWhitespace(c: char) {
    var n := c as int;
    (0x09 <= n <= 0x0D) || n == 0x20 || n == 0x85 || n == 0xA0 || n == 0x1680
    || (0x2000 <= n <= 0x200A) || n == 0x2028 || n == 0x2029 || n == 0x202F
    || n == 0x205F || n == 0x3000
  }

  predicate AllWhitespace(s: string) {
    forall k :: 0 <= k < |s| ==> IsWhitespace(s[k])
  }

  predicate NoWhitespace(s: string) {
    forall k :: 0 <= k < |s| ==> !IsWhitespace(s[k])
  }

  /** `char::is_numeric` is a large Unicode table (categories Nd, Nl, No); the model
      keeps it abstract except on ASCII, where it holds exactly of '0'..'9'. */
  type NumericTest = f: char -> bool | forall c: char :: c as int < 0x80 ==> (f(c) <==> '0' <= c <= '9')
    witness (c: char) => '0' <= c <= '9'

  // ---------------------------------------------------------------- contains

  /** `s.contains(p)`: p occurs somewhere in s (the empty pattern occurs everywhere). */
  predicate Contains(s: string, p: string)
    decreases |s|
  {
    p <= s || (s != [] && Contains(s[1..], p))
  }

  predicate OccursAt(s: string, p: string, i: nat) {
    i + |p| <= |s| && s[i..i + |p|] == p
  }

  lemma {:induction false} ContainsIff(s: string, p: string)
    ensures Contains(s, p) <==> exists i: nat :: OccursAt(s, p, i)
    decreases |s|
  {
    if s == [] {
      if p == [] { assert OccursAt(s, p, 0); }
    } else {
      ContainsIff(s[1..], p);
      if p <= s { assert OccursAt(s, p, 0); }
      if Contains(s[1..], p) {
        var i: nat :| OccursAt(s[1..], p, i);
        assert s[i + 1..i + 1 + |p|] == s[1..][i..i + |p|];
        assert OccursAt(s, p, i + 1);
      }
      forall i: nat | OccursAt(s, p, i) ensures Contains(s, p) {
        if i == 0 {
          assert s[..|p|] == p;
        } else {
          assert s[1..][i - 1..i - 1 + |p|] == s[i..i + |p|];
          assert OccursAt(s[1..], p, i - 1);
        }
      }
    }
  }

  /** A pattern longer than the text never occurs in it. */
  lemma {:induction false} ContainsLonger(s: string, p: string)
    requires |s| < |p|
    ensures !Contains(s, p)
    decreases |s|
  {
    if s != [] { ContainsLonger(s[1..], p); }
  }

  // ---------------------------------------------------------------- split / join

  /** `s.split(sep)`: the pieces between separators, always at least one
      (`"".split(sep)` is `[""]`, a trailing separator yields a final `""`). */
  function Split(s: string, sep: char): (r: seq<string>)
    ensures |r| >= 1
    ensures forall k :: 0 <= k < |r| ==> sep !in r[k]
    decreases |s|
  {
    if s == [] then [[]]
    else
      var rest := Split(s[1..], sep);
      if s[0] == sep then [[]] + rest
      else [[s[0]] + rest[0]] + rest[1..]
  }

  /** `pieces.join(sep)`; the empty list joins to the empty string. */
  function Join(pieces: seq<string>, sep: char): string
    decreases |pieces|
  {
    if pieces == [] then []
    else if |pieces| == 1 then pieces[0]
    else pieces[0] + [sep] + Join(pieces[1..], sep)
  }

  /** Splitting then joining gives the text back. */
  lemma {:induction false} JoinSplit(s: string, sep: char)
    ensures Join(Split(s, sep), sep) == s
    decreases |s|
  {
    if s != [] {
      JoinSplit(s[1..], sep);
      var rest := Split(s[1..], sep);
      if s[0] != sep {
        if |rest| == 1 {
          assert Split(s, sep) == [[s[0]] + rest[0]];
        } else {
          assert Split(s, sep)[1..] == rest[1..];
        }
      } else {
        assert Split(s, sep)[1..] == rest;
      }
    }
  }

  /** A separator splits the text into the pieces of either side. */
  lemma {:induction false} SplitAroundSeparator(a: string, b: string, sep: char)
    ensures Split(a + [sep] + b, sep) == Split(a, sep) + Split(b, sep)
    decreases |a|
  {
    if a == [] {
      assert a + [sep] + b == [sep] + b;
      assert ([sep] + b)[1..] == b;
    } else {
      assert (a + [sep] + b)[1..] == a[1..] + [sep] + b;
      SplitAroundSeparator(a[1..], b, sep);
    }
  }

  /** A text without the separator is one piece. */
  lemma {:induction false} SplitWithoutSeparator(s: string, sep: char)
    requires sep !in s
    ensures Split(s, sep) == [s]
    decreases |s|
  {
    if s != [] {
      assert sep !in s[1..];
      SplitWithoutSeparator(s[1..], sep);
      assert s == [s[0]] + s[1..];
    }
  }

  /** A text holding the separator splits into at least two pieces. */
  lemma SplitAtSeparator(s: string, sep: char)
    requires sep in s
    ensures |Split(s, sep)| >= 2
  {
    JoinSplit(s, sep);
    var r := Split(s, sep);
    assert |r| == 1 ==> sep !in Join(r, sep);
  }

  /** The pieces of every string of a list, in order. */
  function SplitEach(xs: seq<string>, sep: char): (r: seq<string>)
    ensures xs != [] ==> |r| >= |xs|
    decreases |xs|
  {
    if xs == [] then [] else Split(xs[0], sep) + SplitEach(xs[1..], sep)
  }

  /** Splitting each string of two lists is splitting each of the first, then each of the second. */
  lemma {:induction false} SplitEachAppend(xs: seq<string>, ys: seq<string>, sep: char)
    ensures SplitEach(xs + ys, sep) == SplitEach(xs, sep) + SplitEach(ys, sep)
    decreases |xs|
  {
    if xs == [] {
      assert xs + ys == ys;
    } else {
      assert (xs + ys)[1..] == xs[1..] + ys;
      SplitEachAppend(xs[1..], ys, sep);
    }
  }

  /** The pieces of a list are those of the strings before position k, then those of
      string k, then those of the strings after it. */
  lemma SplitEachAround(xs: seq<string>, k: nat, sep: char)
    requires k < |xs|
    ensures SplitEach(xs, sep) == SplitEach(xs[..k], sep) + Split(xs[k], sep) + SplitEach(xs[k + 1..], sep)
  {
    var before, after := xs[..k], xs[k + 1..];
    assert xs == before + ([xs[k]] + after);
    SplitEachAppend(before, [xs[k]] + after, sep);
    SplitEachAppend([xs[k]], after, sep);
    assert SplitEach([xs[k]], sep) == Split(xs[k], sep) + SplitEach([], sep);
  }

  /** Splitting a join on the same separator splits each joined piece. */
  lemma {:induction false} SplitJoin(xs: seq<string>, sep: char)
    requires xs != []
    ensures Split(Join(xs, sep), sep) == SplitEach(xs, sep)
    decreases |xs|
  {
    if |xs| == 1 {
      assert SplitEach(xs[1..], sep) == [];
    } else {
      SplitAroundSeparator(xs[0], Join(xs[1..], sep), sep);
      SplitJoin(xs[1..], sep);
    }
  }

  /** When no piece holds the separator, splitting each changes nothing. */
  lemma {:induction false} SplitEachWithoutSeparator(xs: seq<string>, sep: char)
    requires forall k :: 0 <= k < |xs| ==> sep !in xs[k]
    ensures SplitEach(xs, sep) == xs
    decreases |xs|
  {
    if xs != [] {
      SplitWithoutSeparator(xs[0], sep);
      SplitEachWithoutSeparator(xs[1..], sep);
    }
  }

  /** Joining strings free of the separator and splitting again gives them back. */
  lemma SplitOfJoin(xs: seq<string>, sep: char)
    requires xs != []
    requires forall k :: 0 <= k < |xs| ==> sep !in xs[k]
    ensures Split(Join(xs, sep), sep) == xs
  {
    SplitJoin(xs, sep);
    SplitEachWithoutSeparator(xs, sep);
  }

  // ---------------------------------------------------------------- trim

  /** Length of the leading whitespace run of s. */
  function LeadingWhitespace(s: string): (n: nat)
    ensures n <= |s|
    ensures AllWhitespace(s[..n])
    ensures n < |s| ==> !IsWhitespace(s[n])
    decreases |s|
  {
    if s == [] || !IsWhitespace(s[0]) then 0
    else
      var m := LeadingWhitespace(s[1..]);
      assert forall k :: 1 <= k < 1 + m ==> s[k] == s[1..][..m][k - 1];
      1 + m
  }

  /** Length of the trailing whitespace run of s. */
  function TrailingWhitespace(s: string): (n: nat)
    ensures n <= |s|
    ensures AllWhitespace(s[|s| - n..])
    ensures n < |s| ==> !IsWhitespace(s[|s| - 1 - n])
    decreases |s|
  {
    if s == [] || !IsWhitespace(s[|s| - 1]) then 0
    else
      var init := s[..|s| - 1];
      var m := TrailingWhitespace(init);
      assert s[|s| - 1 - m..] == init[|init| - m..] + [s[|s| - 1]];
      1 + m
  }

  /** r is s with an all-whitespace prefix of length i and an all-whitespace suffix removed. */
  predicate TrimmedAt(s: string, r: string, i: nat) {
    i + |r| <= |s| && s[i..i + |r|] == r && AllWhitespace(s[..i]) && AllWhitespace(s[i + |r|..])
  }

  /** `s.trim()`: the text with leading and trailing Unicode whitespace removed, which
      `TrimSpec` describes. */
  function Trim(s: string): string {
    var t := s[LeadingWhitespace(s)..];
    t[..|t| - TrailingWhitespace(t)]
  }

  /** The trimmed text is a slice of s between two all-whitespace runs, and neither of its
      ends is whitespace. */
  lemma TrimSpec(s: string)
    ensures var r := Trim(s);
      r == [] || (!IsWhitespace(r[0]) && !IsWhitespace(r[|r| - 1]))
    ensures exists i: nat :: TrimmedAt(s, Trim(s), i)
  {
    var i := LeadingWhitespace(s);
    var t := s[i..];
    var j := TrailingWhitespace(t);
    var r := t[..|t| - j];
    assert r == Trim(s);
    if r != [] {
      assert r[0] == s[i];
      assert r[|r| - 1] == t[|t| - 1 - j];
    }
    assert s[i..i + |r|] == r;
    assert s[i + |r|..] == t[|t| - j..];
    assert TrimmedAt(s, r, i);
  }

  /** Trimming twice is trimming once. */
  lemma TrimIdempotent(s: string)
    ensures Trim(Trim(s)) == Trim(s)
  {
    var r := Trim(s);
    var r' := Trim(r);
    TrimSpec(s);
    TrimSpec(r);
    var i: nat :| TrimmedAt(r, r', i);
    if r != [] {
      assert i == 0 && i + |r'| == |r|;
      assert r[0..|r|] == r;
    }
  }

  /** The leading whitespace run ends at the first character that is not whitespace. */
  lemma {:induction false} LeadingWhitespaceExact(s: string, n: nat)
    requires n <= |s| && AllWhitespace(s[..n])
    requires n < |s| ==> !IsWhitespace(s[n])
    ensures LeadingWhitespace(s) == n
    decreases n
  {
    if n > 0 {
      assert s[0] == s[..n][0];
      assert s[1..][..n - 1] == s[1..n];
      assert forall k :: 0 <= k < n - 1 ==> s[1..n][k] == s[..n][k + 1];
      LeadingWhitespaceExact(s[1..], n - 1);
    }
  }

  // ---------------------------------------------------------------- split_whitespace

  /** Length of the leading run of non-whitespace characters of s. */
  function WordLength(s: string): (n: nat)
    ensures n <= |s|
    ensures NoWhitespace(s[..n])
    ensures n < |s| ==> IsWhitespace(s[n])
    ensures s != [] && !IsWhitespace(s[0]) ==> n >= 1
    decreases |s|
  {
    if s == [] || IsWhitespace(s[0]) then 0
    else
      var m := WordLength(s[1..]);
      assert forall k :: 1 <= k < 1 + m ==> s[k] == s[1..][..m][k - 1];
      1 + m
  }

  /** The leading word ends at the first whitespace character. */
  lemma {:induction false} WordLengthExact(s: string, n: nat)
    requires n <= |s| && NoWhitespace(s[..n])
    requires n < |s| ==> IsWhitespace(s[n])
    ensures WordLength(s) == n
    decreases n
  {
    if n > 0 {
      assert s[0] == s[..n][0];
      assert s[1..][..n - 1] == s[1..n];
      assert forall k :: 0 <= k < n - 1 ==> s[1..n][k] == s[..n][k + 1];
      WordLengthExact(s[1..], n - 1);
    }
  }

  /** `s.split_whitespace()`: the maximal non-whitespace runs of s, in order. */
  function SplitWhitespace(s: string): (r: seq<string>)
    ensures forall k :: 0 <= k < |r| ==> r[k] != [] && NoWhitespace(r[k])
    decreases |s|
  {
    var t := s[LeadingWhitespace(s)..];
    if t == [] then []
    else
      var w := WordLength(t);
      [t[..w]] + SplitWhitespace(t[w..])
  }

  /** A text has no whitespace-separated pieces exactly when it is all whitespace. */
  lemma SplitWhitespaceEmpty(s: string)
    ensures SplitWhitespace(s) == [] <==> AllWhitespace(s)
  {
    var i := LeadingWhitespace(s);
    if i < |s| {
      assert s[i..] != [];
    } else {
      assert s[..i] == s;
    }
  }
}
