/**
 * The handler's local `is_street_address` test: a token is taken for a street
 * address when its first whitespace-separated piece is all numeric and at least
 * one more piece follows it.
 */
module Street {
  import opened Text

  /** Every character of s passes the numeric test. */
  predicate AllNumeric(isNumeric: NumericTest, s: string) {
    forall k :: 0 <= k < |s| ==> isNumeric(s[k])
  }

  /** `is_street_address(segment)`: the first piece of `split_whitespace` is numeric
      (an absent first piece gives false) and there is more than one piece. */
  predicate IsStreetAddress(isNumeric: NumericTest, segment: string) {
    var parts := SplitWhitespace(segment);
    (if parts == [] then false else AllNumeric(isNumeric, parts[0])) && |parts| > 1
  }

  /** The shape of a street address on the raw text: whitespace up to i, a numeric
      word s[i..j], then whitespace at j followed by something that is not whitespace. */
  predicate StreetShape(isNumeric: NumericTest, s: string, i: nat, j: nat) {
    i < j < |s| && AllWhitespace(s[..i]) && NoWhitespace(s[i..j]) && AllNumeric(isNumeric, s[i..j])
    && IsWhitespace(s[j]) && !AllWhitespace(s[j..])
  }

  /** Text that is not all whitespace has its leading whitespace end before its end. */
  lemma LeadingEndsEarly(s: string)
    requires !AllWhitespace(s)
    ensures LeadingWhitespace(s) < |s|
  {
    assert s[..|s|] == s;
  }

  /** `split_whitespace` takes the word after the leading whitespace, then splits the rest. */
  lemma SplitWhitespaceStep(s: string)
    requires LeadingWhitespace(s) < |s|
    ensures SplitWhitespace(s) ==
      [s[LeadingWhitespace(s)..][..WordLength(s[LeadingWhitespace(s)..])]]
      + SplitWhitespace(s[LeadingWhitespace(s)..][WordLength(s[LeadingWhitespace(s)..])..])
  {
  }

  /** The first word of a text that is not all whitespace is not empty and is followed by
      whitespace when anything follows it. */
  lemma FirstWordBounds(s: string)
    requires !AllWhitespace(s)
    ensures LeadingWhitespace(s) < |s|
    ensures 0 < WordLength(s[LeadingWhitespace(s)..])
    ensures LeadingWhitespace(s) + WordLength(s[LeadingWhitespace(s)..]) < |s| ==>
      IsWhitespace(s[LeadingWhitespace(s) + WordLength(s[LeadingWhitespace(s)..])])
  {
    LeadingEndsEarly(s);
    var i := LeadingWhitespace(s);
    assert s[i..][0] == s[i];
  }

  /** Taking w characters after position i is slicing s from i to i + w. A general sequence
      fact, kept as a lemma because the same assertion written inline in `FirstPiece` makes
      that proof too costly. */
  lemma SliceOfSuffix(s: string, i: nat, w: nat)
    requires i + w <= |s|
    ensures s[i..][..w] == s[i..i + w]
  {
  }

  /** The first piece `split_whitespace` yields is the word s[i..j] after the leading
      whitespace, and more pieces follow exactly when the text from j on is not all whitespace. */
  lemma FirstPiece(s: string) returns (i: nat, j: nat)
    requires !AllWhitespace(s)
    ensures i == LeadingWhitespace(s) && j == i + WordLength(s[i..])
    ensures i < j <= |s| && (j < |s| ==> IsWhitespace(s[j]))
    ensures SplitWhitespace(s) != [] && SplitWhitespace(s)[0] == s[i..j]
    ensures |SplitWhitespace(s)| > 1 <==> !AllWhitespace(s[j..])
  {
    LeadingEndsEarly(s);
    SplitWhitespaceStep(s);
    FirstWordBounds(s);
    i := LeadingWhitespace(s);
    j := i + WordLength(s[i..]);
    SliceOfSuffix(s, i, j - i);
    assert s[i..][j - i..] == s[j..];
    SplitWhitespaceEmpty(s[j..]);
  }

  /** A street address has street shape: the shape's word is the first piece. */
  lemma StreetHasShape(isNumeric: NumericTest, s: string) returns (i: nat, j: nat)
    requires IsStreetAddress(isNumeric, s)
    ensures StreetShape(isNumeric, s, i, j)
  {
    SplitWhitespaceEmpty(s);
    i, j := FirstPiece(s);
    assert |s[j..]| > 0;
  }

  /** The bounds of a street shape are the end of the leading whitespace and the end of
      the first word. */
  lemma ShapeBounds(isNumeric: NumericTest, s: string, i: nat, j: nat)
    requires StreetShape(isNumeric, s, i, j)
    ensures i == LeadingWhitespace(s) && j == i + WordLength(s[i..])
  {
    assert s[i] == s[i..j][0];
    LeadingWhitespaceExact(s, i);
    SliceOfSuffix(s, i, j - i);
    assert s[i..][j - i] == s[j];
    WordLengthExact(s[i..], j - i);
  }

  /** Text of street shape passes the street test, and the shape's bounds are unique. */
  lemma ShapeIsStreet(isNumeric: NumericTest, s: string, i: nat, j: nat)
    requires StreetShape(isNumeric, s, i, j)
    ensures IsStreetAddress(isNumeric, s)
    ensures i == LeadingWhitespace(s) && j == i + WordLength(s[i..])
  {
    ShapeBounds(isNumeric, s, i, j);
    assert !AllWhitespace(s) by { assert s[i] == s[i..j][0]; }
    var i', j' := FirstPiece(s);
    var parts := SplitWhitespace(s);
    assert i' == i && j' == j;
    assert parts[0] == s[i..j];
    assert AllNumeric(isNumeric, parts[0]);
    assert |parts| > 1;
  }

  /** The street test holds exactly of the texts of street shape. */
  lemma StreetAddressIff(isNumeric: NumericTest, s: string)
    ensures IsStreetAddress(isNumeric, s) <==> exists i: nat, j: nat :: StreetShape(isNumeric, s, i, j)
  {
    if IsStreetAddress(isNumeric, s) {
      var i, j := StreetHasShape(isNumeric, s);
    }
    if exists i: nat, j: nat :: StreetShape(isNumeric, s, i, j) {
      var i: nat, j: nat :| StreetShape(isNumeric, s, i, j);
      ShapeIsStreet(isNumeric, s, i, j);
    }
  }

  /** A text that is empty or all whitespace is never a street address. */
  lemma BlankIsNotStreet(isNumeric: NumericTest, s: string)
    requires AllWhitespace(s)
    ensures !IsStreetAddress(isNumeric, s)
  {
    SplitWhitespaceEmpty(s);
  }

  /** A text whose first character is neither whitespace nor numeric is never a street
      address; in particular a county name such as "Jackson". */
  lemma NonNumericStartIsNotStreet(isNumeric: NumericTest, s: string)
    requires s != [] && !IsWhitespace(s[0]) && !isNumeric(s[0])
    ensures !IsStreetAddress(isNumeric, s)
  {
    assert !AllWhitespace(s);
    var i, j := FirstPiece(s);
    assert i == 0;
    assert SplitWhitespace(s)[0][0] == s[0];
  }

  /** "123 Main St" is a street address and "Jackson" is not. */
  lemma StreetExamples(isNumeric: NumericTest)
    ensures IsStreetAddress(isNumeric, "123 Main St")
    ensures !IsStreetAddress(isNumeric, "Jackson")
  {
    var s := "123 Main St";
    assert s[..0] == [] && s[0..3] == "123" && s[3..] == " Main St";
    assert s[3..][1] == 'M';
    ShapeIsStreet(isNumeric, s, 0, 3);
    NonNumericStartIsNotStreet(isNumeric, "Jackson");
  }
}
