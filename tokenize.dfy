/**
 * Stage 2 of the handler: the filtered lines are joined with `|`, split again on `|`,
 * and the last entry is popped.
 */
module Tokenize {
  import opened Text

  const Pipe: char := '|'

  /** The token list the field cycler walks. `split` always yields at least one entry,
      so the pop always removes one. */
  function Tokens(lines: seq<string>): seq<string> {
    var entries := Split(Join(lines, Pipe), Pipe);
    entries[..|entries| - 1]
  }

  /** The tokens are the `|`-separated pieces of every line, in order, without the last piece. */
  lemma TokensArePieces(lines: seq<string>)
    ensures lines == [] ==> Tokens(lines) == []
    ensures lines != [] ==> Tokens(lines) == SplitEach(lines, Pipe)[..|SplitEach(lines, Pipe)| - 1]
  {
    if lines != [] { SplitJoin(lines, Pipe); }
  }

  /** When no line holds a `|`, the tokens are the lines without the last one. */
  lemma TokensWithoutPipes(lines: seq<string>)
    requires forall k :: 0 <= k < |lines| ==> Pipe !in lines[k]
    ensures lines == [] ==> Tokens(lines) == []
    ensures lines != [] ==> Tokens(lines) == lines[..|lines| - 1]
  {
    TokensArePieces(lines);
    SplitEachWithoutSeparator(lines, Pipe);
  }

  /** A single line without `|` is all popped: one line gives no tokens. */
  lemma OneLineNoTokens(line: string)
    requires Pipe !in line
    ensures Tokens([line]) == []
  {
    assert Join([line], Pipe) == line;
    SplitWithoutSeparator(line, Pipe);
  }

  /** A line holding a `|` that is not the last line gives all its `|`-pieces, at least two,
      as consecutive tokens, starting after the pieces of the lines before it. */
  lemma PipeSplitsALine(lines: seq<string>, k: nat) returns (i: nat)
    requires k < |lines| - 1 && Pipe in lines[k]
    ensures |Split(lines[k], Pipe)| >= 2
    ensures i == |SplitEach(lines[..k], Pipe)|
    ensures i + |Split(lines[k], Pipe)| <= |Tokens(lines)|
    ensures Tokens(lines)[i..i + |Split(lines[k], Pipe)|] == Split(lines[k], Pipe)
  {
    SplitAtSeparator(lines[k], Pipe);
    SplitEachAround(lines, k, Pipe);
    var pre, mid, post := SplitEach(lines[..k], Pipe), Split(lines[k], Pipe), SplitEach(lines[k + 1..], Pipe);
    assert |post| >= 1;
    TokensArePieces(lines);
    i := |pre|;
    assert Tokens(lines)[i..i + |mid|] == (pre + (mid + post))[i..i + |mid|];
  }

  /** A two-line example: the first line's pieces are both tokens, and the final empty line
      is popped; as the last line, "a|b" loses its last piece instead. */
  lemma PipeExamples()
    ensures Tokens(["a|b", ""]) == ["a", "b"]
    ensures Tokens(["a|b"]) == ["a"]
  {
    TokensArePieces(["a|b", ""]);
    TokensArePieces(["a|b"]);
    SplitWithoutSeparator("a", Pipe);
    SplitWithoutSeparator("b", Pipe);
    SplitAroundSeparator("a", "b", Pipe);
    assert "a" + [Pipe] + "b" == "a|b";
    assert SplitEach(["a|b", ""], Pipe) == ["a", "b", ""];
    assert SplitEach(["a|b"], Pipe) == ["a", "b"];
  }
}
