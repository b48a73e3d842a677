/**
 * Stage 1 of the handler: split the extracted report text into lines, drop report
 * boilerplate and bare page numbers, and trim what is left.
 */
module NoiseFilter {
  import opened Text

  /** The thirteen phrases whose presence anywhere in a line marks it as boilerplate. */
  const Boilerplate: seq<string> := [
    "Foreclosure Sales",
    "Information Reported as of:",
    "Property Address",
    "Property City",
    "Sale Date",
    "Sale Time",
    "Continued Date/Time",
    "Opening Bid",
    "Sale Location(City)",
    "Civil Case No.",
    "Firm File#",
    "Property Zip",
    "13160 Foster, Ste. 100"
  ]

  /** Lines equal to one of these are page numbers. */
  const PageNumbers: seq<string> := ["1", "2", "3", "4", "5", "6", "7", "8", "9"]

  /** A line the filter drops. The page-number test compares the line before trimming. */
  predicate IsNoise(line: string) {
    (exists k :: 0 <= k < |Boilerplate| && Contains(line, Boilerplate[k])) || line in PageNumbers
  }

  /** The filter/map chain over the lines: noise dropped, survivors trimmed. */
  function FilterNoise(lines: seq<string>): (r: seq<string>)
    ensures |r| <= |lines|
    decreases |lines|
  {
    if lines == [] then []
    else
      var last := lines[|lines| - 1];
      FilterNoise(lines[..|lines| - 1]) + (if IsNoise(last) then [] else [Trim(last)])
  }

  /** The positions of the lines that are not noise, in increasing order. */
  function KeptIndices(lines: seq<string>): (m: seq<nat>)
    ensures forall k :: 0 <= k < |m| ==> m[k] < |lines|
    decreases |lines|
  {
    if lines == [] then []
    else KeptIndices(lines[..|lines| - 1]) + (if IsNoise(lines[|lines| - 1]) then [] else [|lines| - 1])
  }

  /** The kept positions increase. */
  lemma {:induction false} KeptIndicesIncrease(lines: seq<string>)
    ensures forall k, l :: 0 <= k < l < |KeptIndices(lines)| ==> KeptIndices(lines)[k] < KeptIndices(lines)[l]
    decreases |lines|
  {
    if lines != [] {
      KeptIndicesIncrease(lines[..|lines| - 1]);
      KeptIndicesStep(lines);
    }
  }

  /** A position is kept exactly when its line is not noise. */
  lemma {:induction false} KeptIndicesExact(lines: seq<string>)
    ensures forall i :: 0 <= i < |lines| ==> (i in KeptIndices(lines) <==> !IsNoise(lines[i]))
    decreases |lines|
  {
    if lines != [] {
      var init, last := lines[..|lines| - 1], lines[|lines| - 1];
      var m, mi := KeptIndices(lines), KeptIndices(init);
      KeptIndicesExact(init);
      KeptIndicesStep(lines);
      forall i | 0 <= i < |lines|
        ensures i in m <==> !IsNoise(lines[i])
      {
        if i < |init| {
          assert init[i] == lines[i];
          assert i in m <==> i in mi;
        } else {
          assert i !in mi;
        }
      }
    }
  }

  lemma FilterNoiseStep(lines: seq<string>)
    requires lines != []
    ensures FilterNoise(lines) == FilterNoise(lines[..|lines| - 1])
      + (if IsNoise(lines[|lines| - 1]) then [] else [Trim(lines[|lines| - 1])])
  {
  }

  lemma KeptIndicesStep(lines: seq<string>)
    requires lines != []
    ensures KeptIndices(lines) == KeptIndices(lines[..|lines| - 1])
      + (if IsNoise(lines[|lines| - 1]) then [] else [|lines| - 1])
  {
  }

  /** The filter keeps exactly the non-noise lines, in their order, each trimmed. */
  lemma {:induction false} FilterNoiseKeeps(lines: seq<string>)
    ensures |FilterNoise(lines)| == |KeptIndices(lines)|
    ensures forall k :: 0 <= k < |KeptIndices(lines)| ==>
      FilterNoise(lines)[k] == Trim(lines[KeptIndices(lines)[k]])
    decreases |lines|
  {
    if lines != [] {
      var init, last := lines[..|lines| - 1], lines[|lines| - 1];
      FilterNoiseKeeps(init);
      var f, m := FilterNoise(lines), KeptIndices(lines);
      var fi, mi := FilterNoise(init), KeptIndices(init);
      FilterNoiseStep(lines);
      KeptIndicesStep(lines);
      forall k | 0 <= k < |m|
        ensures f[k] == Trim(lines[m[k]])
      {
        if k < |mi| {
          assert f[k] == fi[k] && m[k] == mi[k];
          assert lines[mi[k]] == init[mi[k]];
        }
      }
    }
  }

  /** The lines of the report text that survive the filter. */
  function FilterLines(text: string): seq<string> {
    FilterNoise(Split(text, '\n'))
  }

  /** A line that holds one of the boilerplate phrases is noise whatever else it holds. */
  lemma BoilerplateIsNoise(before: string, k: nat, after: string)
    requires k < |Boilerplate|
    ensures IsNoise(before + Boilerplate[k] + after)
  {
    var line := before + Boilerplate[k] + after;
    assert OccursAt(line, Boilerplate[k], |before|);
    ContainsIff(line, Boilerplate[k]);
  }

  /** A report of a single line that is noise leaves no lines. */
  lemma NoiseLineLeavesNothing(line: string)
    requires '\n' !in line && IsNoise(line)
    ensures FilterLines(line) == []
  {
    SplitWithoutSeparator(line, '\n');
  }

  /** Lines, none holding a line break, that are all noise. */
  predicate NoiseLines(lines: seq<string>) {
    forall k :: 0 <= k < |lines| ==> '\n' !in lines[k] && IsNoise(lines[k])
  }

  /** Lines that are all noise filter to nothing. */
  lemma {:induction false} AllNoiseLeavesNothing(lines: seq<string>)
    requires forall k :: 0 <= k < |lines| ==> IsNoise(lines[k])
    ensures FilterNoise(lines) == []
    decreases |lines|
  {
    if lines != [] {
      AllNoiseLeavesNothing(lines[..|lines| - 1]);
      FilterNoiseStep(lines);
    }
  }

  /** A report text made of noise lines only, joined by line breaks, leaves no lines. */
  lemma NoiseTextLeavesNothing(lines: seq<string>)
    requires lines != []
    requires NoiseLines(lines)
    ensures FilterLines(Join(lines, '\n')) == []
  {
    var text := Join(lines, '\n');
    SplitOfJoin(lines, '\n');
    assert Split(text, '\n') == lines;
    AllNoiseLeavesNothing(lines);
    assert FilterNoise(lines) == [];
    assert FilterLines(text) == FilterNoise(Split(text, '\n'));
  }

  /** A report header, title, column name and page number, is a text of noise lines. */
  lemma HeaderIsNoiseText()
    ensures NoiseLines(["Foreclosure Sales", "Sale Date", "1"])
    ensures Join(["Foreclosure Sales", "Sale Date", "1"], '\n') == "Foreclosure Sales" + "\n" + "Sale Date" + "\n" + "1"
  {
    var lines := ["Foreclosure Sales", "Sale Date", "1"];
    forall k | 0 <= k < |lines| ensures '\n' !in lines[k] && IsNoise(lines[k]) {
      if k == 0 {
        BoilerplateIsNoise([], 0, []);
        assert [] + Boilerplate[0] + [] == lines[0];
      } else if k == 1 {
        BoilerplateIsNoise([], 4, []);
        assert [] + Boilerplate[4] + [] == lines[1];
      } else {
        assert lines[2] == PageNumbers[0];
      }
    }
    assert lines[1..] == ["Sale Date", "1"] && lines[1..][1..] == ["1"];
    assert Join(lines[1..], '\n') == "Sale Date" + "\n" + "1";
  }

  /** A report whose only line is the report title leaves no lines. */
  lemma TitleOnlyLeavesNothing()
    ensures FilterLines("Foreclosure Sales") == []
  {
    BoilerplateIsNoise([], 0, []);
    assert [] + Boilerplate[0] + [] == "Foreclosure Sales";
    NoiseLineLeavesNothing("Foreclosure Sales");
  }

  /** A report of a single line that is not noise leaves that line, trimmed. */
  lemma CleanLineSurvives(line: string)
    requires '\n' !in line && !IsNoise(line)
    ensures FilterLines(line) == [Trim(line)]
  {
    SplitWithoutSeparator(line, '\n');
  }

  /** The empty line holds no boilerplate phrase, is not a page number, and trims to itself. */
  lemma EmptyLineIsKept()
    ensures !IsNoise("")
    ensures Trim("") == ""
  {
    forall k | 0 <= k < |Boilerplate| ensures !Contains("", Boilerplate[k]) {
      ContainsLonger("", Boilerplate[k]);
    }
    assert "" !in PageNumbers;
  }

  /** " 3" holds no boilerplate phrase and is not a page number, and trims to "3". */
  lemma PaddedPageNumber()
    ensures !IsNoise(" 3")
    ensures Trim(" 3") == "3"
  {
    forall k | 0 <= k < |Boilerplate| ensures !Contains(" 3", Boilerplate[k]) {
      ContainsLonger(" 3", Boilerplate[k]);
    }
    assert " 3" !in PageNumbers;
    assert LeadingWhitespace(" 3") == 1;
  }

  /** Trimming happens after the page-number test, so a padded page number survives
      the filter and comes out as the bare digit, while the bare digit is dropped. */
  lemma PaddedPageNumberSurvives()
    ensures FilterLines(" 3") == ["3"]
    ensures FilterLines("3") == []
  {
    PaddedPageNumber();
    CleanLineSurvives(" 3");
    assert "3" == PageNumbers[2];
    NoiseLineLeavesNothing("3");
  }
}
