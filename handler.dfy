/**
 * The `get_southlaw_properties` handler from the extracted report text on: filter the
 * lines, tokenise, cycle the tokens into records, and give every record its content id.
 * Fetching the report and extracting its text are outside the model; the text is the
 * method's input.
 */
module Handler {
  import opened Text
  import opened PropertyRecord
  import opened NoiseFilter
  import opened Tokenize
  import opened Cycler
  import opened CyclerFacts
  import opened Finalizer

  /** The records the handler returns for a report text, stage by stage. */
  function Report(isNumeric: NumericTest, sha: Sha256, text: string): seq<Property> {
    FinalizeAll(sha, Records(isNumeric, Tokens(FilterLines(text))))
  }

  /** Every returned record carries state "MO" and, as id, the 64-digit lowercase hex hash
      of its own content. */
  lemma ReportStampsAndHashes(isNumeric: NumericTest, sha: Sha256, text: string)
    ensures forall k :: 0 <= k < |Report(isNumeric, sha, text)| ==>
      Report(isNumeric, sha, text)[k].state == "MO"
    ensures forall k :: 0 <= k < |Report(isNumeric, sha, text)| ==>
      Report(isNumeric, sha, text)[k].id == Id(sha, Report(isNumeric, sha, text)[k])
    ensures forall k :: 0 <= k < |Report(isNumeric, sha, text)| ==>
      |Report(isNumeric, sha, text)[k].id| == 64
  {
    var ps := Records(isNumeric, Tokens(FilterLines(text)));
    var rs := Report(isNumeric, sha, text);
    RecordsStamped(isNumeric, Tokens(FilterLines(text)));
    FinalizeAllKeeps(sha, ps);
    forall k | 0 <= k < |rs|
      ensures rs[k].state == "MO" && rs[k].id == Id(sha, rs[k]) && |rs[k].id| == 64
    {
      assert rs[k] == ps[k].(id := Id(sha, ps[k]));
      assert Canonical(rs[k]) == Canonical(ps[k]);
      IdFormat(sha, ps[k], ps[k]);
    }
  }

  /** The number of records is fixed by the number of tokens to within the record width. */
  lemma ReportCount(isNumeric: NumericTest, sha: Sha256, text: string)
    ensures |Tokens(FilterLines(text))| <= 10 * |Report(isNumeric, sha, text)|
    ensures 9 * |Report(isNumeric, sha, text)| <= |Tokens(FilterLines(text))| + 8
  {
    RecordsCount(isNumeric, Tokens(FilterLines(text)));
  }

  /** The handler: the filter, the join/split/pop, the field cycling loop and the finalizing map. */
  method GetSouthlawProperties(isNumeric: NumericTest, sha: Sha256, text: string) returns (result: seq<Property>)
    ensures result == Report(isNumeric, sha, text)
    ensures forall k :: 0 <= k < |result| ==> result[k].state == "MO"
    ensures forall k :: 0 <= k < |result| ==> result[k].id == Id(sha, result[k]) && |result[k].id| == 64
  {
    var lines := FilterLines(text);
    var entries := Tokens(lines);
    var properties, county := Cycle(isNumeric, entries);
    result := FinalizeAll(sha, properties);
    ReportStampsAndHashes(isNumeric, sha, text);
  }

  /** A report text that yields no tokens yields no records. */
  lemma NoTokensNoRecords(isNumeric: NumericTest, sha: Sha256, text: string)
    requires Tokens(FilterLines(text)) == []
    ensures Report(isNumeric, sha, text) == []
  {
  }

  /** A report text whose lines are all filtered out yields no records. */
  lemma NoLinesNoRecords(isNumeric: NumericTest, sha: Sha256, text: string)
    requires FilterLines(text) == []
    ensures Report(isNumeric, sha, text) == []
  {
    TokensArePieces([]);
    NoTokensNoRecords(isNumeric, sha, text);
  }

  /** An empty report text has one line, the empty line, and it survives the filter. */
  lemma EmptyReportLines()
    ensures FilterLines("") == [""]
  {
    EmptyLineIsKept();
    CleanLineSurvives("");
  }

  /** An empty report text is not an error: its one empty line is popped as the last entry,
      and no record is returned. */
  lemma EmptyReport(isNumeric: NumericTest, sha: Sha256)
    ensures Report(isNumeric, sha, "") == []
  {
    EmptyReportLines();
    OneLineNoTokens("");
    NoTokensNoRecords(isNumeric, sha, "");
  }

  /** A report whose every line holds a boilerplate phrase or is a bare page number is not
      an error either: no line survives and no record is returned. */
  lemma BoilerplateReport(isNumeric: NumericTest, sha: Sha256, lines: seq<string>)
    requires lines != []
    requires NoiseLines(lines)
    ensures Report(isNumeric, sha, Join(lines, '\n')) == []
  {
    var text := Join(lines, '\n');
    assert FilterLines(text) == [] by { NoiseTextLeavesNothing(lines); }
    NoLinesNoRecords(isNumeric, sha, text);
  }

  /** A report holding only its header, the title, a column name and a page number,
      returns no records. */
  lemma HeaderOnlyReport(isNumeric: NumericTest, sha: Sha256)
    ensures Report(isNumeric, sha, "Foreclosure Sales" + "\n" + "Sale Date" + "\n" + "1") == []
  {
    HeaderIsNoiseText();
    BoilerplateReport(isNumeric, sha, ["Foreclosure Sales", "Sale Date", "1"]);
  }
}
