/**
 * What the field cycler's result is made of: every record is stamped "MO" and has no id
 * yet, a street-led record repeats its first token in the county and street slots, the
 * tokens reappear in order in the record slots, and the number of records is fixed by
 * the number of tokens to within the nine-or-ten-token record width.
 */
module CyclerFacts {
  import opened Text
  import opened PropertyRecord
  import opened Street
  import opened Cycler

  /** The slots a record was filled from, in the order the cycler wrote them: a record
      whose county is a street address took its county and street from one token. */
  function Slots(isNumeric: NumericTest, p: Property): seq<string> {
    if IsStreetAddress(isNumeric, p.county) then
      [p.county, p.city, p.zip, p.saleDate, p.saleTime, p.continuedDateTime, p.openingBid,
       p.saleLocationCity, p.firmFileNumber]
    else
      [p.county, p.street, p.city, p.zip, p.saleDate, p.saleTime, p.continuedDateTime, p.openingBid,
       p.saleLocationCity, p.firmFileNumber]
  }

  /** The slots of a list of records, one record after the other. */
  function Flatten(isNumeric: NumericTest, ps: seq<Property>): seq<string>
    decreases |ps|
  {
    if ps == [] then [] else Slots(isNumeric, ps[0]) + Flatten(isNumeric, ps[1..])
  }

  /** Every record leaves the cycler with state "MO" and an empty id; one that opened with a
      street address has that address as county and street, and one that opened with a
      county name does not hold a street address in its county slot. */
  lemma {:induction false} RecordsStamped(isNumeric: NumericTest, tokens: seq<string>)
    ensures forall k :: 0 <= k < |Records(isNumeric, tokens)| ==>
      Records(isNumeric, tokens)[k].state == "MO" && Records(isNumeric, tokens)[k].id == ""
    ensures forall k :: 0 <= k < |Records(isNumeric, tokens)| ==>
      (IsStreetAddress(isNumeric, Records(isNumeric, tokens)[k].county) ==>
       Records(isNumeric, tokens)[k].street == Records(isNumeric, tokens)[k].county)
    decreases |tokens|
  {
    if tokens != [] {
      var n := Min(Width(isNumeric, tokens[0]), |tokens|);
      RecordsStamped(isNumeric, tokens[n..]);
      var rs := Records(isNumeric, tokens);
      assert rs[1..] == Records(isNumeric, tokens[n..]);
      assert tokens[..n][0] == tokens[0];
    }
  }

  /** One record's slots are its chunk's tokens, padded with empty strings to the record's width. */
  lemma SlotsOfRecord(isNumeric: NumericTest, chunk: seq<string>)
    requires chunk != [] && |chunk| <= Width(isNumeric, chunk[0])
    ensures |Slots(isNumeric, Record(isNumeric, chunk))| == Width(isNumeric, chunk[0])
    ensures Slots(isNumeric, Record(isNumeric, chunk))[..|chunk|] == chunk
    ensures forall k :: |chunk| <= k < Width(isNumeric, chunk[0]) ==> Slots(isNumeric, Record(isNumeric, chunk))[k] == ""
  {
    var s := Slots(isNumeric, Record(isNumeric, chunk));
    assert Record(isNumeric, chunk).county == chunk[0];
    assert forall k :: 0 <= k < |chunk| ==> s[k] == chunk[k];
  }

  /** A prefix followed by the matching suffix is the whole sequence. A general sequence
      fact, kept as a lemma because the same assertion written inline in `RecordsKeepTokens`
      makes that proof too costly. */
  lemma TakeDrop(s: seq<string>, n: nat)
    requires n <= |s|
    ensures s[..n] + s[n..] == s
  {
  }

  lemma FlattenStep(isNumeric: NumericTest, ps: seq<Property>)
    requires ps != []
    ensures Flatten(isNumeric, ps) == Slots(isNumeric, ps[0]) + Flatten(isNumeric, ps[1..])
  {
  }

  /** The slots of a chunk's record followed by those of the later records hold the chunk's
      tokens followed by the later tokens, with empty strings after the last token. */
  lemma SlotsThenRest(chunk: seq<string>, rest: seq<string>, head: seq<string>, tail: seq<string>)
    requires |chunk| <= |head| && head[..|chunk|] == chunk
    requires forall k :: |chunk| <= k < |head| ==> head[k] == ""
    requires rest != [] ==> |head| == |chunk|
    requires |rest| <= |tail| && tail[..|rest|] == rest
    requires forall k :: |rest| <= k < |tail| ==> tail[k] == ""
    ensures |chunk + rest| <= |head + tail|
    ensures (head + tail)[..|chunk + rest|] == chunk + rest
    ensures forall k :: |chunk + rest| <= k < |head + tail| ==> (head + tail)[k] == ""
  {
    if rest == [] {
      assert (head + tail)[..|chunk + rest|] == head[..|chunk|];
    } else {
      assert head == chunk;
    }
  }

  /** No token is lost, duplicated or reordered: the tokens are, in order, the slots of the
      records, and the slots past the last token are empty. */
  lemma {:induction false} RecordsKeepTokens(isNumeric: NumericTest, tokens: seq<string>)
    ensures |tokens| <= |Flatten(isNumeric, Records(isNumeric, tokens))|
    ensures Flatten(isNumeric, Records(isNumeric, tokens))[..|tokens|] == tokens
    ensures forall k :: |tokens| <= k < |Flatten(isNumeric, Records(isNumeric, tokens))| ==>
      Flatten(isNumeric, Records(isNumeric, tokens))[k] == ""
    decreases |tokens|
  {
    if tokens != [] {
      var n := Min(Width(isNumeric, tokens[0]), |tokens|);
      var chunk, rest := tokens[..n], tokens[n..];
      RecordsKeepTokens(isNumeric, rest);
      SlotsOfRecord(isNumeric, chunk);
      RecordsStep(isNumeric, tokens);
      FlattenStep(isNumeric, Records(isNumeric, tokens));
      TakeDrop(tokens, n);
      SlotsThenRest(chunk, rest, Slots(isNumeric, Record(isNumeric, chunk)), Flatten(isNumeric, Records(isNumeric, rest)));
    }
  }

  /** A record takes nine or ten tokens, the last one possibly fewer, so the records
      number between a tenth and a ninth of the tokens, rounded up. */
  lemma {:induction false} RecordsCount(isNumeric: NumericTest, tokens: seq<string>)
    ensures |tokens| <= 10 * |Records(isNumeric, tokens)|
    ensures 9 * |Records(isNumeric, tokens)| <= |tokens| + 8
    ensures tokens == [] <==> Records(isNumeric, tokens) == []
    decreases |tokens|
  {
    if tokens != [] {
      var n := Min(Width(isNumeric, tokens[0]), |tokens|);
      RecordsCount(isNumeric, tokens[n..]);
    }
  }

  /** The carried county is the initial value or a token that failed the street test. */
  lemma {:induction false} LastCountyIsACountyToken(isNumeric: NumericTest, carried: string, tokens: seq<string>)
    ensures var c := LastCounty(isNumeric, carried, tokens);
      c == carried || exists k :: 0 <= k < |tokens| && c == tokens[k] && !IsStreetAddress(isNumeric, tokens[k])
    decreases |tokens|
  {
    if tokens != [] {
      var n := Min(Width(isNumeric, tokens[0]), |tokens|);
      var next := if IsStreetAddress(isNumeric, tokens[0]) then carried else tokens[0];
      LastCountyIsACountyToken(isNumeric, next, tokens[n..]);
      var c := LastCounty(isNumeric, next, tokens[n..]);
      if c != next {
        var k :| 0 <= k < |tokens[n..]| && c == tokens[n..][k] && !IsStreetAddress(isNumeric, tokens[n..][k]);
        assert tokens[n + k] == tokens[n..][k];
      }
    }
  }

  // ---------------------------------------------------------------- scenarios

  /** The ten tokens of a record with an explicit county line. */
  const JacksonTokens: seq<string> :=
    ["Jackson", "123 Main St", "Kansas City", "64101", "01/02/2024", "10:00 AM", "", "$1,000", "Kansas City", "24-0001"]

  /** A county-led record takes ten tokens, one per slot in schema order. */
  lemma ExplicitCounty(isNumeric: NumericTest)
    ensures Records(isNumeric, JacksonTokens) ==
      [Property("", "MO", "Jackson", "123 Main St", "Kansas City", "64101", "01/02/2024", "10:00 AM", "",
                "$1,000", "Kansas City", "24-0001")]
    ensures LastCounty(isNumeric, "", JacksonTokens) == "Jackson"
    ensures Boundary(isNumeric, JacksonTokens)
  {
    NonNumericStartIsNotStreet(isNumeric, "Jackson");
    OneChunk(isNumeric, "", JacksonTokens);
    assert JacksonTokens[10..] == [];
  }

  /** "456 Oak Ave" passes the street test. */
  lemma OakAvenueIsStreet(isNumeric: NumericTest)
    ensures IsStreetAddress(isNumeric, "456 Oak Ave")
  {
    var s := "456 Oak Ave";
    assert s[..0] == [] && s[0..3] == "456" && s[3..] == " Oak Ave";
    assert s[3..][1] == 'O';
    ShapeIsStreet(isNumeric, s, 0, 3);
  }

  /** A record that opens with a street address has that token as county and street, the
      next tokens from the city slot on, and empty strings where the stream ran out. */
  lemma OmittedCounty(isNumeric: NumericTest)
    ensures Records(isNumeric, ["456 Oak Ave", "Topeka", "66603"]) ==
      [Property("", "MO", "456 Oak Ave", "456 Oak Ave", "Topeka", "66603", "", "", "", "", "", "")]
    ensures LastCounty(isNumeric, "", ["456 Oak Ave", "Topeka", "66603"]) == ""
  {
    OakAvenueIsStreet(isNumeric);
    OneChunk(isNumeric, "", ["456 Oak Ave", "Topeka", "66603"]);
  }

  /** The county carried from an earlier record is not written into a street-led record:
      after the Jackson record, the next record's county is its own street token. */
  lemma CarriedCountyUnused(isNumeric: NumericTest)
    ensures |Records(isNumeric, JacksonTokens + ["456 Oak Ave", "Topeka"])| == 2
    ensures Records(isNumeric, JacksonTokens + ["456 Oak Ave", "Topeka"])[1].county == "456 Oak Ave"
    ensures LastCounty(isNumeric, "", JacksonTokens + ["456 Oak Ave", "Topeka"]) == "Jackson"
  {
    ExplicitCounty(isNumeric);
    OakAvenueIsStreet(isNumeric);
    RecordsAppend(isNumeric, JacksonTokens, ["456 Oak Ave", "Topeka"]);
    OneChunk(isNumeric, "Jackson", ["456 Oak Ave", "Topeka"]);
  }
}
