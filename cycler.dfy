/**
 * Stage 3 of the handler: the field cycler. A counter `idx` runs through the ten
 * record slots; at slot 0 a fresh record is pushed and the token is classified as a
 * street address (the record then starts at the street slot) or as a county name.
 *
 * The loop is the imperative `Cycle` over a vector of `PropertyCell` objects that
 * `set` updates in place; `Records` is an independent description of its result that
 * cuts the token stream into chunks of ten tokens (county-led record) or nine tokens
 * (street-led record).
 */
module Cycler {
  import opened Text
  import opened PropertyRecord
  import opened Street

  /** The region code every record is stamped with when it is pushed. */
  const State: string := "MO"

  function Min(a: nat, b: nat): nat { if a <= b then a else b }

  /** Slots the first token of a record skips: the street slot doubles as the county
      slot when the record opens with a street address. */
  function Offset(isNumeric: NumericTest, first: string): nat {
    if IsStreetAddress(isNumeric, first) then 1 else 0
  }

  /** Tokens one record takes from the stream. */
  function Width(isNumeric: NumericTest, first: string): nat {
    10 - Offset(isNumeric, first)
  }

  /** Token k of a chunk, or the empty string of `Property::new` when the stream ended before it. */
  function Pad(chunk: seq<string>, k: nat): string {
    if k < |chunk| then chunk[k] else ""
  }

  /** The record made from the tokens of one chunk. */
  function Record(isNumeric: NumericTest, chunk: seq<string>): Property
    requires chunk != []
  {
    var first := chunk[0];
    if IsStreetAddress(isNumeric, first) then
      Property("", State, first, first, Pad(chunk, 1), Pad(chunk, 2), Pad(chunk, 3), Pad(chunk, 4),
               Pad(chunk, 5), Pad(chunk, 6), Pad(chunk, 7), Pad(chunk, 8))
    else
      Property("", State, first, Pad(chunk, 1), Pad(chunk, 2), Pad(chunk, 3), Pad(chunk, 4),
               Pad(chunk, 5), Pad(chunk, 6), Pad(chunk, 7), Pad(chunk, 8), Pad(chunk, 9))
  }

  /** The records of a token stream: each record takes `Width` tokens, the last one
      whatever is left. */
  function Records(isNumeric: NumericTest, tokens: seq<string>): seq<Property>
    decreases |tokens|
  {
    if tokens == [] then []
    else
      var n := Min(Width(isNumeric, tokens[0]), |tokens|);
      [Record(isNumeric, tokens[..n])] + Records(isNumeric, tokens[n..])
  }

  /** The carried county after a token stream: the first token of the last record that
      did not open with a street address, or `carried` if there was none. */
  function LastCounty(isNumeric: NumericTest, carried: string, tokens: seq<string>): string
    decreases |tokens|
  {
    if tokens == [] then carried
    else
      var n := Min(Width(isNumeric, tokens[0]), |tokens|);
      var next := if IsStreetAddress(isNumeric, tokens[0]) then carried else tokens[0];
      LastCounty(isNumeric, next, tokens[n..])
  }

  /** The stream ends exactly at the end of a record. */
  predicate Boundary(isNumeric: NumericTest, tokens: seq<string>)
    decreases |tokens|
  {
    tokens == [] ||
    (Width(isNumeric, tokens[0]) <= |tokens| && Boundary(isNumeric, tokens[Width(isNumeric, tokens[0])..]))
  }

  // ---------------------------------------------------------------- chunking lemmas

  /** After a whole number of records, the records of the rest follow on, and the county
      carried out of the first part is carried into the rest. */
  lemma RecordsAppend(isNumeric: NumericTest, a: seq<string>, b: seq<string>)
    requires Boundary(isNumeric, a)
    ensures Records(isNumeric, a + b) == Records(isNumeric, a) + Records(isNumeric, b)
    ensures LastCounty(isNumeric, "", a + b) == LastCounty(isNumeric, LastCounty(isNumeric, "", a), b)
  {
    RecordsSplit(isNumeric, a, b);
    LastCountySplit(isNumeric, "", a, b);
  }

  /** Splitting a stream after its first record, when that record is complete, for a + b. */
  lemma FirstRecordOfAppend(isNumeric: NumericTest, a: seq<string>, b: seq<string>)
    requires a != [] && Width(isNumeric, a[0]) <= |a|
    ensures (a + b)[0] == a[0]
    ensures (a + b)[..Width(isNumeric, a[0])] == a[..Width(isNumeric, a[0])]
    ensures (a + b)[Width(isNumeric, a[0])..] == a[Width(isNumeric, a[0])..] + b
  {
  }

  /** A stream starts with the record of its first chunk. */
  lemma RecordsStep(isNumeric: NumericTest, t: seq<string>)
    requires t != []
    ensures Records(isNumeric, t) ==
      [Record(isNumeric, t[..Min(Width(isNumeric, t[0]), |t|)])]
      + Records(isNumeric, t[Min(Width(isNumeric, t[0]), |t|)..])
  {
  }

  /** Associativity of concatenation. A general sequence fact, kept as a lemma because the
      same assertion written inline in `RecordsSplit` makes that proof too costly. */
  lemma AppendAssoc(x: seq<Property>, y: seq<Property>, z: seq<Property>)
    ensures x + (y + z) == (x + y) + z
  {
  }

  lemma {:induction false} RecordsSplit(isNumeric: NumericTest, a: seq<string>, b: seq<string>)
    requires Boundary(isNumeric, a)
    ensures Records(isNumeric, a + b) == Records(isNumeric, a) + Records(isNumeric, b)
    decreases |a|
  {
    if a == [] {
      assert a + b == b;
    } else {
      var w := Width(isNumeric, a[0]);
      FirstRecordOfAppend(isNumeric, a, b);
      RecordsStep(isNumeric, a);
      RecordsStep(isNumeric, a + b);
      RecordsSplit(isNumeric, a[w..], b);
      AppendAssoc([Record(isNumeric, a[..w])], Records(isNumeric, a[w..]), Records(isNumeric, b));
    }
  }

  lemma {:induction false} LastCountySplit(isNumeric: NumericTest, c: string, a: seq<string>, b: seq<string>)
    requires Boundary(isNumeric, a)
    ensures LastCounty(isNumeric, c, a + b) == LastCounty(isNumeric, LastCounty(isNumeric, c, a), b)
    decreases |a|
  {
    if a == [] {
      assert a + b == b;
    } else {
      var w := Width(isNumeric, a[0]);
      FirstRecordOfAppend(isNumeric, a, b);
      var next := if IsStreetAddress(isNumeric, a[0]) then c else a[0];
      LastCountySplit(isNumeric, next, a[w..], b);
      assert LastCounty(isNumeric, c, a + b) == LastCounty(isNumeric, next, a[w..] + b);
      assert LastCounty(isNumeric, c, a) == LastCounty(isNumeric, next, a[w..]);
    }
  }

  /** A complete record extends a whole number of records to a whole number of records. */
  lemma {:induction false} BoundaryExtend(isNumeric: NumericTest, a: seq<string>, chunk: seq<string>)
    requires Boundary(isNumeric, a)
    requires chunk != [] && |chunk| == Width(isNumeric, chunk[0])
    ensures Boundary(isNumeric, a + chunk)
    decreases |a|
  {
    if a == [] {
      assert a + chunk == chunk;
      assert chunk[|chunk|..] == [];
    } else {
      var w := Width(isNumeric, a[0]);
      assert (a + chunk)[0] == a[0];
      assert (a + chunk)[w..] == a[w..] + chunk;
      BoundaryExtend(isNumeric, a[w..], chunk);
    }
  }

  /** A stream no longer than its first record makes that one record. */
  lemma OneChunk(isNumeric: NumericTest, c: string, chunk: seq<string>)
    requires chunk != [] && |chunk| <= Width(isNumeric, chunk[0])
    ensures Records(isNumeric, chunk) == [Record(isNumeric, chunk)]
    ensures LastCounty(isNumeric, c, chunk) == if IsStreetAddress(isNumeric, chunk[0]) then c else chunk[0]
  {
    assert chunk[..|chunk|] == chunk;
  }

  /** Writing the next token into the cycler's slot of a partly filled record gives the
      record of the longer chunk. */
  lemma RecordGrow(isNumeric: NumericTest, chunk: seq<string>, value: string)
    requires chunk != [] && |chunk| < Width(isNumeric, chunk[0])
    ensures |chunk| + Offset(isNumeric, chunk[0]) < 10
    ensures Record(isNumeric, chunk).Set(SlotKey(|chunk| + Offset(isNumeric, chunk[0])), value)
            == Record(isNumeric, chunk + [value])
  {
    var grown := chunk + [value];
    assert grown[0] == chunk[0];
    assert forall k :: 0 <= k < |chunk| ==> grown[k] == chunk[k];
    var idx := |chunk| + Offset(isNumeric, chunk[0]);
    SetReplacesOneField(Record(isNumeric, chunk), idx, value);
    FieldsDetermine(Record(isNumeric, chunk).Set(SlotKey(idx), value), Record(isNumeric, grown));
  }

  /** The record the cycler builds from the first token of a record. */
  lemma RecordOpen(isNumeric: NumericTest, value: string)
    ensures IsStreetAddress(isNumeric, value) ==>
      New().Set("10", State).Set(SlotKey(0), value).Set(SlotKey(1), value) == Record(isNumeric, [value])
    ensures !IsStreetAddress(isNumeric, value) ==>
      New().Set("10", State).Set(SlotKey(0), value) == Record(isNumeric, [value])
  {
  }

  /** Appending one record's tokens, complete or cut short, to a whole number of records. */
  lemma AppendChunk(isNumeric: NumericTest, done: seq<string>, chunk: seq<string>)
    requires Boundary(isNumeric, done)
    requires chunk != [] && |chunk| <= Width(isNumeric, chunk[0])
    ensures Records(isNumeric, done + chunk) == Records(isNumeric, done) + [Record(isNumeric, chunk)]
    ensures LastCounty(isNumeric, "", done + chunk)
            == if IsStreetAddress(isNumeric, chunk[0]) then LastCounty(isNumeric, "", done) else chunk[0]
    ensures |chunk| == Width(isNumeric, chunk[0]) ==> Boundary(isNumeric, done + chunk)
  {
    RecordsAppend(isNumeric, done, chunk);
    OneChunk(isNumeric, LastCounty(isNumeric, "", done), chunk);
    if |chunk| == Width(isNumeric, chunk[0]) {
      BoundaryExtend(isNumeric, done, chunk);
    }
  }

  // ---------------------------------------------------------------- the loop

  /** `(idx + 1) % 10` for the values the cycler's counter takes. */
  lemma WrapSlot(n: nat)
    requires n <= 10
    ensures n % 10 == if n == 10 then 0 else n
  {
  }

  /** The records the loop's vector holds, in order. */
  function Values(cells: seq<PropertyCell>): seq<Property>
    reads cells
    decreases |cells|
  {
    if cells == [] then [] else Values(cells[..|cells| - 1]) + [cells[|cells| - 1].Value()]
  }

  /** Records whose objects were not written keep their values. */
  twostate lemma ValuesUnchanged(cells: seq<PropertyCell>)
    requires unchanged(cells)
    ensures Values(cells) == old(Values(cells))
  {
  }

  /** The records a vector gained by at most one new record were allocated since `old`. */
  twostate lemma NewCells(before: seq<PropertyCell>, new after: seq<PropertyCell>)
    requires after == before || (|after| == |before| + 1 && after[..|before|] == before && fresh(after[|before|]))
    ensures fresh((set c | c in after) - (set c | c in before))
  {
    if after != before {
      assert forall c :: c in after ==> c in before || c == after[|before|];
    }
  }

  /** No record object appears twice in the vector. */
  predicate Distinct(cells: seq<PropertyCell>) {
    forall i, j :: 0 <= i < j < |cells| ==> cells[i] != cells[j]
  }

  /** The cycler's state after the tokens `done + chunk`: `done` holds the tokens of the
      complete records and `chunk` those of the record being filled, `idx` is the slot the
      next token goes to, and the records and the carried county are those of `Records` and
      `LastCounty`. */
  ghost predicate Filling(isNumeric: NumericTest, done: seq<string>, chunk: seq<string>,
                          properties: seq<Property>, idx: nat, county: string)
  {
    Boundary(isNumeric, done)
    && idx < 10
    && (idx == 0 <==> chunk == [])
    && (chunk != [] ==> |chunk| < Width(isNumeric, chunk[0]) && idx == |chunk| + Offset(isNumeric, chunk[0]))
    && properties == Records(isNumeric, done) + (if chunk == [] then [] else [Record(isNumeric, chunk)])
    && county == if chunk == [] || IsStreetAddress(isNumeric, chunk[0]) then LastCounty(isNumeric, "", done) else chunk[0]
  }

  /** Where one more token leaves the split between complete records and the record being filled. */
  ghost function Advance(isNumeric: NumericTest, done: seq<string>, chunk: seq<string>, value: string)
    : (r: (seq<string>, seq<string>))
    ensures r.0 + r.1 == done + chunk + [value]
  {
    var grown := chunk + [value];
    if |grown| == Width(isNumeric, grown[0]) then (done + grown, []) else (done, grown)
  }

  /** The state after a token has been written into the record being filled, once the
      counter `n` (not yet reduced modulo ten) has moved past it. */
  lemma Settle(isNumeric: NumericTest, done: seq<string>, chunk: seq<string>, value: string,
               properties: seq<Property>, n: nat, county: string)
    requires Boundary(isNumeric, done)
    requires var grown := chunk + [value];
      |grown| <= Width(isNumeric, grown[0]) && n == |grown| + Offset(isNumeric, grown[0])
      && properties == Records(isNumeric, done) + [Record(isNumeric, grown)]
      && county == if IsStreetAddress(isNumeric, grown[0]) then LastCounty(isNumeric, "", done) else grown[0]
    ensures Filling(isNumeric, Advance(isNumeric, done, chunk, value).0, Advance(isNumeric, done, chunk, value).1,
                    properties, n % 10, county)
  {
    var grown := chunk + [value];
    WrapSlot(n);
    if n == 10 {
      AppendChunk(isNumeric, done, grown);
    }
  }

  /** The `idx == 0` branch of the loop body: a fresh record is pushed and stamped "MO"; a
      street address is written into the county and street slots and `idx` skips a slot, any
      other token becomes the carried county and is written into the county slot. `idx'` is
      the last slot written. */
  method OpenRecord(isNumeric: NumericTest, cells: seq<PropertyCell>, county: string, value: string)
    returns (cells': seq<PropertyCell>, idx': nat, county': string)
    requires Distinct(cells)
    ensures Distinct(cells')
    ensures |cells'| == |cells| + 1 && cells'[..|cells|] == cells && fresh(cells'[|cells|])
    ensures cells'[|cells|].Value() == Record(isNumeric, [value])
    ensures idx' == Offset(isNumeric, value)
    ensures county' == if IsStreetAddress(isNumeric, value) then county else value
  {
    RecordOpen(isNumeric, value);
    idx', county' := 0, county;
    var p := new PropertyCell();
    cells' := cells + [p];
    p.Set("10", State);
    if IsStreetAddress(isNumeric, value) {
      p.Set(SlotKey(idx'), value);
      idx' := idx' + 1;
      p.Set(SlotKey(idx'), value);
    } else {
      county' := value;
      p.Set(SlotKey(idx'), value);
    }
    assert cells'[..|cells|] == cells;
  }

  /** The `idx != 0` branch of the loop body: the token is written into slot `idx` of the
      last record, which the chunk read so far has filled up to that slot. */
  method WriteSlot(isNumeric: NumericTest, cells: seq<PropertyCell>, idx: nat, value: string,
                   ghost front: seq<Property>, ghost chunk: seq<string>)
    requires cells != [] && Distinct(cells)
    requires chunk != [] && |chunk| < Width(isNumeric, chunk[0]) && idx == |chunk| + Offset(isNumeric, chunk[0])
    requires Values(cells) == front + [Record(isNumeric, chunk)]
    modifies cells[|cells| - 1]
    ensures Values(cells) == front + [Record(isNumeric, chunk + [value])]
  {
    var last := cells[|cells| - 1];
    ghost var init := cells[..|cells| - 1];
    assert last !in init;
    ghost var vs := Values(cells);
    assert vs == Values(init) + [last.Value()];
    assert vs[|vs| - 1] == last.Value() && vs[|vs| - 1] == Record(isNumeric, chunk);
    assert vs[..|vs| - 1] == Values(init) && vs[..|vs| - 1] == front;
    RecordGrow(isNumeric, chunk, value);
    last.Set(SlotKey(idx), value);
    ValuesUnchanged(init);
  }

  /** One pass of the loop body: a token is written into the slot `idx` names of the last
      record, a fresh record being pushed first when `idx` is 0; then `idx` moves on modulo ten. */
  method Feed(isNumeric: NumericTest, cells: seq<PropertyCell>, idx: nat, county: string, value: string,
              ghost done: seq<string>, ghost chunk: seq<string>)
    returns (cells': seq<PropertyCell>, idx': nat, county': string)
    requires Distinct(cells)
    requires Filling(isNumeric, done, chunk, Values(cells), idx, county)
    modifies if cells == [] then {} else {cells[|cells| - 1]}
    ensures Distinct(cells')
    ensures fresh((set c | c in cells') - (set c | c in cells))
    ensures Filling(isNumeric, Advance(isNumeric, done, chunk, value).0, Advance(isNumeric, done, chunk, value).1,
                    Values(cells'), idx', county')
  {
    ghost var front := Records(isNumeric, done);
    if idx == 0 {
      cells', idx', county' := OpenRecord(isNumeric, cells, county, value);
      NewCells(cells, cells');
      ValuesUnchanged(cells);
      assert Values(cells') == Values(cells) + [cells'[|cells|].Value()];
      assert [value] == chunk + [value];
      Settle(isNumeric, done, chunk, value, Values(cells'), idx' + 1, county');
      idx' := (idx' + 1) % 10;
    } else {
      WriteSlot(isNumeric, cells, idx, value, front, chunk);
      cells' := cells;
      NewCells(cells, cells');
      assert (chunk + [value])[0] == chunk[0];
      Settle(isNumeric, done, chunk, value, Values(cells'), idx + 1, county);
      idx', county' := (idx + 1) % 10, county;
    }
  }

  lemma PrefixStep(entries: seq<string>, i: nat, before: seq<string>, after: seq<string>)
    requires i < |entries| && entries[..i] == before && after == before + [entries[i]]
    ensures entries[..i + 1] == after
  {
    assert entries[..i + 1] == entries[..i] + [entries[i]];
  }

  /** The cycling loop over the tokens: it returns the records and the final value of the
      carried county. Every write goes to a record that exists, `idx` stays below ten, and
      the result is the chunking `Records`; the carried county is never written into a record. */
  method Cycle(isNumeric: NumericTest, entries: seq<string>) returns (properties: seq<Property>, county: string)
    ensures properties == Records(isNumeric, entries)
    ensures county == LastCounty(isNumeric, "", entries)
  {
    var idx: nat := 0;
    county := "";
    var cells: seq<PropertyCell> := [];
    ghost var done: seq<string> := [];
    ghost var chunk: seq<string> := [];
    for i := 0 to |entries|
      invariant entries[..i] == done + chunk
      invariant Distinct(cells) && fresh(set c | c in cells)
      invariant Filling(isNumeric, done, chunk, Values(cells), idx, county)
    {
      cells, idx, county := Feed(isNumeric, cells, idx, county, entries[i], done, chunk);
      ghost var next := Advance(isNumeric, done, chunk, entries[i]);
      PrefixStep(entries, i, done + chunk, next.0 + next.1);
      done, chunk := next.0, next.1;
    }
    // The finalizer walks `properties.to_owned()`: the values the records hold.
    properties := Values(cells);
    assert entries[..|entries|] == entries;
    if chunk != [] {
      AppendChunk(isNumeric, done, chunk);
    } else {
      assert done + chunk == done;
    }
  }
}
