# Foreclosure-sales report parser: a Dafny model

This project models the `get_southlaw_properties` handler of the `rpc` service
(`src/main.rs`), which turns the text of a foreclosure-sales report into fixed-schema
`Property` records. The handler has four stages:

1. **Noise filter.** The text is split on `\n`. Lines holding one of thirteen boilerplate
   phrases are dropped, and so are lines equal to `"1"` … `"9"`. The survivors are trimmed.
   (`NoiseFilter`, on top of the `str` primitives in `Text`.)
2. **Tokenisation.** The lines are joined with `|`, split on `|`, and the last entry is
   popped. (`Tokenize`)
3. **Field cycler.** A loop walks the tokens with a slot counter `idx` and a carried
   `county`. At `idx == 0` it pushes a new record stamped with state `"MO"`. A token that
   passes `is_street_address` fills both the county and the street slot, and the record then
   takes nine tokens. Any other token becomes the carried county and fills the county slot,
   and the record takes ten tokens. (`Street`, `Cycler`, `CyclerFacts`)
4. **Finalizer.** Each record's eleven content fields are concatenated in a fixed order,
   hashed with SHA-256 and rendered as lowercase hex. The record is then rebuilt through
   `Property::set` with that hex string as its `id`. (`Finalizer`)

`Handler.GetSouthlawProperties` chains the four stages. It is proved equal to the
specification function `Handler.Report`, and every record it returns carries state `"MO"`
and the 64-digit hash of its own content.

Modelling choices:

- **Records.** The `Property` struct has two models. The value is the datatype
  `PropertyRecord.Property`. The object that the loop updates in place through `last_mut`
  is the class `PropertyRecord.PropertyCell`, whose `Set` method assigns one field.
- **The loop.** `Cycler.Cycle` runs a `for` loop over a vector of such objects. It is
  proved against `Cycler.Records`, an independent description that cuts the token stream
  into records of `Width` tokens each.
- **Character tests.**
  - `char::is_whitespace` is the fixed Unicode White_Space list.
  - `char::is_numeric` is a parameter. Its Unicode table is large, so the model fixes it
    only on ASCII, where it holds exactly for `'0'..'9'`.
- **SHA-256** is a parameter: any function that maps bytes to 32 bytes. The UTF-8
  encoding of the hash input and the `{:x}` hex rendering are modelled exactly, each with
  a decoder and a round-trip lemma.

Facts about the handler's code that the model keeps:

- Every record's state is the literal `"MO"` (src/main.rs:287).
- An empty text, or a text whose lines are all boilerplate or page numbers, gives an empty
  list (`Handler.EmptyReport`, `Handler.BoilerplateReport`). The error variants in
  `src/errors.rs` are never constructed.
- In the street branch the county slot receives the street token itself
  (src/main.rs:288-295). The carried `county` variable is assigned (src/main.rs:298) but
  never written into a record (`CyclerFacts.CarriedCountyUnused`).
- The street test uses `char::is_numeric` (src/main.rs:204), which holds for more
  characters than the ASCII digits.

## Model

| member | source | states |
|---|---|---|
| `Text.Contains` | src/main.rs:172-184 | `line.contains(phrase)`; `Text.ContainsIff` describes it |
| `Text.ContainsIff` | src/main.rs:172-184 | `contains` holds exactly when the phrase occurs at some position of the line (both directions) |
| `Text.ContainsLonger` | src/main.rs:172-184 | a line shorter than a phrase never contains it |
| `Text.Split` | src/main.rs:171 | `split` yields at least one piece, and no piece holds the separator |
| `Text.Join` | src/main.rs:199 | `join("|")`; `Text.JoinSplit` and `Text.SplitJoin` describe it together with `split` |
| `Text.JoinSplit` | src/main.rs:208 | joining the pieces of a split with the separator gives the text back |
| `Text.SplitAroundSeparator` | src/main.rs:208 | splitting `a + sep + b` gives the pieces of `a` followed by those of `b` |
| `Text.SplitWithoutSeparator` | src/main.rs:208 | text without the separator splits into itself alone |
| `Text.SplitAtSeparator` | src/main.rs:208 | a text holding the separator splits into at least two pieces |
| `Text.SplitEachAppend` | src/main.rs:208 | the pieces of two lists of lines are the pieces of the first, then those of the second |
| `Text.SplitEachAround` | src/main.rs:208 | the pieces of a list are those before line `k`, then line `k`'s own, then those after it |
| `Text.SplitJoin` | src/main.rs:199-208 | splitting the `|`-join of the lines on `|` splits each line in turn |
| `Text.SplitOfJoin` | src/main.rs:171 | lines without the separator, joined and split again, come back unchanged |
| `Text.SplitEachWithoutSeparator` | src/main.rs:208 | when no line holds the separator, splitting each line changes nothing |
| `Text.LeadingWhitespace` | src/main.rs:195 | the leading run lies within the text, is all whitespace, and is followed by a non-whitespace character |
| `Text.TrailingWhitespace` | src/main.rs:195 | the trailing run lies within the text, is all whitespace, and is preceded by a non-whitespace character |
| `Text.Trim` | src/main.rs:195 | `line.trim()`; `Text.TrimSpec` describes it |
| `Text.TrimSpec` | src/main.rs:195 | `trim` removes an all-whitespace prefix and an all-whitespace suffix, and neither end of the result is whitespace |
| `Text.TrimIdempotent` | src/main.rs:195 | trimming twice is trimming once |
| `Text.LeadingWhitespaceExact` | src/main.rs:195 | any whitespace prefix followed by a non-whitespace character is the leading run |
| `Text.WordLength` | src/main.rs:201 | the first word has no whitespace, is followed by whitespace, and is non-empty when the text starts with a non-whitespace character |
| `Text.WordLengthExact` | src/main.rs:201 | any whitespace-free prefix followed by whitespace is the first word |
| `Text.SplitWhitespace` | src/main.rs:201 | every piece of `split_whitespace` is non-empty and has no whitespace |
| `Text.SplitWhitespaceEmpty` | src/main.rs:201 | `split_whitespace` yields nothing exactly when the text is all whitespace |
| `PropertyRecord.New` | src/main.rs:233-248 | `Property::new()` has every field empty |
| `PropertyRecord.PropertyCell.constructor` | src/main.rs:233-248 | a new record object holds the all-empty record |
| `PropertyRecord.PropertyCell.Set` | src/main.rs:251-277 | `set` updates the object in place to the record `Property.Set` describes |
| `PropertyRecord.Property.Set` | src/main.rs:251-277 | the setter's if-chain on values; `PropertyRecord.SetReplacesOneField` and `PropertyRecord.SetUnknownKey` describe it |
| `PropertyRecord.SetReplacesOneField` | src/main.rs:251-277 | key `n` in "0".."11" replaces field `n` (county … firm_file_number, state, id) and keeps the other eleven |
| `PropertyRecord.SetUnknownKey` | src/main.rs:251-277 | any other key leaves the record unchanged |
| `PropertyRecord.FieldsDetermine` | src/main.rs:216-229 | a record is determined by its twelve fields |
| `PropertyRecord.SetTwice` | src/main.rs:251-277 | setting a field twice keeps only the second value |
| `PropertyRecord.SetOwnValue` | src/main.rs:251-277 | setting a field to its current value changes nothing |
| `PropertyRecord.SlotKey` | src/main.rs:291 | `idx.to_string()` of a slot number below ten is that slot's setter key |
| `NoiseFilter.IsNoise` | src/main.rs:172-193 | the negation of the filter's condition; `NoiseFilter.KeptIndicesExact` and `NoiseFilter.BoilerplateIsNoise` describe it |
| `NoiseFilter.FilterLines` | src/main.rs:171-196 | the split on `\n` followed by the filter/map chain; `NoiseFilter.FilterNoiseKeeps` describes the chain |
| `NoiseFilter.FilterNoise` | src/main.rs:171-196 | the filter never returns more lines than it was given |
| `NoiseFilter.KeptIndices` | src/main.rs:171-194 | every kept position is a position of the input |
| `NoiseFilter.KeptIndicesIncrease` | src/main.rs:171-196 | the kept positions strictly increase, so the input order is preserved |
| `NoiseFilter.KeptIndicesExact` | src/main.rs:172-193 | a line is kept exactly when it holds no boilerplate phrase and is not one of "1".."9" |
| `NoiseFilter.FilterNoiseKeeps` | src/main.rs:171-196 | the output has one line per kept line, and each is the trimmed kept line |
| `NoiseFilter.BoilerplateIsNoise` | src/main.rs:172-184 | a line holding any boilerplate phrase is dropped, whatever surrounds it |
| `NoiseFilter.AllNoiseLeavesNothing` | src/main.rs:171-196 | lines that are all noise leave no lines |
| `NoiseFilter.NoiseTextLeavesNothing` | src/main.rs:171-196 | a text whose lines, joined by line breaks, are all noise leaves no lines |
| `NoiseFilter.HeaderIsNoiseText` | src/main.rs:172-193 | the title, the column name "Sale Date" and the page number "1" are all noise |
| `NoiseFilter.NoiseLineLeavesNothing` | src/main.rs:171-196 | a one-line text that is noise leaves no lines |
| `NoiseFilter.TitleOnlyLeavesNothing` | src/main.rs:172 | the report title alone leaves no lines |
| `NoiseFilter.CleanLineSurvives` | src/main.rs:171-196 | a one-line text that is not noise leaves that line, trimmed |
| `NoiseFilter.EmptyLineIsKept` | src/main.rs:171-196 | the empty line is not noise and trims to itself |
| `NoiseFilter.PaddedPageNumber` | src/main.rs:185-195 | `" 3"` is not noise and trims to `"3"` |
| `NoiseFilter.PaddedPageNumberSurvives` | src/main.rs:185-195 | the page-number test runs before trimming: `" 3"` comes out as `"3"` while `"3"` is dropped |
| `Tokenize.Tokens` | src/main.rs:199-209 | the join, split and pop; `Tokenize.TokensArePieces` describes it |
| `Tokenize.TokensArePieces` | src/main.rs:199-209 | the tokens are the `|`-pieces of all lines in order, minus the last piece; no lines give no tokens |
| `Tokenize.TokensWithoutPipes` | src/main.rs:199-209 | when no line holds `|`, the tokens are the lines minus the last one |
| `Tokenize.OneLineNoTokens` | src/main.rs:208-209 | a single line without `|` is popped, leaving no tokens |
| `Tokenize.PipeSplitsALine` | src/main.rs:199-209 | a line holding `|` that is not the last line gives all its `|`-pieces, at least two, as consecutive tokens after the pieces of the lines before it |
| `Tokenize.PipeExamples` | src/main.rs:199-209 | `["a|b", ""]` gives the tokens `a` and `b`; `["a|b"]` gives only `a`, because the pop takes the last line's last piece |
| `Street.IsStreetAddress` | src/main.rs:200-206 | `is_street_address`; `Street.StreetAddressIff` describes it |
| `Street.FirstPiece` | src/main.rs:201-205 | the first piece of `split_whitespace` is the first word after the leading whitespace, and a second piece exists exactly when non-whitespace follows it |
| `Street.StreetHasShape` | src/main.rs:200-206 | a street address is leading whitespace, an all-numeric word, whitespace, and more text |
| `Street.ShapeIsStreet` | src/main.rs:200-206 | text of that shape is a street address |
| `Street.StreetAddressIff` | src/main.rs:200-206 | `is_street_address` holds exactly when the text has that shape |
| `Street.BlankIsNotStreet` | src/main.rs:204 | empty or all-whitespace text is not a street address |
| `Street.NonNumericStartIsNotStreet` | src/main.rs:204 | text starting with a non-whitespace, non-numeric character is not a street address |
| `Street.StreetExamples` | src/main.rs:200-206 | "123 Main St" is a street address and "Jackson" is not |
| `Cycler.Record` | src/main.rs:285-305 | the record the loop builds from one chunk of tokens; `Cycler.RecordOpen`, `Cycler.RecordGrow` and `CyclerFacts.SlotsOfRecord` describe it |
| `Cycler.RecordsAppend` | src/main.rs:280-309 | after a whole number of records, the records and the carried county continue from the rest of the stream |
| `Cycler.OneChunk` | src/main.rs:285-309 | a stream no longer than its first record's width makes exactly one record |
| `Cycler.RecordOpen` | src/main.rs:285-301 | pushing a new record, stamping "MO" and writing the first token gives the one-token record |
| `Cycler.RecordGrow` | src/main.rs:302-305 | writing the next token into slot `idx` extends the record by that token, and `idx` stays below ten |
| `Cycler.OpenRecord` | src/main.rs:285-301 | the `idx == 0` branch pushes one fresh record holding the first token's record; it skips a slot and keeps the carried county exactly for a street address |
| `Cycler.WriteSlot` | src/main.rs:302-305 | the `idx != 0` branch writes into the last record, which exists, and no other record changes |
| `Cycler.Feed` | src/main.rs:285-308 | one pass of the loop body keeps the loop invariant: the records and the county are those of the tokens read so far, and `idx` is below ten |
| `Cycler.Cycle` | src/main.rs:210-309 | the loop returns exactly the chunked records `Records`, and the county it carries is `LastCounty` |
| `CyclerFacts.RecordsStamped` | src/main.rs:286-295 | every record has state "MO" and an empty id, and a street-led record has county equal to street |
| `CyclerFacts.SlotsOfRecord` | src/main.rs:285-305 | a record's slots are its tokens in order, then empty strings from `Property::new` |
| `CyclerFacts.RecordsKeepTokens` | src/main.rs:280-309 | no token is lost, duplicated or reordered: the records' slots are the tokens, then empty strings |
| `CyclerFacts.RecordsCount` | src/main.rs:280-309 | the record count lies between a tenth and a ninth of the token count, rounded up; no tokens give no records |
| `CyclerFacts.LastCountyIsACountyToken` | src/main.rs:296-301 | the carried county is the initial empty string or a token that failed the street test |
| `CyclerFacts.ExplicitCounty` | src/main.rs:285-309 | the ten-token Jackson stream makes one record with each token in schema order |
| `CyclerFacts.OakAvenueIsStreet` | src/main.rs:200-206 | "456 Oak Ave" is a street address |
| `CyclerFacts.OmittedCounty` | src/main.rs:285-309 | a record opening with "456 Oak Ave" has it as county and street, then city and zip, and empty strings where the stream ends |
| `CyclerFacts.CarriedCountyUnused` | src/main.rs:288-301 | after the Jackson record, a street-led record's county is its own street token, not "Jackson" |
| `Finalizer.Canonical` | src/main.rs:312-315 | the `format!` of the eleven content fields; `Finalizer.HashInputExample` and `Finalizer.SeparatorlessCollision` describe it |
| `Finalizer.Utf8` | src/main.rs:318 | the bytes `hasher.update` reads from the string; `Finalizer.Utf8RoundTrip` describes them |
| `Finalizer.EncodeChar` | src/main.rs:318 | a character's UTF-8 encoding takes one to four bytes |
| `Finalizer.DecodeEncodedChar` | src/main.rs:318 | decoding reads back the encoded character and its length |
| `Finalizer.Utf8RoundTrip` | src/main.rs:318 | decoding the UTF-8 bytes that are hashed gives the concatenated text back |
| `Finalizer.Utf8Injective` | src/main.rs:318 | different texts give different hash inputs |
| `Finalizer.Utf8Ascii` | src/main.rs:318 | ASCII text is hashed one byte per character |
| `Finalizer.Hex` | src/main.rs:333 | `{:x}` renders two digits per byte |
| `Finalizer.HexDigitsOnly` | src/main.rs:333 | the rendering uses only lowercase hexadecimal digits |
| `Finalizer.DigitValue` | src/main.rs:333 | a hex digit's value is below sixteen |
| `Finalizer.HexRoundTrip` | src/main.rs:333 | reading the hex rendering gives the digest bytes back |
| `Finalizer.IdFormat` | src/main.rs:312-333 | an id is 64 lowercase hex digits, and two ids are equal exactly when the digests of the two hash inputs are |
| `Finalizer.Finalize` | src/main.rs:321-335 | the closure of the finalizing map; `Finalizer.FinalizeSetsId` describes it |
| `Finalizer.FinalizeSetsId` | src/main.rs:321-335 | the rebuilt record is the input record with its id replaced by the content hash |
| `Finalizer.FinalizeAll` | src/main.rs:311-336 | the map returns as many records as it is given |
| `Finalizer.FinalizeAllKeeps` | src/main.rs:311-336 | record `k` of the output is record `k` of the input, with its id set to the content hash |
| `Finalizer.FinalizeIgnoresOldId` | src/main.rs:312-333 | the id depends only on the eleven content fields, not on the old id |
| `Finalizer.FinalizeIdempotent` | src/main.rs:311-336 | finalizing a finalized record changes nothing |
| `Finalizer.HashInputExample` | src/main.rs:312-315 | county A, street B, city C, state MO and 1 … 7 are hashed as the text "ABCMO1234567" |
| `Finalizer.SeparatorlessCollision` | src/main.rs:312-315 | with no separators, records differing only in where the county ends and the street begins get one id |
| `Finalizer.CollisionExample` | src/main.rs:312-315 | county "A" with street "BC" and county "AB" with street "C" are different records with one id |
| `Handler.Report` | src/main.rs:171-336 | the four stages composed; `Handler.GetSouthlawProperties` and `Handler.ReportStampsAndHashes` describe it |
| `Handler.ReportStampsAndHashes` | src/main.rs:171-336 | every returned record has state "MO" and, as id, the 64-digit hex hash of its own content |
| `Handler.ReportCount` | src/main.rs:199-336 | the number of returned records is fixed by the token count, to within the nine-or-ten record width |
| `Handler.GetSouthlawProperties` | src/main.rs:171-336 | the handler returns `Report` of the text; every record has state "MO" and a 64-digit id hashing its content |
| `Handler.NoLinesNoRecords` | src/main.rs:199-336 | a text whose lines are all filtered out yields no records |
| `Handler.NoTokensNoRecords` | src/main.rs:208-336 | a text that yields no tokens yields no records |
| `Handler.EmptyReportLines` | src/main.rs:171-196 | an empty text leaves one empty line after filtering |
| `Handler.EmptyReport` | src/main.rs:171-336 | an empty text gives an empty list, not an error |
| `Handler.BoilerplateReport` | src/main.rs:171-336 | a text whose every line holds a boilerplate phrase or is a bare page number gives an empty list, not an error |
| `Handler.HeaderOnlyReport` | src/main.rs:171-336 | the header text "Foreclosure Sales", "Sale Date", "1" gives an empty list |

## Left out

- The JSON-RPC server, its middleware, the health endpoint and the client calls in `main`
  (src/main.rs:102-155, 344-351): network plumbing.
- The download of the report and the PDF text extraction (src/main.rs:159-169): I/O and
  foreign libraries. The extracted text is the handler's input.
- The internals of SHA-256 (src/main.rs:317-319). The hash is the parameter `sha`, any
  function from bytes to 32 bytes.
- `char::is_numeric` beyond ASCII. It is the parameter `isNumeric`, fixed only on ASCII.
- The `println!` tracing in the loop (src/main.rs:290, 294, 299, 303) and the JSON
  serialisation of the result (src/main.rs:338): no logical content.
- The commented-out code at src/main.rs:1-89, and the check `Some(value).is_none()` at
  src/main.rs:281, which is always false.
- src/helpers.rs is not part of this model: it is a network fetch wrapper.
- src/errors.rs is not part of this model: its error enums are never constructed.
- In-place update in the finalizer: the rebuild's `set` calls on the closure-local
  `new_property` (src/main.rs:321-335) are modelled as value updates with `Property.Set`,
  not through `PropertyCell`. That record is never shared, so no aliasing is lost.
- The `usize` width of `idx` is not modelled: `idx` never exceeds ten.
