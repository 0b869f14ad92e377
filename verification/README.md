# Movies CSV importer, modelled in Dafny

This project models the core of a one-shot import script. The script reads a
CSV file of movie records, normalises each all-text row into a typed
document, and bulk-loads the documents into a MongoDB collection in batches.
The modelled parts are those of `MoviesImporter`:

- the **record normaliser** `cleanMovieData`. It is a total map from a
  `RawMovieData` row to a `CleanMovieData` document, with a fixed fallback
  for every field.
- JavaScript's `parseInt` without a radix, as section 19.2.5 of the
  ECMAScript language specification defines it. It includes the
  "0x"/"0X" switch to base 16. The normaliser relies on it for five columns.
- the **list-field reader** `parseJsonField`:
  - the empty / blank / `"null"` guard;
  - the text rewrite that turns `'` into `"` and `None` into `null`;
  - the two decoding tiers (`JSON.parse`, then `eval`) with `[]` as the last
    resort.
- the **batch loader** `insertMoviesBatch`. It cuts the documents into
  contiguous chunks, sends them in order, and sums the inserted counts.
- the **clear-confirmation predicate** on the answer to "(y/N)".
- the record shapes of `src/types/Movie.ts`, as datatypes in module `Movie`.

Modules, one per file:

| module | file | contents |
|---|---|---|
| `Wrappers` | wrappers.dfy | `Option`, `Result` |
| `Movie` | movie.dfy | `Genre`, `ProductionCompany`, `ProductionCountry`, `SpokenLanguage`, `Keyword`, `RawMovie`, `CleanMovie`, and `JsDate` (a valid or invalid JavaScript `Date`) |
| `JsText` | js_text.dfy | ECMAScript white space, `trimStart`, `trim`, ASCII `toLowerCase` |
| `JsParseInt` | js_parse_int.dfy | `parseInt`, and decimal and hex printing as its partner |
| `ListField` | list_field.dfy | `parseJsonField` as written, and as intended |
| `Normaliser` | normaliser.dfy | `cleanMovieData`, and rendering a document back into a row |
| `Batch` | batch.dfy | chunking, the insert loop, `insertMoviesBatch` |
| `Prompt` | prompt.dfy | the y/yes predicate |

Code you cannot see is passed in as uninterpreted functions:

- `new Date(text)` and `parseFloat` are fields of `Normaliser.Foreign`.
- `JSON.parse` and `eval` are the fields of `ListField.Decoders`. Each returns
  `None` when the call throws, and otherwise a `JsValue`: an array, a falsy
  non-array or a truthy non-array.
- The collection's `insertMany` is a function from a chunk to the inserted
  count or an error (`Batch.Collection`).
- The clock's `new Date()` is the `now` parameter.

Three behaviours of the code are easy to misread, and the model keeps them
as written:

- `adult` compares case-sensitively (src/services/MoviesImporter.ts:84):
  only `"True"` and `"true"` give true, so `"TRUE"` gives false.
- Only an empty release date gives null (src/services/MoviesImporter.ts:82).
  A non-empty text that `new Date` cannot read gives an Invalid Date.
- A chunk's exception is caught and rethrown
  (src/services/MoviesImporter.ts:156-159), so the loop ends there and later
  chunks are never sent.

The one deliberate change to the code's logic is the list columns: the
normaliser uses the corrected list reader of "## Findings", which gives `[]`
where the code stores a value that is not an array. The number-width and
character-set abstractions (exact integers instead of doubles, ASCII-only
lower-casing, strings of Unicode scalar values) are listed under
"## Left out".

## Model

| member | source | states |
|---|---|---|
| JsText.TrimStartShape | src/services/MoviesImporter.ts:53 | Trimming the start removes exactly the leading white space. What it keeps is a suffix. What it drops is all white space. What it keeps does not start with white space. |
| JsText.TrimEmptyIffAllWhitespace | src/services/MoviesImporter.ts:53 | `trim()` gives `''` exactly when every character is ECMAScript white space or a line terminator, both directions. |
| JsText.ToLowerNormalises | src/services/MoviesImporter.ts:239 | Lower-casing leaves no capital letter, is idempotent, and leaves a string unchanged exactly when it has no capital letter. |
| JsParseInt.DigitRunIsLongestPrefix | src/services/MoviesImporter.ts:76 | The digits `parseInt` reads are the longest all-digit prefix: a prefix of the text, followed by the end or by a non-digit. |
| JsParseInt.DigitsValueOfNatDigits | src/services/MoviesImporter.ts:76 | Printing a natural in base 10 or 16 and reading the digits back gives the same number. |
| JsParseInt.DecimalPrefixReadsBack | src/services/MoviesImporter.ts:76-95 | `parseInt` of an integer printed in decimal, followed by text that does not continue the number, is that integer. So "120 min" gives 120, "7.5" gives 7, and "-3" gives -3. |
| JsParseInt.DecimalRoundTrip | src/services/MoviesImporter.ts:76-95 | `parseInt` reads back the plain decimal printing of every integer, which is what `String(n)` prints below 1e21 in magnitude. |
| JsParseInt.LeadingWhitespaceIgnored | src/services/MoviesImporter.ts:76-95 | Leading white space does not change the result of `parseInt`. |
| JsParseInt.HexPrefixReadsBase16 | src/services/MoviesImporter.ts:76-95 | With no radix, an optional '+' or '-', then "0x" or "0X", then any non-empty run of hex digits in either letter case (leading zeros allowed), then any text that does not start with a hex digit, is read as the base-16 value of the run with the sign applied. |
| JsParseInt.NoLeadingDigitIsNaN | src/services/MoviesImporter.ts:76-95 | Text whose first non-blank character is neither a digit nor a sign followed by a digit gives NaN. The column then holds 0. |
| ListField.QuotesToDouble | src/services/MoviesImporter.ts:59 | Replacing quotes keeps the length and leaves no `'`. Each `'` becomes `"`, and every other character is kept in place. |
| ListField.ReplaceNone | src/services/MoviesImporter.ts:59 | The `None` to `null` scan keeps the length. Every character it changes becomes one of the letters of `null`. |
| ListField.ReplaceNoneLeavesNone | src/services/MoviesImporter.ts:59 | After the scan no `None` is left anywhere, including any formed across a replaced `null`. |
| ListField.RewriteNormalises | src/services/MoviesImporter.ts:59 | The full rewrite keeps the length and leaves neither `'` nor `None`. Only quotes and letters of a replaced `None` change. |
| ListField.RewriteFixedPoints | src/services/MoviesImporter.ts:59 | The rewrite leaves a string unchanged exactly when it holds no `'` and no `None`, both directions. |
| ListField.RewriteIdempotent | src/services/MoviesImporter.ts:59 | Rewriting twice is the same as rewriting once. |
| ListField.ParseJsonFieldAsWritten | src/services/MoviesImporter.ts:52-70 | Empty, blank or `"null"` input gives `[]`. Otherwise the `JSON.parse` result of the rewritten text is returned unchecked when that parse succeeds. When `JSON.parse` throws and `eval` succeeds, the result is the evaluated value, or `[]` when that value is falsy. When both tiers throw the result is `[]`. A falsy non-array comes back only from the JSON tier. |
| ListField.NoneCellYieldsNull | src/services/MoviesImporter.ts:59-60 | As written, the cell `None` gets past the guard, becomes `null`, and the reader returns JavaScript `null` instead of a list. |
| ListField.ParseJsonField | src/services/MoviesImporter.ts:52-70 | The intended reader always returns a list. It returns `[]` for the guarded inputs and when both tiers throw, and the decoded array when `JSON.parse` gives one. Its result is the as-written reader's value when that is an array, and `[]` when it is not. |
| ListField.NoneCellYieldsEmpty | src/services/MoviesImporter.ts:52-70 | With the intended reader the cell `None` gives `[]`. |
| Normaliser.CleanMovieData | src/services/MoviesImporter.ts:72-113 | The default table, field by field (listed below the table). For each list column it also states how the stored list relates to what the code stores. |
| Normaliser.NormaliseRenderRoundTrip | src/services/MoviesImporter.ts:72-113 | Writing a document as a row and normalising it gives back the same document. This needs a non-empty status and equal stamps. It also needs the date, float and list printers to write this document's values in a form `new Date`, `parseFloat` and `JSON.parse` read back. So the default table loses nothing. |
| Normaliser.EmptyRowGetsDefaults | src/services/MoviesImporter.ts:75-112 | An entirely empty row still normalises, to all defaults: integer zeros, float zeros (given that `parseFloat("")` is NaN), `''`, "Unknown", not adult, no release date, empty lists. |
| Prompt.ShouldClear | src/services/MoviesImporter.ts:239 | The collection is cleared exactly for "y" or "yes" in any mix of cases, both directions. Anything else, including padded or empty answers, keeps it. |
| Batch.ChunkSizes | src/services/MoviesImporter.ts:145-146 | Every chunk is non-empty and holds at most `batchSize` documents. |
| Batch.ChunksConcat | src/services/MoviesImporter.ts:145-146 | The chunks joined in order are the input: nothing is lost, repeated or reordered. |
| Batch.ChunkCount | src/services/MoviesImporter.ts:145-146 | There are ceil(N / batchSize) chunks. |
| Batch.ChunkAt | src/services/MoviesImporter.ts:145-146 | Chunk k is `movies.slice(k*B, (k+1)*B)`, cut short at the end. |
| Batch.SendChunks | src/services/MoviesImporter.ts:142-154 | The loop sends a prefix of the chunks, in order. It succeeds exactly when every chunk is accepted, and then it has sent all of them and returns the sum of their counts. Otherwise it stops at the first rejected chunk and returns that chunk's error. |
| Batch.InsertMoviesBatch | src/services/MoviesImporter.ts:137-160 | Without a collection it fails with "not connected" before sending anything. Otherwise it behaves as `SendChunks`, with the driver's error wrapped. |

`Normaliser.CleanMovieData` states the following default table:

- The five integer columns hold the `parseInt` value when there is one, and 0 for NaN.
- The two float columns hold the `parseFloat` value, and 0 when it fails.
- The text columns are copied.
- `status` becomes "Unknown" exactly when it is empty.
- `adult` is true exactly for "True" and "true".
- `releaseDate` is null exactly when the text is empty, and otherwise is what `new Date` makes of it.
- The five lists are what the corrected list reader returns. That is the code's value when it is an array, and `[]` otherwise.
- Both stamps are the same `now`.

## Left out

- Connecting to MongoDB, `deleteMany`, `createIndexes`, `getCollectionStats` and the final disconnect. These are driver I/O; only `insertMany` is kept, as a function from a chunk to a count or an error.
- Reading the CSV file (`readCsvFile`), the `readline` prompt itself, console logging, `process.exit` and the environment-variable configuration of the constructor. These are I/O.
- `processAndImport`, beyond the y/yes predicate. It is the sequence of I/O steps above. The `rows.map(cleanMovieData)` step calls `new Date()` once per row, so stamps can differ from row to row.
- The behaviour of `JSON.parse` and `eval`. They are foreign code, and `eval` runs arbitrary code. Both are uninterpreted decoders, and the model does not say which texts each accepts.
- `parseFloat` and `new Date(text)` are uninterpreted parameters, because they are floating-point and date parsing.
- JsParseInt.ParseInt: JavaScript numbers are doubles. `parseInt` loses precision above 2^53, and a digit run above about 1.8e308 gives `Infinity`, which `|| 0` keeps. The model reads the digits exactly, with unbounded integers. Its printing partner `DecimalString` is plain decimal; `String(n)` switches to exponent notation from 1e21 on (`String(1e21)` is `"1e+21"`, which `parseInt` reads as 1), and that notation is not modelled.
- JsText.ToLowerNormalises: only A-Z are lower-cased. `toLowerCase` also folds non-ASCII capitals, which can matter only for answers that are not "y"/"yes" anyway.
- Strings are sequences of Unicode scalar values, not UTF-16 code units.
- Normaliser.CleanMovieData: the list columns use the corrected reader (`ListField.ParseJsonField`), not the code's reader. The code stores whatever `JSON.parse` returns, unchecked: `null` for a cell `None` or ` null `, or an object for a cell such as `{'id': 1}`. It also stores whatever truthy value `eval` returns. The model stores `[]` in all these cases. The contract states, through `ListField.StoredAs`, that the stored list is the code's array when the code's value is an array, and `[]` only when it is not.
- Columns missing from a CSV row (`undefined`, which `|| ''` also turns into `''`) are modelled as the empty string.
- Batch.InsertMoviesBatch: it requires `batchSize > 0`. With 0 the source loop never advances, and a fractional or negative size is not modelled. `insertMany` is a pure function of the chunk, so the driver's state between calls (such as earlier inserts making a unique-key collision) is not modelled. Documents an unordered insert does write before rejecting a chunk are not counted.
- src/queries-example.ts, src/test-connection.ts and src/index.ts are not part of this model. They are demonstration and start-up scripts with no logic of the core.

## Findings

| source | as written | input that shows it | evidently intended | confidence | as-written member | corrected member |
|---|---|---|---|---|---|---|
| src/services/MoviesImporter.ts:59-60 | The guard lets the cell `None` through. The rewrite turns it into `null`, `JSON.parse("null")` is JavaScript `null`, and the reader returns `null` where its type promises a list. A cell holding spaces around `null` escapes the guard the same way. | the list cell `None` | a list in every case: `[]` for a null cell | not executed | ListField.NoneCellYieldsNull | ListField.NoneCellYieldsEmpty |
