# bitdb query and response encoding, in Dafny

bitdb is a thin Node.js reader over a MongoDB store of Bitcoin transactions. Each push
data field is kept twice: as `b<n>` (base64 of its bytes) and as `s<n>` (its utf8 text).
A caller hands `read` a query. `read` rewrites the literals of the query so that the
literals under `b<n>` fields match the stored base64. It runs the same lookup on the
`confirmed` and the `unconfirmed` collection. It re-encodes the fields of the returned
documents that the caller asked for. It then calls back with an envelope: success with
both result sets, or an error. As written, the callback is called twice when it throws on
the success envelope (see "Findings"), and never when a lookup does not settle.

The model has five modules:

- `Codec` (codec.dfy) supplies the three encodings the code relies on, in place of
  iconv-lite and Node's Buffer: hex, base64 and utf8, with their decoders. Bytes are
  integers 0..255, so that the bit arithmetic of base64 and utf8 stays linear.
  - Hex encodes in lower case, as Buffer does. Hex decoding reads pairs up to the first
    pair that is not two hex digits, and a lone trailing digit is dropped.
  - Base64 is section 4 of RFC 4648 with padding. Decoding is as lenient as Buffer's:
    characters outside the alphabet are skipped, '-' and '_' are read as 62 and 63, and
    the first '=' ends the input.
  - Utf8 follows RFC 3629. Decoding writes U+FFFD for each maximal subpart of an
    ill-formed sequence.
- `QueryEncoding` (query_encoding.dfy) models `Bitdb.encoding`.
  - The query is a tree of string leaves, objects and arrays. The parent chain is an
    explicit path of keys.
  - `GoverningKey` and the `Govern` loop give the field whose encoding applies to a leaf.
  - `LeafImage` and the `EncodeLeaf` method give what a leaf becomes.
  - `Transform` and the `EncodeTree` walk give what the whole tree becomes.
- `Lookup` (lookup.dfy) models `Bitdb.lookup`.
  - `PlanFor` chooses the driver calls.
  - `Reencoded`, with the `ReencodeDocument` and `ReencodeAll` loops, re-encodes returned
    documents.
  - `Settle` gives what one lookup's promise settles with, given the driver's reply.
- `Reader` (read.dfy) models `Bitdb.read`.
  - `Prepared` is the encoded query.
  - `All` models `Promise.all`.
  - `ReadAsWritten` and `Read` produce the callback invocations.
- `Wrappers` (wrappers.dfy) holds the `Option` type, which stands for JavaScript's
  `undefined`.

The code and its usage comment disagree in one place, and the model follows the code.
The usage comment at index.js:102-106 puts the field encodings directly under
`response`. The code reads them from `r.response.encoding` (index.js:172), and so does
the model (`Reader.Call.response`).

The example application's vector depends on its schema. Its request
`{b1: {$in: ["6d02", "6d0c"]}}` becomes `["bQI=", "bQw="]` because the application
passes `{b1: "hex"}` (`QueryEncoding.AppExample`). The literals carry no `0x` marker, so
without a schema they are read as utf8 text, and `"6d02"` becomes `"NmQwMg=="`
(`QueryEncoding.AppLiteralWithoutSchema`).

## Model

| member | source | states |
|---|---|---|
| Codec.ToBytes | index.js:78 | hex and base64 text give at most one byte per two, or three bytes per four, characters; utf8 text takes one to four bytes per character |
| Codec.Render | index.js:176 | bytes are written as two hex characters each, as four base64 characters per started group of three, or as at most one utf8 character each |
| Codec.HexEncode | index.js:176 | hex output has exactly two characters per byte |
| Codec.HexDecode | index.js:78 | hex input yields at most one byte per two characters |
| Codec.HexRoundTrip | index.js:176 | decoding the hex written for any bytes gives those bytes back |
| Codec.HexDecodeReadsPairs | index.js:78 | byte i is the value of characters 2i and 2i+1, all of them hex digits; decoding stops only at the end of the text, at a lone last digit or at the first pair that is not two hex digits |
| Codec.Base64Digit | index.js:78 | each digit value is written as the character of the standard alphabet that reads back as that value, with 62 as `+` and 63 as `/`, never the URL-safe `-` and `_` |
| Codec.Base64Encode | index.js:78 | base64 output is four characters for every started group of three bytes |
| Codec.Base64Padded | index.js:78 | base64 output is always whole groups of four characters |
| Codec.PaddingFills | index.js:78 | the padding is made of `=` only and has as many characters as the last group lacks bytes: none, one or two |
| Codec.Base64Digits | index.js:176 | the decoder reads at most one digit per character |
| Codec.Base64Decode | index.js:176 | base64 text gives at most three bytes for every four characters |
| Codec.Groups | index.js:78 | the base64 digits of n bytes number (4n+2)/3: four per full group, two or three for a short last group |
| Codec.FromDigits | index.js:176 | four digits give three bytes; a last group of two or three digits gives one or two bytes; a lone digit gives none |
| Codec.SpelledDigits | index.js:176 | reading the characters written for digits, with padding after them, gives the digits back |
| Codec.GroupsRoundTrip | index.js:176 | the bytes rebuilt from the digits of any bytes are those bytes |
| Codec.Base64RoundTrip | index.js:176 | decoding the base64 written for any bytes gives those bytes back, so what the query encoder stores can be read back by the response re-encoder |
| Codec.Utf8EncodeChar | index.js:78 | each character takes one to four bytes |
| Codec.Utf8Encode | index.js:78 | utf8 of a text takes between one and four bytes per character |
| Codec.Utf8Decode | index.js:176 | decoding bytes yields at most one character per byte |
| Codec.EncodedCharDecodes | index.js:176 | the bytes of one character, whatever follows them, begin a well-formed sequence whose first byte announces exactly its length, and decode to that character |
| Codec.Utf8RoundTrip | index.js:176 | decoding the utf8 of any text gives the text back |
| Codec.BytesSurviveRender | index.js:176 | bytes written in hex or base64 and read back in the same encoding are unchanged |
| Codec.TextSurvivesUtf8 | index.js:176 | text read as utf8 and written back as utf8 is unchanged |
| QueryEncoding.GoverningKey | index.js:63-71 | the root has no governing field; a governing field is always one of the keys on the leaf's path; a leaf under a `$` or digit key is governed only by a `b<digits>` field |
| QueryEncoding.InputEncoding | index.js:53-75 | the schema's entry for the governing field, when there is one, is the encoding; otherwise the literal is read as hex exactly when it has the `0x` marker, and as utf8 otherwise |
| QueryEncoding.LeafImage | index.js:52-80 | a leaf under a `b<digits>` field becomes base64 text, whose length is a multiple of four; any other leaf becomes its marker-stripped token |
| QueryEncoding.Transform | index.js:50-83 | the rewritten tree keeps the kind of its root and the number of its elements or members (the full shape and leaf statements are `TransformKeepsShape` and `TransformRewritesLeaves`) |
| QueryEncoding.EncodeRoot | index.js:50-83 | what the caller's find or aggregate holds after encoding: a bare string root stays as it was, since traverse has no parent to write it through; any other root keeps its shape and has every leaf, in order, replaced by its image |
| QueryEncoding.NearestBase | index.js:65-70 | the climb finds no field exactly when no `b<digits>` key lies above; otherwise it finds the deepest one, with no such key between it and the leaf |
| QueryEncoding.Govern | index.js:63-71 | the while loop that climbs the parent chain returns the governing field `GoverningKey` defines |
| QueryEncoding.GoverningKeyRules | index.js:63-71 | a leaf under an ordinary key (even `s1`) is governed by that key; a leaf under a `$` or digit key is governed by the nearest `b<digits>` ancestor, with none in between, or by nothing when there is none |
| QueryEncoding.EncodeLeaf | index.js:52-81 | the per-leaf callback (sniff, climb, schema override, convert) computes `LeafImage` |
| QueryEncoding.EncodeTree | index.js:50-83 | the walk over the whole query computes `Transform` |
| QueryEncoding.EncodeItems | index.js:51 | the walk over an array rewrites element i at the path ending in index i, keeping the order |
| QueryEncoding.EncodeMembers | index.js:51 | the walk over an object rewrites each member under its own key, keeping keys and their order |
| QueryEncoding.TransformKeepsShape | index.js:50-83 | the rewritten query has the same keys in the same order, the same array lengths and the same nesting; only leaves change |
| QueryEncoding.TransformRewritesLeaves | index.js:50-83 | the leaves after the rewrite are the leaves before it, in traversal order and at the same paths, each replaced by its image |
| QueryEncoding.HexMarkerStripped | index.js:53-59 | a `0x`/`0X` literal always loses its marker, whatever governs it; it is read as hex unless the schema names an encoding for its governing field |
| QueryEncoding.PlainLiteralKept | index.js:53-80 | a literal without the marker keeps every character and is read as utf8 unless the schema names an encoding |
| QueryEncoding.LeafImageMeaning | index.js:77-80 | a leaf under a `b<digits>` field becomes base64 that decodes to exactly the token's bytes in the chosen encoding; any other leaf becomes its token |
| QueryEncoding.AppLeafImages | examples/app.js:4-5 | under `{b1: "hex"}` the literals `"6d02"` and `"6d0c"` below `b1` and `$in` become `"bQI="` and `"bQw="` |
| QueryEncoding.AppExample | examples/app.js:4-5 | with the schema `{b1: "hex"}`, `{b1: {$in: ["6d02", "6d0c"]}}` becomes `{b1: {$in: ["bQI=", "bQw="]}}` |
| QueryEncoding.AppLiteralWithoutSchema | index.js:53-79 | without a schema the same literal `"6d02"` is read as utf8 and becomes `"NmQwMg=="` |
| QueryEncoding.EncodingTwiceLosesLiteral | index.js:117 | the query is rewritten where it lies, so a request read twice is encoded twice: under `{b1: "hex"}`, `"6d02"` becomes `"bQI="` and then the empty string |
| Lookup.PlanFor | index.js:149-189 | a truthy find or aggregate gives a cursor (an empty string is falsy), and find is used when both are truthy; sort is the request's or `{block_index: -1}`; project only when given; limit is the request's when truthy, else 100; distinct only without find and aggregate and with a field; otherwise no driver call |
| Lookup.FindWins | index.js:149-154 | with a find, changing the aggregate or the distinct part of the request leaves the plan unchanged |
| Lookup.ZeroLimitIsDefault | index.js:163-167 | a limit of 0 gives the same plan as no limit, whose limit is 100 |
| Lookup.EmptyFindIsFalsy | index.js:149-153 | a find that is the empty string is treated as no find: the aggregate runs instead when given |
| Lookup.DistinctIgnoresCursorOptions | index.js:184-189 | without find and aggregate, sort, project and limit do not affect the plan |
| Lookup.Reencoded | index.js:172-179 | re-encoding keeps the document's fields, and leaves every field that is not listed or is empty as it was |
| Lookup.ReencodeDocument | index.js:172-179 | the `for..in` loop over the requested fields, in any order, produces `Reencoded(doc, spec)` |
| Lookup.ReencodeAll | index.js:170-181 | every document is re-encoded when the response names encodings, and passes through untouched when it does not; count and order are kept |
| Lookup.ReencodedFields | index.js:172-179 | re-encoding keeps every field; unlisted and empty fields are unchanged; a listed non-empty field, read back in its hex or base64 encoding, gives the bytes its stored base64 stands for; a listed utf8 field whose stored bytes are the utf8 of a text comes back as that text |
| Lookup.QueryThenResponse | index.js:170-181 | a value stored for a query literal under a `b<digits>` field, asked for in the literal's own encoding, comes back as the literal's token, provided the token is written as that encoding writes it |
| Lookup.CanonicalTokens | index.js:176 | every utf8 text, and every lower-case hex text of bytes, is written as its encoding writes it |
| Lookup.UpperCaseHexComesBackLower | index.js:176 | an upper-case hex literal comes back in lower case |
| Lookup.Settle | index.js:147-191 | a lookup stays pending exactly when it has no plan or the driver never replies; it rejects exactly when it has a plan and a driver call throws, with that error; distinct values resolve unchanged; documents resolve one for one, in order, re-encoded when the response names encodings |
| Lookup.DistinctValuesUntouched | index.js:184-189 | a distinct lookup resolves with exactly the driver's values, whatever response encoding is asked for |
| Lookup.CursorDocumentsReencoded | index.js:168-182 | a find or aggregate lookup resolves with one re-encoded document per document the driver returned, in order |
| Lookup.NoResponseEncodingPassesThrough | index.js:172 | without a response encoding, a cursor lookup resolves with the driver's documents unchanged |
| Reader.Prepared | index.js:116-118 | encoding the query changes only find and aggregate, and keeps each present or absent, truthy or falsy |
| Reader.PreparedPlan | index.js:116-123 | after the query is encoded, the plan keeps its kind, sort, projection and limit; a distinct plan is unchanged; the cursor runs the filter or pipeline as the query encoder leaves it |
| Reader.All | index.js:120-123 | the join resolves with both results, confirmed first, exactly when both lookups resolve; it rejects exactly when one rejects, with the confirmed lookup's reason when it rejected and the unconfirmed one's otherwise |
| Reader.Joined | index.js:120-123 | both lookups of a read resolve together or the join does not resolve; the join rejects exactly when the request has a plan and a driver call throws, with the confirmed lookup's error first; without a plan it stays pending |
| Reader.ReadAsWritten | index.js:115-142 | as written, the callback is called at most twice, always with a null error argument; it is called twice exactly when both lookups resolve and the callback throws on the success envelope, and the second call carries that exception as the error |
| Reader.CallbackInvokedTwice | index.js:124-136 | as written, a callback that throws on the success envelope is called a second time, with the error envelope |
| Reader.Read | index.js:115-142 | the callback's error argument is always null; a missing request gives the fixed error envelope; otherwise success with the two results, the rejection's error (the confirmed one's when both throw), or no call while a lookup is unsettled |
| Reader.ReadKeepsFirstCall | index.js:124-136 | the corrected read makes the first call of the read as written, whatever the callback throws, and is identical to it when the callback does not throw |
| Reader.MissingRequestNeedsNoLookup | index.js:137-141 | without a request the result does not depend on any driver reply, so no lookup runs |
| Reader.CursorReadSucceeds | index.js:119-130 | a find or aggregate read whose cursors both deliver documents succeeds, with each partition's documents re-encoded, in order |
| Reader.OneThrowFailsRead | index.js:131-136 | a lookup that throws while its cursor is built fails the read with that error, and the other partition's rows are discarded |
| Reader.BothThrowConfirmedWins | index.js:120-136 | when both lookups throw, the read fails with the confirmed lookup's error |
| Reader.PlanlessReadNeverCallsBack | index.js:147-190 | a request with no find, no aggregate and no distinct field never calls back |

## Left out

- Connection handling is I/O and process-wide state: `init`, `exit`, the lazy
  connect-then-retry in `read` and the `_db` guard of `confirmed` and `unconfirmed`
  (index.js:22-49, 110-113). The model starts from a connected store.
- Cursor execution, `toArray` and `collection.distinct` are driver calls. Their outcome
  is a parameter (`Lookup.Reply`): documents, values, a synchronous throw, or no reply.
  `toArray`'s ignored error, and a rejected distinct promise, both leave the lookup
  unsettled (`NoReply`).
- `Promise.all` is a function of the two settlements (`Reader.All`). The timing of
  resolutions is not modelled. Rejections come only from throws while the lookups are
  built, in a fixed order, so the model does fix which reason wins.
- The query tree and the documents are values. Methods return the rewritten tree or
  document instead of updating it in place through traverse's `this.update` or the
  alias `o = doc`. Within one walk this gives the same tree or document, because no
  walk reads a value it has already overwritten. What the model does not capture is
  that the caller sees the change: `r.request.find` and `r.request.aggregate` are the
  caller's objects, rewritten where they lie. A request passed to `read` a second time
  is encoded again, which can destroy its literals
  (`QueryEncoding.EncodingTwiceLosesLiteral`). The model takes each call's request as
  given.
- The value `read` returns is not modelled. The cursor branch returns the promise
  `Promise.all(...).then(...).catch(...)`, which resolves with `undefined` once the
  callback has run. It rejects only if the callback throws inside the error handler. The
  missing-request branch returns nothing. So the usage comment at index.js:84-89, which
  shows `read(...).then(result => ...)`, gets no result. The model covers only what
  reaches the callback.
- QueryEncoding.Transform: leaves are strings only. Numbers, booleans and null are
  untyped JavaScript coercion. So are empty objects and arrays, which traverse visits as
  leaves; the model keeps them as they are, as the code does when no `b<digits>` field
  governs them.
- QueryEncoding.GoverningKey: when a climb from a directive reaches the root, the code
  looks up the schema under the key `"undefined"`. The model treats this as no
  governing field.
- Lookup.Document: fields are strings. Non-string stored values are not modelled.
- Codec.Enc: only hex, utf8 and base64 are modelled. iconv-lite's other encodings are
  not, and neither is its behaviour for an unknown encoding name.
- Codec.Utf8Encode: JavaScript strings may hold lone surrogates, which iconv-lite
  encodes as U+FFFD. Dafny characters are Unicode scalar values, so that case cannot
  arise in the model.
- Codec.Base64Decode: it follows Buffer's decoder. iconv-lite's streaming decoder splits
  input into four-character chunks, which gives the same bytes for the well-formed
  base64 the store holds. The two may differ on malformed input, and that is not
  modelled.
- Codec.Byte: bytes are integers 0..255 rather than 8-bit bit-vectors. The encodings
  are defined by division and remainder on them, which keeps the proofs linear.

## Findings

| source | as written | input that shows it | evidently intended | confidence | as-written member | corrected member |
|---|---|---|---|---|---|---|
| index.js:124-136 | `.then(onSuccess).catch(onError)`: an exception thrown by the callback on the success envelope rejects the promise `then` returns, and the `catch` handler calls the callback again with that exception as `error` | any read whose two lookups resolve, with a callback that throws on its first call (`Reader.CallbackInvokedTwice`: a find with empty results, callback throwing `"TypeError"`) | the callback is called at most once per read, as `.then(onSuccess, onError)` would do | high; not executed | Reader.ReadAsWritten | Reader.Read |
