# Boost.Http readers: a Dafny model

Boost.Http reads HTTP/1.x with pull parsers. `reader::request` and `reader::response` look at a byte
stream through a buffer that the user grows, shrinks and replaces at will; `next()` drops the current
token and finds another, and `set_buffer()` continues where the last buffer stopped. This project models
both readers as the code in `include/boost/http/reader/*.ipp` has them, branch by branch, with the list
scanner, the transfer-coding decision, the field-value trimming and the bounded number decoding beneath
them, and proves what the library and its tests promise about whole streams and whole sessions.

`dafny verify dfyconfig.toml` checks everything.

## How it is organised

| files | content |
|---|---|
| `Seqs`, `Bytes`, `Abnf`, `Syntax` | octets, character classes of RFC 7230 and Appendix B of RFC 5234, the stateless `match` functions |
| `Octets`, `Numerals` | the character classes, names and digits once more, as strings of characters, and the proof that the readers' classes, comparisons and decoders are these |
| `Numbers` | `content_length::decode` and `chunk_size::decode` for every maximum, against positional notation |
| `HeaderList`, `TransferEncoding`, `FieldValue` | `header_value_any_of` with its stateful predicate, `decode_transfer_encoding`, `decode_field_value` |
| `Lines` | where a reader stands in a header or trailer line, and what lies around a field value |
| `Framing` | what header fields say about the body: one at a time, as the readers see them, and as a whole, as section 3.3.3 of RFC 7230 has it |
| `HeaderRules` | what a header means, read off its fields: which names count, in any spelling, which Host, codings and lengths are in order, and what body they frame |
| `Tokens`, `Incremental`, `Lexemes`, `Scanning` | tokens and their merging; the theory of readers over a stream that arrives in pieces, for any lexer; the moves that both lexers share, and the loops that both classes share |
| `RequestLexer`, `RequestCoherence`, `RequestReader` | the request state machine, its coherence, and the class whose methods carry it out in place |
| `Grammar`, `RequestGrammar`, `ResponseGrammar` | HTTP/1.x streams octet by octet: what each token consists of at each place of a message, what is malformed there and what is undecided |
| `RequestPipelining`, `RequestDriver`, `RequestMonitor`, `RequestValues`, `RequestRoundTrip`, `RequestPayload` | pipelining, the consumer of `test/request11.cpp`, the rules of every session, field values, writing requests and reading them and their bodies back |
| `RequestRejection`, `RequestNumbers` | what becomes of headers that are not acceptable, and of bad lengths and chunk sizes |
| `Chunks` | in both readers, chunks have the sizes that were announced |
| `ResponseLexer`, `ResponseCoherence`, `ResponseReader` | the same for responses, with `set_method()` and `puteof()` |
| `StatusRules` | which responses have a body, by the digits of the status and the method of the request |
| `ResponseStatusLine`, `ResponseLikeRequest` | status lines read back, and how the rest of a response is read like a request |
| `ResponseMonitor`, `ResponseConnection`, `ResponseValues`, `ResponsePipelining`, `ResponseRoundTrip` | the rules of every response session, the end of the connection, field values, responses in a row, and writing responses and reading them back |

A *lexer* decides from a control state and the octets in view what comes next: a token, an error, or a
demand for more data. A *session* is a reader driven over a stream by any legal sequence of
`set_buffer()` and `next()` calls. Two lists of tokens are compared after *merging* adjacent `skip` and
adjacent `body_chunk` tokens, which is what `test/request11.cpp` does and all that
`doc/parsing_tutorial2.adoc` leaves open. A *monitor* reads the emitted tokens one by one, knows nothing
of the reader, and has no answer to a token that is out of place; a theorem that it always has an
answer is a theorem about every token of every session.

## Where the code does not do what one might expect

- Several `Transfer-Encoding` fields mean what their comma-joined values mean exactly when the last
  field has an element (`Framing.EncodingFieldsDecide`). A blank field after "chunked" is rejected
  although the joined values still decode to chunked at the end (`Framing.BlankFieldDiffers`, and
  `RequestRejection.BlankEncodingRefused` for the stream).
- A string that is malformed and also too large is `overflow` or `invalid` depending on which the scan
  from the right meets first; `Numerals.MalformedDecodes` says exactly which.
- `decode_field_value` takes for granted that "every header field has at least one non-whitespace character",
  and its caller does not see to it. The readers call it for every header field, without asking whether the
  token is empty; on an empty one the index of the backward loop starts at the largest `size_t` and the first
  look at `v[i]` leaves the view. `RequestValues.EmptyValueLeavesView` gives a stream, close to that of
  `test/request_good.cpp:887-900`, on which this happens under every fragmentation, and
  `RequestValues.LoopLeavesViewIff` and `ResponseValues.LoopLeavesViewIff` say exactly when: if and only if
  nothing but OWS stands between the colon and the end of the line. Otherwise the token starts with a
  non-blank octet and the loop returns the trim of what stands there. The readers of the model carry
  a flag, `strayed`, that says whether the loop has left its view.
- A second `Host` field in a message that is not HTTP/1.0 is `error_no_host` (`RequestRejection.SecondHostRefused`).
- After `puteof()`, a response whose header has declared a length goes on waiting even while its header is
  incomplete (`ResponseMonitor.EofDecides`), and an incomplete token goes on waiting in any case
  (`ResponseConnection.EofIndependence`).

## Model

| member | source | states |
|---|---|---|
| `Syntax.Match` | include/boost/http/syntax/chunk_size.ipp:28-41 | the matching loop, started past octets already scanned, finds the longest run of the class |
| `Syntax.LiberalCrlfStable` | include/boost/http/syntax/crlf.ipp:27-59 | the four-way verdict, exactly by prefix, and that it never changes once it is not "insufficient" |
| `Octets.NamesAgree` | include/boost/http/reader/detail/abnf.hpp:36-46 | the octets of methods and names are `tchar`, spelled out |
| `Octets.TargetsAgree` | include/boost/http/reader/detail/common.hpp:48-58 | the octets of request targets, spelled out |
| `Octets.TextAgrees` | include/boost/http/syntax/field_value.ipp:12-23 | the octets of field values, reason phrases and chunk extensions are the same ones, spelled out |
| `Octets.DigitsAgree` | include/boost/http/reader/detail/abnf.hpp:23-29 | digits, decimal and hexadecimal, spelled out |
| `Octets.IEqualsIff` | include/boost/http/reader/request.ipp:359-390 | names compare equal iff at each place they have the same octet or the same letter of the alphabet, in either case |
| `Octets.NamesBySpelling` | include/boost/http/reader/request.ipp:359-391 | the names that are heeded are the words "host", "transfer-encoding", "content-length" and "chunked", in every spelling and no other |
| `Grammar.TablesAreFaithful` | include/boost/http/reader/detail/abnf.hpp:15-94 | the classes by which the readers decide are the tables by which the grammar is stated, for every octet |
| `Numerals.DigitsAreWorth` | include/boost/http/syntax/chunk_size.ipp:60-79 | each of the sixteen digits, upper and lower case, is worth its place in the alphabet of digits |
| `Numerals.NumbersAreDecoded` | include/boost/http/syntax/chunk_size.ipp:43-103 | decoding accepts exactly the non-empty strings of digits whose number, to base 10 or 16, fits, and yields that number; digits whose number does not fit overflow |
| `Numerals.MalformedDecodes` | include/boost/http/syntax/content_length.ipp:10-62 | any other string is overflow iff the digits behind its last bad octet, or the weight of that octet, pass the maximum, and invalid otherwise |
| `Numerals.SizesAreWide` | include/boost/http/reader/request.hpp:130-132 | the largest body or chunk size is 256 to the eighth, less one |
| `Numerals.AnyCaseRoundTrip` | test/chunk_size.cpp:19-142 | printed numbers are read back whatever mix of upper and lower case their letters are given |
| `Numbers.DecodeBounded` | include/boost/http/syntax/chunk_size.ipp:43-103 | the loop of both decoders, for radix 10 or 16 and any maximum that holds a single digit, yields the specified verdict; every value given to a variable of the target type, products and weights included, fits by the precondition of the assignment (`Numbers.Target`) |
| `Numbers.Accumulate` | include/boost/http/syntax/chunk_size.ipp:81-89 | the two overflow tests by division and subtraction are the test on the exact sum, and neither product nor sum is formed unless it fits |
| `Numbers.DecodeExact` | include/boost/http/syntax/content_length.ipp:10-62 | ok if and only if the input is non-empty, all digits and its positional value fits; then it is that value; digits that do not fit overflow |
| `Numbers.PrintRoundTrip` | test/chunk_size.cpp:19-142 | decoding inverts printing for every number that fits and overflows for every other |
| `HeaderList.HeaderValueAnyOf` | include/boost/http/algorithm/header/header_value_any_of.hpp:27-64 | calls the stateful predicate on exactly the non-empty trimmed elements, in order, up to and including the first that returns true, and says whether one did |
| `HeaderList.ElementsConcat` | include/boost/http/algorithm/header/header_value_any_of.hpp:38-62 | a comma between two lists concatenates their elements |
| `HeaderList.ElementsJoined` | doc/ref/header_value_any_of.adoc:15-20 | of any items joined with commas only surrounding OWS and empty items are lost |
| `HeaderList.ElementsRoundTrip` | include/boost/http/algorithm/header/header_value_any_of.hpp:38-62 | printing the elements with commas and scanning again returns them |
| `TransferEncoding.DecodeTransferEncoding` | include/boost/http/reader/detail/transfer_encoding.hpp:79-85 | the scan with the shared `count` and `res` computes the declarative meaning of the element list |
| `TransferEncoding.ScanMeaning` | include/boost/http/reader/detail/transfer_encoding.hpp:45-73 | the early-stopping fold is: not found iff no element is "chunked", at end iff exactly one is and it is last, invalid otherwise; `count` is at most 1 unless the scan stopped |
| `TransferEncoding.DecodeIgnoresCase` | include/boost/http/reader/detail/transfer_encoding.hpp:49-50 | fields that differ only in letter case decode alike |
| `TransferEncoding.DecodeIgnoresPadding` | test/request_response_common.cpp:202-262 | lists with the same non-blank items decode alike, however padded |
| `FieldValue.DecodeFieldValue` | include/boost/http/reader/detail/common.hpp:18-46 | on every view, empty or not: the backward loop removes the OWS at the end but never the first octet, and on an empty view it reads outside of it |
| `FieldValue.DecodeIsTrim` | include/boost/http/reader/detail/common.hpp:20-33 | the result is the two-sided trim iff there is a first octet and it is not OWS; the view is left iff it is empty |
| `Framing.TwoStepsOneField` | include/boost/http/reader/request.ipp:371-416 | reading a name and later its value amounts to reading the field, errors included |
| `Framing.FrameFoldExact` | include/boost/http/reader/request.ipp:473-537 | the field-by-field `body_type` machine accepts a header iff the header as a whole is valid (at most one effective Content-Length, "chunked" only last) and then frames the body as the whole header says; an error tells which rule is broken |
| `HeaderRules.NamesHeeded` | include/boost/http/reader/request.ipp:357-417 | what the three names do to a reader, in every spelling, and that no other name does anything |
| `HeaderRules.HostRuleIs` | include/boost/http/reader/request.ipp:359-370 | the Host rule holds iff the message is HTTP/1.0 or exactly one field has the name "host", in any spelling |
| `HeaderRules.WordKept` | include/boost/http/algorithm/header/header_value_any_of.hpp:38-62 | of an item of a list its word is kept, without the spaces and tabs around it, and of a blank item nothing |
| `HeaderRules.CodingsMean` | include/boost/http/reader/detail/transfer_encoding.hpp:45-85 | a list of codings is "not found" iff no element is the word "chunked" in any spelling, and "at end" iff the last one is and no other |
| `HeaderRules.FramingIs` | include/boost/http/reader/request.ipp:371-540 | a header is accepted by the field-by-field machine iff "chunked" stands nowhere but at the end of the last Transfer-Encoding and the only Content-Length not preceded by one is a number of 64 bits; and the body is the one those fields frame. Names in every spelling, numbers by their digits |
| `HeaderRules.AcceptedIs` | include/boost/http/reader/request.ipp:583-617 | so, with the Host rule, which request headers may end and what body they announce |
| `Framing.EncodingFieldsDecide` | include/boost/http/reader/request.hpp:116-128 | wherever Transfer-Encoding fields stand in a header, the field-by-field machine reaches chunked iff their joined values decode to chunked at the end and the last is not blank, and otherwise ends in `error_invalid_transfer_encoding` or in another coding |
| `RequestMonitor.EncodedHeaderEnds` | include/boost/http/reader/request.ipp:583-617 | in every session a request header with Transfer-Encoding fields ends only if their joined values decode to chunked at the end and the last is not blank, and then the body is chunked |
| `RequestRejection.EncodingsRefused` | include/boost/http/reader/request.ipp:583-617 | with any other Transfer-Encoding values, if Host and Content-Length are in order, the tokens of the header end in `error_invalid_transfer_encoding` |
| `Framing.ChunkedIffJoinedChunked` | include/boost/http/reader/request.hpp:116-128 | the same for the decoded values alone |
| `Framing.BlankFieldDiffers` | include/boost/http/reader/request.ipp:371-390 | after any fields that frame a chunked body, the machine rejects a blank Transfer-Encoding although the joined values decode to chunked at the end |
| `Framing.NameRejectedIff` | include/boost/http/reader/request.ipp:371-416 | a field name is rejected iff no value could make the header valid |
| `Framing.ValueRejectedIff` | include/boost/http/reader/request.ipp:473-537 | a field value is rejected iff the header is not valid with it |
| `Tokens.MergePush` | test/request11.cpp:502-514 | merging each token as it arrives equals merging the whole list |
| `Tokens.MergeBoundary` | test/request11.cpp:545-563 | merging works on both sides of a message boundary separately |
| `Incremental.RunTiles` | doc/parsing_tutorial2.adoc:112-156 | the tokens of a run are contiguous slices that tile the octets consumed |
| `Incremental.RunIsLinear` | doc/parsing_tutorial1h.cpp:11-46 | a run emits at most 3n + 3 tokens for n octets, zero-sized tokens included |
| `Incremental.DrainResumes` | include/boost/http/reader/request.hpp:68-73 | consuming what a prefix yields and going on with the rest loses nothing, for any coherent lexer |
| `Incremental.NextSound` | include/boost/http/reader/request.ipp:185-222 | `next()` keeps the invariant that emitted tokens tile the stream and, with those of the rest, amount to the whole-buffer run |
| `Incremental.SetBufferSound` | include/boost/http/reader/request.ipp:171-178 | so does `set_buffer()`, growing or shrinking to the current token |
| `Incremental.FragmentationIndependence` | doc/parsing_tutorial2.adoc:81-87 | for any progressive and coherent lexer, stream and session: emitted tokens are, merged, a prefix of the whole-buffer run, tile the stream up to the current position, and equal the run once all is delivered or an error occurred |
| `Incremental.LegalityIsEnough` | doc/ref/reader_request.adoc:195-215 | a run is legal iff each action is where it is taken; that buffer and indices stay in place needs no assumption |
| `Incremental.ParsedCountIsSum` | doc/ref/reader_request.adoc:221-223 | `parsed_count()` is the size of the tokens consumed since `set_buffer()` was last called |
| `Incremental.SessionsKeepPlace` | doc/parsing_tutorial2.adoc:112-156 | what a lexer keeps true of its state, the octets behind it and those before it holds throughout every session |
| `Incremental.SessionsAreWatched` | include/boost/http/reader/request.hpp:78-106 | a monitor that simulates the lexer step by step has an answer to everything any session emits |
| `Incremental.WatchMerge` | test/request11.cpp:502-514 | what an additive monitor knows does not depend on how tokens were cut |
| `Incremental.NextsFollowRun` | include/boost/http/reader/request.ipp:185-222 | `n` calls of `next()` on one buffer yield the first `n` tokens of a run over it |
| `RequestLexer.Lex` | include/boost/http/reader/request.ipp:185-871 | every outcome fits the view, errors and only errors lead to the errored state, and a zero-sized token lowers the state's rank |
| `RequestCoherence.RequestProgressive` | doc/parsing_tutorial1h.cpp:11-46 | every token of the request reader consumes octets or moves down in rank |
| `RequestCoherence.RequestCoherent` | include/boost/http/reader/request.ipp:224-866 | what any state decides on part of the stream stands on every longer view, up to splitting `skip` and `body_chunk` |
| `RequestCoherence.RequestFragmentation` | test/request11.cpp:473-633 | fragmentation independence of the request reader, whatever its previous messages |
| `RequestReader.Request.constructor` | include/boost/http/reader/request.ipp:5-12 | a new object is a valid reader at the start of a message and has not strayed; `version` and `body_size` are arbitrary |
| `RequestReader.Request.Reset` | include/boost/http/reader/request.ipp:14-22 | back to the start of a message with an empty buffer, from any state |
| `RequestReader.Request.SetBuffer` | include/boost/http/reader/request.ipp:171-178 | the object becomes the reader that `SetBufferOf` describes |
| `RequestReader.Request.Next` | include/boost/http/reader/request.ipp:185-871 | the object, scanning partial tokens only from where it stopped, becomes the reader that a rescan from the start of the token would give, and `strayed` is set exactly if a value was decoded on an empty view |
| `RequestReader.Request.NextRun` | include/boost/http/reader/request.ipp:225-277 | method and target: resumed scanning equals scanning from the start |
| `RequestReader.Request.FrameByName` | include/boost/http/reader/request.ipp:357-417 | what a field name does to `version`, `body_type`, `state` and `code_` |
| `RequestReader.Request.FrameByValue` | include/boost/http/reader/request.ipp:468-540 | what a field value does, through the number and transfer-coding decoders |
| `RequestReader.Request.NextCrlfAfterHeaders` | include/boost/http/reader/request.ipp:564-620 | the end of the headers: Host rule, then framing of the body |
| `RequestReader.Request.NextChunkExt` | include/boost/http/reader/request.ipp:671-699 | chunk extensions, resumed; an empty one hands over to the line end |
| `RequestReader.Request.TrimmedValue` | include/boost/http/reader/request.ipp:78-86 | the decoded field or trailer value, or a read outside the view |
| `RequestReader.LexScans` | include/boost/http/reader/request.hpp:148-150 | the octets counted by `token_size_` while data is awaited need no second look |
| `RequestPipelining.FreshReadersAgree` | include/boost/http/reader/request.hpp:114-134 | the garbage kept in `version` and `body_size` between messages is never read |
| `RequestPipelining.Pipelining` | test/request11.cpp:772-913 | for whole error-free messages followed by anything, the tokens are those of the messages and then those of a fresh reader on the rest |
| `RequestDriver.Collect` | test/request11.cpp:473-626 | the fragmenting loop, for every stream and every initial chunk size, terminates with the merged tokens of the stream, its final error included |
| `RequestMonitor.EverySessionObeys` | include/boost/http/reader/request.hpp:78-106 | every session emits tokens in the order of the message grammar, ends headers only if Host and framing rules hold for the whole header, delivers no more than the declared length, ends the body exactly when it is complete, has trailers only for chunked bodies, and emits nothing after an error |
| `RequestGrammar.LexAccords` | include/boost/http/reader/request.ipp:185-871 | at every place of a request and on every view: the reader demands more data iff the octets decide nothing yet, gives `error_invalid_data` iff they are malformed there, and otherwise emits a token of the octets that the grammar has at that place |
| `RequestGrammar.EveryTokenInGrammar` | include/boost/http/reader/request.hpp:78-106 | every token of every session, skipped ones included, has the code and the octets that the grammar allows behind the tokens before it: one space, the literal, CRLF or a lone LF, a colon with OWS, CRLF only in chunked bodies and trailers, and names, targets, values and sizes of their octets |
| `RequestGrammar.RefusesTheMalformed` | test/request_bad_a.cpp:798-803 | in every session: where the tokens so far have led, a call that looks for a token adds none iff the octets it sees, the next of the stream, decide nothing there, and `error_invalid_data` iff they are malformed there |
| `RequestMonitor.HeaderEndDecides` | include/boost/http/reader/request.ipp:583-617 | wherever the empty line is met, in the state that expects a name or behind a lone CR: `error_no_host` iff the Host rule fails, else `error_invalid_transfer_encoding` iff another coding is last, else `end_of_headers` |
| `RequestMonitor.LengthConserved` | include/boost/http/reader/request.hpp:130-132 | throughout a body, octets delivered plus octets left equal the declared length |
| `RequestValues.LoopLeavesViewIff` | include/boost/http/reader/request.ipp:420-473 | in every session, whenever `value<token::field_value>()` is called, the token lies behind a name, a colon and OWS and in front of an octet that no value may have; the loop leaves its view iff nothing but OWS stands between colon and line end, and otherwise returns the trim of that |
| `RequestValues.EmptyValueLeavesView` | test/request_good.cpp:887-900 | a stream on which the loop leaves its view, under every fragmentation |
| `RequestValues.EmptyValuesLeaveView` | include/boost/http/reader/request.ipp:459-473 | and so on every stream of well-formed requests one of whose header values is empty |
| `RequestValues.ValuesAreTrimmed` | include/boost/http/reader/request.ipp:420-458 | in every session a field or trailer value is its token's two-sided trim, unless the token is empty |
| `RequestValues.LineValue` | include/boost/http/reader/request.ipp:420-540 | whatever stands between colon and line end, leading OWS goes with the colon and the field is decided on the trim of it |
| `RequestRoundTrip.RoundTrip` | test/request11.cpp:635-1098 | any list of requests that the grammar allows, their octets and numbers given by the spelled-out tables, written with any OWS, line ends, chunk extensions and trailers, reads back token by token |
| `RequestRoundTrip.RoundTripInPieces` | test/request11.cpp:473-633 | the same under every fragmentation |
| `RequestPayload.PayloadRecovered` | include/boost/http/reader/request.ipp:638-754 | the body chunks that the reader emits for any well-formed requests concatenate to the data written |
| `RequestPayload.PayloadRecoveredInPieces` | test/request11.cpp:473-633 | so do those emitted by any session that has finished with them |
| `Chunks.RequestChunksAreSized` | include/boost/http/reader/request.ipp:638-754 | in every session the octets delivered for a chunk are exactly as many as the size line announced, and the size that comes with an extension is that of its chunk |
| `Chunks.ResponseChunksAreSized` | include/boost/http/reader/response.ipp:691-807 | the same for responses, `puteof()` or not |
| `Chunks.ChunkIsWhole` | include/boost/http/reader/request.hpp:92-96 | what that says of one chunk: the data between its size line and its end is complete |
| `RequestRejection.Rejection` | test/request_bad_a.cpp:1017-1176 | the counterpart of the round trip: every request whose request line and header lines the spelled-out tables allow and whose header is not acceptable is read part by part up to the name, the value or the end of the header that cannot be accepted, and then gives the error that says why |
| `RequestRejection.IsRefusedIff` | include/boost/http/reader/request.ipp:357-617 | that happens iff the header as a whole breaks the Host rule or frames no body |
| `RequestRejection.RejectionInPieces` | test/request11.cpp:473-633 | the same under every fragmentation, whatever was read before |
| `RequestRejection.EndOfHeaderRefused` | include/boost/http/reader/request.ipp:583-617 | if every field can be read, the tokens are those of all lines and then `error_no_host`, or `error_invalid_transfer_encoding`, by the Host rule |
| `RequestRejection.SecondHostRefused` | include/boost/http/reader/request.ipp:359-370 | unless in HTTP/1.0, a second Host is `error_no_host`, and neither its name nor anything after it is a token |
| `RequestNumbers.LengthRefused` | include/boost/http/reader/request.ipp:473-525 | the first effective Content-Length, in any spelling, whose value is not a number of 64 bits: the tokens up to its value, and then `error_content_length_overflow` or `error_invalid_content_length`, which one by the digits |
| `RequestNumbers.SecondLengthRefused` | include/boost/http/reader/request.ipp:391-413 | a second Content-Length is `error_invalid_content_length` at its name |
| `RequestNumbers.ChunkSizeRefused` | include/boost/http/reader/request.ipp:638-670 | behind any well-formed chunks, a size that does not fit in 64 bits is `error_chunk_size_overflow`, and what starts with no hexadecimal digit is `error_invalid_data` |
| `RequestRejection.BlankEncodingRefused` | include/boost/http/reader/request.ipp:371-390 | a blank Transfer-Encoding behind lines that frame a chunked body is refused, although all values joined decode to chunked at the end |
| `RequestRejection.BlankEncodingExample` | include/boost/http/reader/request.ipp:371-390 | such requests: "chunked" in one field and nothing in a second one |
| `RequestRoundTrip.TokenValue` | include/boost/http/reader/detail/common.hpp:18-46 | OWS written after a value is part of its token and not of its value |
| `ResponseLexer.Lex` | include/boost/http/reader/response.ipp:219-924 | every outcome fits the view, errors and only errors lead to the errored state, and a zero-sized token lowers the state's rank |
| `ResponseLexer.LexEof` | include/boost/http/reader/response.ipp:256-273 | the only token that the end of the connection brings about is a zero-sized `end_of_body`, of a connection-delimited body |
| `ResponseCoherence.ResponseProgressive` | include/boost/http/reader/response.ipp:219-924 | progress, before and after `puteof()` |
| `ResponseCoherence.ResponseCoherent` | include/boost/http/reader/response.ipp:279-919 | decisions on part of a response stream stand on every longer view |
| `ResponseCoherence.ResponseFragmentation` | include/boost/http/reader/response.hpp:72-81 | fragmentation independence of response streams, for any request methods |
| `ResponseReader.Response.constructor` | include/boost/http/reader/response.ipp:5-13 | a valid reader at the start of a connection that has not strayed |
| `ResponseReader.Response.Reset` | include/boost/http/reader/response.ipp:46-55 | a new connection: both flags cleared |
| `ResponseReader.Response.StatusCode` | include/boost/http/reader/response.ipp:15-21 | the token is three digits, and the status, at most 999, is the number they denote |
| `ResponseReader.Response.SetMethod` | include/boost/http/reader/response.ipp:23-44 | no body iff the status is 1xx, 204 or 304 or the method HEAD; the last response iff, otherwise, it is 2xx to CONNECT; the header decides iff neither; and nothing else changes |
| `ResponseReader.Response.PutEof` | include/boost/http/reader/response.ipp:57-60 | only the flag changes |
| `ResponseReader.Response.SetBuffer` | include/boost/http/reader/response.ipp:205-212 | the object becomes the reader that `SetBufferOf` describes |
| `ResponseReader.Response.Next` | include/boost/http/reader/response.ipp:219-924 | the object, scanning partial tokens only from where it stopped, becomes the reader that a rescan would give, by the lexer that holds before or after `puteof()`, and `strayed` is set exactly if a value was decoded on an empty view |
| `ResponseReader.Response.NextEof` | include/boost/http/reader/response.ipp:256-273 | what an empty view means before and after `puteof()` |
| `ResponseReader.Response.FrameByName` | include/boost/http/reader/response.ipp:422-473 | what a field name does: nothing in a bodiless response, and Transfer-Encoding nothing in HTTP/1.0 |
| `ResponseReader.Response.NextCrlfAfterHeaders` | include/boost/http/reader/response.ipp:620-667 | how method, status and header settle the body |
| `ResponseReader.NextAnswer` | include/boost/http/reader/response.hpp:49-50 | `next()` and, at a status code, `set_method()` are one step of the session that the theorems are about |
| `ResponseReader.FeedAnswer` | include/boost/http/reader/response.ipp:205-212 | the same for `set_buffer()` |
| `StatusRules.StatusAgrees` | include/boost/http/syntax/status_code.ipp:10-27 | a status is accepted iff it is three digits |
| `StatusRules.RuleIs` | include/boost/http/reader/response.ipp:23-44 | what the reader computes from the number is what the digits of the status and the method say: first digit 1, "204", "304" or HEAD; first digit 2 and CONNECT; otherwise the header |
| `ResponseStatusLine.StatusLineReads` | include/boost/http/reader/response.ipp:279-406 | every well-formed status line is accepted and read back, and method and status settle what follows |
| `ResponseLikeRequest.ReadsLikeRequest` | include/boost/http/reader/response.ipp:407-918 | behind the status line of an HTTP/1.1 response every decision is the request reader's, errors included, except after a header that frames no body |
| `ResponseLikeRequest.RunsLikeRequest` | include/boost/http/reader/response.ipp:407-918 | hence so are all tokens to the end of the message, unless the request has no body, or is rejected, at the end of its header, where the response goes on until the close |
| `ResponseMonitor.HeadersEndAnswered` | include/boost/http/reader/response.ipp:638-666 | at the end of the header the body is framed as method, status and the whole header call for |
| `ResponseMonitor.EofDecides` | include/boost/http/reader/response.ipp:256-273 | with nothing unread, the end of the connection completes the body iff it lasts until the close, keeps waiting iff octets of a declared length are missing, and is an error otherwise |
| `ResponseGrammar.LexAccords` | include/boost/http/reader/response.ipp:219-924 | as for requests: waiting, refusing and emitting are the grammar's, at every place and on every view |
| `ResponseGrammar.EveryTokenInGrammar` | include/boost/http/reader/response.hpp:72-115 | every token of every response session, before and after `puteof()`, has the code and the octets that the grammar allows where it stands |
| `ResponseGrammar.RefusesTheMalformed` | include/boost/http/reader/response.ipp:219-924 | as for requests, in every session before `puteof()` |
| `ResponseConnection.EverySessionObeys` | include/boost/http/reader/response.ipp:219-924 | grammar, body rules and connection lifetime of every response session, with `puteof()` at any point; a connection-delimited body does not end before it |
| `ResponseValues.LoopLeavesViewIff` | include/boost/http/reader/response.ipp:476-530 | as for requests, in every response session, whatever version, method and status |
| `ResponseValues.ValuesAreTrimmed` | include/boost/http/reader/response.ipp:476-530 | as for requests, before and after `puteof()` |
| `ResponseRoundTrip.RoundTrip` | test/response.cpp:868-973 | any list of responses that the grammar allows, by the same tables, to requests with any methods, with bodies framed by length, in chunks, or absent by method or status, reads back token by token |
| `ResponseRoundTrip.RoundTripInPieces` | include/boost/http/reader/response.ipp:219-924 | the same under every fragmentation |
| `ResponseRoundTrip.PayloadRecoveredInPieces` | include/boost/http/reader/response.ipp:668-807 | the body chunks emitted by any session that has finished with them concatenate to the data written |
| `ResponseRoundTrip.LastRoundTrip` | include/boost/http/reader/response.ipp:638-684 | and a last one whose header frames no body is read back with all that follows as its body, which does not end |
| `ResponsePipelining.FreshReadersAgree` | include/boost/http/reader/response.hpp:118-145 | the garbage kept in `body_size` between responses is never read |
| `ResponsePipelining.Pipelining` | include/boost/http/reader/response.ipp:219-245 | for whole responses that do not use up the connection, followed by anything, the tokens are those of the responses and then those of a fresh reader with the requests not answered yet |
| `ResponseConnection.Consequences` | test/response.cpp:1208-1326 | at any point of any session: after a message that uses up the connection at most `error_use_another_connection` follows; a truncated Content-Length body is followed by nothing, `puteof()` or not |
| `ResponseConnection.BodyByStatus` | test/response.cpp:1082-1206 | in every session, from the status of any response to the end of its message: an answer to HEAD, or with status 1xx, 204 or 304, or 2xx to CONNECT, delivers no body octets, and in any other the header alone says where the body ends |
| `ResponseConnection.LastResponse` | include/boost/http/reader/response.ipp:233-245 | in every session, after the message of an HTTP/1.0 response, or of a 2xx answer to CONNECT, nothing comes but, once, `error_use_another_connection` |
| `ResponseConnection.ClosingIsFinal` | include/boost/http/reader/response.ipp:233-245 | once the connection is used up the reader says so at most once |
| `ResponseConnection.TruncatedBody` | test/response.cpp:1208-1326 | while octets of a declared length are missing only body octets are emitted |
| `ResponseConnection.BodilessResponse` | test/response.cpp:1082-1206 | no header field makes a bodiless response deliver octets |
| `ResponseConnection.EofIndependence` | test/response.cpp:868-973 | after a completely delivered stream and `puteof()`, `n` calls of `next()` yield the first `n` tokens of a list that depends on the stream alone, under every fragmentation |

## Left out

- Scanning.DecodedValue: what a program does after it has read outside a view is undefined; the readers of the model then go on with an empty value, as `test/request_good.cpp` expects, and remember it in `strayed`.
- RequestDriver.Collect: stops when the whole stream has been shown and more data is demanded, where the test's loop would go on growing its window; the comparison with expected output is left to its postcondition.
- RequestReader.Request.Next and ResponseReader.Response.Next: where the source re-enters `next()` for a state that matched nothing, the model calls the method of the state handed over to.
- `body_size` after a failed decode: the source may leave a partial sum in it; the reader is errored then and the model keeps the old value.
- `token_size()` after an error: modelled, but nothing is claimed about it.
- Buffers are sequences of octets; `const_buffer`, `string_view`, iterators and aliasing of the user's memory are not modelled.
- `iequals` and `isalnum` are those of the classic locale.
- `symbol()`, `category()`, `expected_token()` and the token tag types: enumerations without behaviour over a stream.
- The structure of request targets: the reader checks their octets only, and so does the model.
- What `puteof()` does after a stream as in `ResponseRoundTrip.LastRoundTrip`, spelled out for written responses: `ResponseConnection.EofIndependence` says it for all streams.
- The tutorial programs other than the token-consuming loop, and the sockets around them.
