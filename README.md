# exiftool2json in Dafny

A model of the HTTP service that turns the tag dictionary printed by
`exiftool -listx` into a stream of JSON results. The model covers the
service's one piece of logic, `streamTags`. That function reads the tool's
XML token by token and decodes each `<table>` element. It keeps the tables
and tags that pass two optional filters. It writes each kept tag as a flat
`JSONTag` result inside `{"tags": [` … `]}`, with a comma between results
and a flush after each. It stops early on cancellation, on a read error, on
a table that does not decode and on a failed `Encode` call. The model also
covers the handler `tagsHandler`, which takes the two filters from the query
string and turns an error into an error reply.

The project has three modules:

- `Records` (records.dfy): the decoded records `Desc`, `Tag` and `Table`,
  and the result record `JSONTag`. It defines the description map (the last
  entry wins for a repeated language) and the projection of a tag onto a
  result. The projection's `table:tag` path can be split back into its two
  parts.
- `Stream` (stream.dfy): the read loop. The tool's output is a sequence of
  `Event`s, one per turn of the loop:
  - a cancelled request context, seen before the token is read;
  - a read error;
  - a start element, carrying what decoding it as a table yields;
  - any other token.

  Running out of events is the decoder's `io.EOF`. What a call writes to,
  or does to, the response writer is a sequence of `Chunk`s: the opening
  marker, a comma, an encoded result, a flush, the closing marker. A
  failing `Encode` call is given as the index of the first call that
  fails. Whether the writer can flush is a parameter.
  - `StreamSpec` states declaratively what a call writes and returns.
  - The imperative `StreamTags`, with its nested `EmitTable`, `EmitTags` and
    `EmitTag`, follows the Go loop step by step: a `first` flag, an output
    sequence that only grows, and the description map filled in a loop. It
    is proved to produce exactly `StreamSpec`'s run.
  - The lemmas cover filtering, projection, order, framing, early stops and
    ignored tokens.
- `Handler` (handler.dfy): the query-string lookup, the error texts, and the
  handler's reaction to an error. The handler decides whether to log by
  comparing the error's text. The model proves that this comparison singles
  out a disconnected client, whatever the wrapped causes say.

Some of what the code does is easy to miss; the model does the same:

- A result's `group` is the name of its table (main.go:104). The tag's own
  `g2` attribute is decoded into `Tag.group` but not used.
- The opening marker `{"tags": [` is written without a flush (main.go:57).
  The first flush comes after the first result (main.go:118) or after the
  closing marker (main.go:124); a call that fails before either writes no
  flush at all.
- The 200 status is set and the opening marker written before the writer is
  checked for flushing (main.go:56-61), so "streaming not supported" follows
  a body that already holds the opening marker.
- The request context is checked only at the top of the token loop
  (main.go:68-73), never inside the loop over a table's tags
  (main.go:92-119). When the client goes away while a table is being
  written, the handler still encodes, writes and flushes every remaining
  selected tag of that table, unless an `Encode` call fails first; only
  the next turn of the token loop returns "client closed connection".
- `http.Error` is called for every error, cancellation included
  (main.go:137-143). For a cancellation it writes its text to a connection
  the client has already closed; the model records the text in
  `Reply.errorBody` all the same.

## Model

| member | source | states |
|---|---|---|
| Records.DescMap | main.go:96-99 | The description map's keys are exactly the language codes of the tag's descriptions. For a repeated code it holds the value of the last description with that code. |
| Records.BuildDescMap | main.go:96-99 | The loop that fills the map one description at a time produces exactly that map. |
| Records.Project | main.go:101-107 | A result's group is the table name and its path is the group, a colon and the tag name. Writable and type are copied from the tag. |
| Records.ProjectDescription | main.go:96-105 | A result's description has a key exactly for each language code that some description of the tag has. For a repeated code it holds the text of the last description with that code. |
| Records.LangsMembership | main.go:96-99 | A code is among the description map's keys exactly when some description has that code. |
| Records.BuildJSONTag | main.go:96-107 | Building the description map and then the record gives the projection of the tag. |
| Records.PathRoundTrip | main.go:103 | Splitting a result's path at its last colon gives back the table name and the tag name, when the tag name has no colon. |
| Stream.TerminalIndexIsFirst | main.go:68-88 | The loop's stopping point is the first cancellation, read error or undecodable table: no event before it is one of these. |
| Stream.StreamSpec | main.go:57-61 | Every call's output begins with the opening marker. A writer that cannot flush gets exactly the opening marker and the error "streaming not supported". |
| Stream.TerminalIndexAppend | main.go:67-88 | In a concatenated stream the loop stops in the first part if it stops there, and otherwise at the first part's length plus its stopping point in the second part. |
| Stream.TablesOfAppend | main.go:83-88 | Tables are decoded in stream order: the tables of a concatenation are those of each part in turn. |
| Stream.TableSelected | main.go:89-91 | A table is kept when the table filter is empty or equals the table's name exactly, and skipped exactly when the guard `table.Name != tableName && tableName != ""` holds. |
| Stream.TagSelected | main.go:93-95 | A tag is kept when the tag filter is empty or equals the tag's name exactly, and skipped exactly when the guard `tag.Name != tagName && tagName != ""` holds. |
| Stream.TagResultsAppend | main.go:92-119 | A table's results follow the order of its tags. |
| Stream.ResultsOfAppend | main.go:89-119 | Results follow the order of their tables. |
| Stream.SelectedAppend | main.go:67-122 | A stream that runs through a first part without stopping gives that part's results followed by the results of the rest. |
| Stream.SelectedPrefix | main.go:67-122 | What the loop has produced after any number of events it reaches is a prefix of everything it produces. |
| Stream.TagResultsMembership | main.go:92-95 | A result comes from a table's tags if and only if it is the projection of one of those tags that passes the tag filter. |
| Stream.ResultsMembership | main.go:89-95 | A result is produced if and only if it is the projection of a tag that passes the exact-match tag filter, inside a table that passes the exact-match table filter. |
| Stream.FiltersAreExact | main.go:89-95 | With a non-empty table filter every result's group equals the filter. With a non-empty tag filter every result's path ends in ":" followed by exactly the filter. |
| Stream.RowPairsCount | main.go:92-95 | A table yields one result per tag position that passes the tag filter. |
| Stream.ResultCountIsSelectedPairs | main.go:89-95 | The number of results equals the number of (table, tag) positions that pass both filters. |
| Stream.NoTagFilterKeepsAll | main.go:92-107 | With an empty tag filter a table's results are the projections of all its tags, one per tag, in the table's order. |
| Stream.EmptyFiltersEmitEveryTag | main.go:89-107 | With both filters empty the results are the projections of every tag of every table, table by table and tag by tag in document order, one per tag. |
| Stream.FrameLayout | main.go:109-118 | Result k is encoded at position 3k and flushed right after it. Every result but the first has a comma just before it. |
| Stream.FrameRoundTrip | main.go:115 | Reading the encoded results back out of the framed output gives the results, in order. |
| Stream.CloseNotInFrame | main.go:109-118 | The framed results never contain the opening or the closing marker. |
| Stream.CloseOnlyOnCleanEnd | main.go:123-125 | The closing marker is written if and only if the call succeeds. It succeeds if and only if the writer can flush, the stream ends at end of input, and no `Encode` call fails. A successful call's output is the opening marker, the framed results, the closing marker and a flush. |
| Stream.EmittedAreSelected | main.go:89-118 | The results in the body are a prefix of the selected results, in stream order. They are all of them when no `Encode` call fails, exactly those before the failing call otherwise, and none when the writer cannot flush. |
| Stream.StopsAtFirstTerminal | main.go:68-88 | After the first cancellation, read error or undecodable table nothing further is read: the events after it change nothing and no closing marker is written. Unless flushing or an earlier `Encode` call failed, the call returns that event's error, "client closed connection" for a cancellation. |
| Stream.IgnoredTokensWriteNothing | main.go:83-84 | Inserting a token other than a `table` start element, a read error or a cancellation anywhere in the stream changes neither the output nor the returned error. |
| Stream.CancelAfterWholeTable | main.go:68-119 | A cancellation that follows a table takes effect only after that whole table is written: the output is the opening marker and the frame of every selected tag of the table, and the call returns "client closed connection". |
| Stream.StepResults | main.go:83-119 | One turn of the loop past a non-terminal event adds the results of the table it decodes, if any, and nothing otherwise. |
| Stream.EmitTag | main.go:109-118 | Writing one result appends a comma unless it is the first, then the encoded result and a flush, and clears `first`. If its `Encode` call fails, the output ends with that comma and the writer's error is returned. |
| Stream.EmitTags | main.go:92-119 | The loop over a table's tags builds and writes the results of the tags that pass the tag filter, in order. It stops at a failing `Encode` call with exactly the results before that call. |
| Stream.EmitTable | main.go:89-119 | A table that fails the table filter writes nothing. Otherwise its selected tags are written as above. |
| Stream.StreamTags | main.go:57-125 | The loop writes and returns exactly what `StreamSpec` states for every stream, filter pair, flushability and `Encode` failure. |
| Handler.QueryGet | main.go:129-130 | A parameter reads as its first value, or as the empty string when it is absent or has no value. |
| Handler.AbsentParameterIsEmpty | main.go:129-130 | A parameter that does not occur in the query string reads as the empty string, which switches its filter off. |
| Handler.FirstOccurrenceFilters | main.go:129-130 | A parameter that occurs several times in the query string reads as the value of its first occurrence. |
| Handler.ErrorText | main.go:60-116 | The text of each error: "streaming not supported", "client closed connection", and "error reading XML: ", "error decoding table: " or "error encoding JSON: " followed by the cause. |
| Handler.ErrorTextIdentifies | main.go:60-116 | Two errors have the same text if and only if they are the same error: the text names the step that failed and carries its cause. |
| Handler.ClientClosedTextIsDistinct | main.go:138 | An error's text is "client closed connection" if and only if the error is the cancellation error, whatever the wrapped causes of the other errors say. |
| Handler.Respond | main.go:137-144 | The reply keeps everything written. It appends the error's text and a newline if and only if the call failed. It logs if and only if the error is the cancellation error. |
| Handler.TagsHandler | main.go:128-145 | The handler's reply is the reaction to the run that `StreamSpec` gives for the query's first `table` and `tag` values. |
| Handler.ErrorReplyIsUnclosed | main.go:137-144 | A reply holds the closing marker if and only if it holds no error text. |
| Handler.MissingParametersListEverything | main.go:129-130 | A query with neither parameter selects the projection of every tag of every table read before the stream stops, in document order. |
| Handler.ExampleRun | main.go:57-125 | A stream holding one `EXIF` table with the one tag `Make` gives, for table filter `EXIF`, the opening marker, that tag's result, a flush, the closing marker and a flush, and succeeds. |
| Handler.ExifMakeExample | main.go:128-145 | The query `table=EXIF` on that stream gets exactly that one result, with path `EXIF:Make`, group `EXIF` and description `en` = "Manufacturer", followed by the closing marker, and no error text and no log line. |

## Left out

- Starting, killing and waiting for the `exiftool` process and creating its stdout pipe (main.go:44-53, 70) are not modelled: they are operating-system process I/O. So the two setup errors ("failed to create stdout pipe", "failed to start exiftool") are not modelled either. They occur before anything is written.
- The XML tokenizer and `DecodeElement` (main.go:63, 75, 86) are foreign library code. Their results are the `Event` sequence: a decoded `Table`, a decode error, a read error or another token. The parsing of attributes such as `writable="1"` into a boolean happens inside them.
- Byte-level JSON encoding by `json.Encoder` (main.go:64, 115) is left out. An encoded result is a chunk holding the `JSONTag`. The encoder's trailing newline and any bytes it writes before failing are not modelled.
- The `Content-Type` header and the status codes (main.go:55-56, 143) are network plumbing. The 200 status is set (main.go:56) before any modelled error and is committed with the first bytes flushed, so the 500 that `http.Error` asks for at main.go:143 is ignored; the reply records only the error text.
- The query string's own syntax is not modelled: `ParseQuery` takes it already split into decoded key-value pairs, so percent-decoding and separators are left to the library.
- Errors returned by `w.Write` are ignored by the code. The model's writes always succeed, and only `Encode` can fail.
- Go's context machinery (main.go:68-73) is a concurrency feature. It becomes a `Cancelled` event observed before a token is read.
- `Flush` calls (main.go:118, 124) are recorded as `Flush` chunks. Their transport effect is not modelled.
- Routing, `main` and the server's start-up log line (main.go:147-151) are left out, as is the line printed by `fmt.Println` to standard output (main.go:141). The reply only records that it was printed.
- Stream.StreamSpec: the function's own contract states only that the output begins with the opening marker and what an unflushable writer gets. What it says about filtering, order, framing and stopping is stated in the lemmas about it listed above.
