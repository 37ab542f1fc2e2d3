# atskafka core, modelled in Dafny

atskafka reads Apache Traffic Server log lines from a Unix socket, turns each
line into a JSON document and hands it to a Kafka producer. This project
models the sequential logic of that bridge and proves what it does:

- **`logLineToJson`** (json.go). A line is split on every tab into
  `key:value` tokens. Each token is cut at its first colon. The values of keys
  in the numeric field set are converted with `strconv.Atoi`, and all other
  values stay strings. The first bad token fails the whole line. On success
  the record is serialised with its keys in ascending order, as
  `json.Marshal` does for a Go map. The modules are `Strings`
  (`strings.Split`/`SplitN`), `Numbers` (`Atoi`/`Itoa` for 64-bit `int`),
  `LineParser` (the token loop, on an abstract record), `StringOrder` (the
  key order) and `JsonDoc` (the serialiser, the whole function, and a method
  that follows the Go loop statement by statement).
- **`reader`** (atskafka.go). The k-th line of a connection, counting from 0,
  is sent as `sequence:k<TAB>line`. The sequence gauge is set to the number of
  lines sent, and a connection that sends no line leaves it unchanged. The
  connect counter is reset once the dial and the filter write have
  succeeded. The module is `Reader`, with generic sequence facts in
  `Sequences`. The channel carries `Tagged`
  values, and `Tagged.Text()` is their text on the channel.
- **the reconnect loop of `main`**. It calls `reader`, sleeps 2^counter ms,
  increments the counter and gives up at 16. The model is `Reader.Supervise`.
  The socket is replaced by a list of `Connection` outcomes, one per call of
  `reader`. The sleeps become the list of delays the run produces.
- **`doWork`** (module `Worker`). It builds the numeric field set from the
  comma-separated flag. Each line then either produces one message (the
  configured topic, `PartitionAny`, the document) or is logged and dropped.
  The producer becomes the sequence of messages handed to it, and the log
  becomes the sequence of dropped lines with their errors.
- **`deliveryReport`** (module `Delivery`). Failed delivery reports are
  counted, statistics snapshots are passed on, and other events are ignored.

The Go unit tests are restated as lemmas in `SourceTests`, together with a
few reconnect scenarios.

Two points of the code are worth stating plainly:
- Values are kept verbatim and no field is split further: the URL, for
  instance, stays one string.
- `reader` resets the counter to 0 and the `for` statement of `main` then
  increments it before the next call. So 16 failures in a row give up from
  start-up, but 15 are enough after a connection (`Reader.GiveUpExactly`,
  `SourceTests.FifteenFailuresAfterConnect`).

## Model

| member | source | states |
|---|---|---|
| Strings.Split | json.go:33 | `strings.Split` always returns at least one piece, and no piece contains the separator. |
| Strings.JoinSplit | json.go:33 | Splitting on tabs loses nothing: joining the pieces with the separator gives back the line. |
| Strings.SplitJoin | atskafka.go:102 | Splitting inverts joining for any non-empty list of separator-free items, so a flag's items are recovered exactly. |
| Strings.SplitTrailingSeparator | json.go:33 | A trailing separator yields one extra, empty, last piece. |
| Strings.Cut | json.go:36-42 | `SplitN(token, ":", 2)` has two parts exactly when the token has a colon. The key is colon-free, and key, colon and value concatenate back to the token. |
| Strings.CutAtFirst | json.go:36-42 | A token is cut at its first colon only. Whatever follows, further colons included, is the value verbatim. |
| Numbers.Atoi | json.go:47-49 | An accepted text is an optional sign followed by at least one decimal digit, and its value lies within the range of 64-bit `int`. |
| Numbers.AtoiSigned | json.go:47-51 | Every optionally signed run of decimal digits, leading zeros, `+` and `-0` included, is read as the number it denotes, and is refused exactly when that number is outside the 64-bit range. |
| Numbers.Itoa | atskafka.go:91 | `%d` writes a minus sign exactly for negative numbers, followed by the canonical decimal digits of the magnitude: no leading zero except for 0 itself. |
| Numbers.AtoiItoa | atskafka.go:91 | Every in-range integer written with `%d` reads back with `Atoi` to itself. |
| LineParser.ParseField | json.go:36-53 | One token is accepted exactly when it has a colon and, under a numeric key, an `Atoi` value. It then yields key and value (`Int` or verbatim `Str`). Otherwise it yields the missing-colon or not-an-integer error. |
| LineParser.ParseFields | json.go:35-54 | The token loop succeeds exactly when every token is well formed: one bad token anywhere fails the line. |
| LineParser.ParseFieldsSize | json.go:35-54 | A successful token loop yields at most one field per token, and at least one field when there is a token. |
| LineParser.ParseFieldsKeys | json.go:41-51 | On success the record's key set is exactly the set of keys named by the tokens. |
| LineParser.ParseFieldsValues | json.go:44-53 | On success each key holds the value of the last token carrying it, so a later duplicate replaces an earlier one. |
| LineParser.ParseFieldsError | json.go:35-50 | On failure the error is the one of the first rejected token. |
| LineParser.Parse | json.go:31-54 | A line decodes exactly when all its tab-separated tokens are well formed. The record then has between one field and one field per token. |
| LineParser.ParseMeaning | json.go:30-54 | For a whole line: accepted iff all tab-separated tokens are well formed. Then the keys are the tokens' keys and the values come from the last token with each key. Otherwise the error is the first bad token's. |
| LineParser.ParseFieldsPrepend | json.go:35-54 | A token put in front is checked first, and its binding is overridden by any later token with the same key. |
| LineParser.ParseEmptyLine | json.go:33-39 | The empty line is one empty token without a colon and is rejected. |
| LineParser.ParseTrailingTab | json.go:33-39 | A line ending in a tab is always rejected, because of its empty last token. |
| LineParser.ParseSingleStringField | json.go:36-45 | A single non-numeric `key:value` token gives a record with just that key and its text kept verbatim. |
| LineParser.ParseSingleBadNumber | json.go:44-49 | A numeric key with a value `Atoi` rejects fails the line with that key and text, and no record. |
| StringOrder.SortedKeys | json.go:56 | The serialiser's key listing is strictly ascending and holds each key of the record exactly once. |
| StringOrder.SortedUnique | json.go:56 | Only one strictly ascending listing of a key set exists, so the member order is fixed by the keys alone. |
| JsonDoc.UnescapeEscape | json.go:56 | Escaping a string value for the document loses nothing: unescaping gives back the value. |
| JsonDoc.MembersJoin | json.go:56 | The members are exactly one `"key":value` text per key, each key quoted and bound to its rendered value, separated by commas in key order. |
| JsonDoc.Marshal | json.go:56 | The document is a JSON object, `{` to `}`, and it is the empty object `{}` exactly when the record has no field. |
| JsonDoc.MarshalKeyOrder | json.go:56 | The document lists the record's members in the one strictly ascending order of its keys. |
| JsonDoc.ToJson | json.go:30-62 | A document is returned exactly when every token is well formed, and it is never the empty object: a parsed line always has a field. |
| JsonDoc.ToJsonOutcome | json.go:30-62 | Exactly one outcome: a document iff every token is well formed, and it is the record serialised. Otherwise the parse error, with no document. |
| JsonDoc.LogLineToJson | json.go:30-62 | The Go loop, statement by statement, with early returns, returns what the functional definition of the whole call says. |
| Reader.Tag | atskafka.go:91 | The first tab of a sent line ends the `sequence:<number>` token, and the scanned line follows it verbatim. |
| Reader.TagParse | atskafka.go:91 | A tagged line parses exactly when the line does. Its record is the line's record plus `sequence`, an `Int` when `sequence` is numeric, unless the line carries its own `sequence`, which wins. |
| Reader.TagLines | atskafka.go:88-95 | The k-th line of a connection, from 0, is sent with number k, one per line. |
| Reader.ScanConnection | atskafka.go:88-95 | The scan loop sends `sequence:k<TAB>line` for the k-th line. The gauge ends at the number of lines sent, or is left unchanged when there were none. |
| Reader.Read | atskafka.go:70-97 | A failed dial or filter write returns an error, leaves the counter and gauge unchanged and sends nothing. A connection resets the counter to 0 and sends its lines tagged. |
| Reader.Supervise | atskafka.go:172-182 | The loop sleeps once per call of `reader`, and once per connection given unless it gives up first. |
| Reader.SuperviseDelayBounds | atskafka.go:172-179 | Every delay lies between 1 ms and 2^15 ms. |
| Reader.SuperviseSends | atskafka.go:172-176 | What goes out on the channel is the tagged lines of the connections reached, in order. |
| Reader.ConsecutiveFailures | atskafka.go:172-182 | Failures in a row from counter a give delays 2^a, 2^(a+1), and so on. The loop gives up exactly after 16 - a of them. |
| Reader.ConnectResets | atskafka.go:84-85 | After a successful connection the loop behaves the same whatever the counter was, and the next delay is 1 ms. |
| Reader.RetriesThenConnect | atskafka.go:172-179 | n failures from counter a, then a connection, give delays 2^a up to 2^(a+n-1), then 1 ms. The connection's lines go out tagged, and the loop goes on. |
| Reader.GiveUpExactly | atskafka.go:172-182 | The loop gives up exactly when there are 16 - a failures in a row from the start, or 15 in a row after a successful connection. |
| Worker.NumericFieldSet | atskafka.go:101-104 | The numeric field set is never empty, even for an empty flag, and no name in it contains a comma. |
| Worker.NumericFieldSetOfList | atskafka.go:101-104 | The numeric field set holds exactly the comma-separated items of the flag. |
| Worker.DefaultNumericFieldSet | atskafka.go:53 | The default flag gives `response_size`, `sequence` and `time_firstbyte`, so the injected `sequence` tag is numeric. |
| Worker.Publish | atskafka.go:110-114 | Every message goes to the configured topic with `PartitionAny`, and there is at most one per line. |
| Worker.PublishCount | atskafka.go:106-118 | One message per line iff every line parsed, and none iff none did. |
| Worker.Dispatch | atskafka.go:106-118 | Every message goes to the topic with `PartitionAny`, and the messages produced plus the lines dropped account for every line. |
| Worker.DispatchCount | atskafka.go:106-118 | For a stream of lines: all are produced iff all parse, and none iff none parse. |
| Worker.DispatchAppend | atskafka.go:106-118 | Lines are handled one by one, in channel order: a stream split anywhere produces the messages of its first part, then those of the rest. |
| Worker.DispatchOne | atskafka.go:107-117 | A line that parses produces exactly one message carrying its document, and a line that fails produces none. |
| Worker.PublishOrDrop | atskafka.go:109-117 | The messages produced plus the lines dropped number exactly the lines. The per-line fact, each line produced or dropped but never both, follows from `Worker.DispatchOne`, `Worker.DroppedOne`, `Worker.DispatchAppend` and `Worker.DroppedAppend`. |
| Worker.Dropped | atskafka.go:115-117 | Each dropped entry is a line of the stream that the parser rejects, paired with that rejection's error. |
| Worker.DroppedAppend | atskafka.go:106-118 | Lines are logged in channel order, each independently: a stream split anywhere drops the lines of its first part, then those of the rest. |
| Worker.DroppedOne | atskafka.go:109-117 | A line that fails to parse is dropped once, with its error, and a line that parses is not dropped. |
| Worker.DoWork | atskafka.go:99-119 | The worker loop produces the dispatch of the stream and logs exactly the dropped lines. |
| Delivery.DeliveryErrors | atskafka.go:123-129 | The counter grows by at most one per event. |
| Delivery.FailedDeliveries | atskafka.go:125-129 | The reports logged as failed are failed delivery reports of the stream, one per step of the counter. |
| Delivery.StatsForwarded | atskafka.go:130-134 | At most one snapshot per event is forwarded, and each is the text of a statistics event of the stream. |
| Delivery.StatsForwardedOne | atskafka.go:125-134 | A single statistics event is forwarded with its text unchanged and nothing else is, and a single failed report is logged and nothing else is. With the append lemma this fixes both sequences for every stream. |
| Delivery.DeliveryErrorsAppend | atskafka.go:123-136 | Counting, logging and forwarding are per event: a stream split anywhere counts, logs and forwards as its parts. |
| Delivery.DeliveryErrorsExtremes | atskafka.go:125-134 | The counter stays put iff no event is a failed delivery, so statistics and successful reports never count. It grows by one per event iff all of them are. |
| Delivery.DeliveryReportLoop | atskafka.go:122-137 | The event loop adds exactly the failed deliveries to the counter, logs exactly the failed reports in stream order, each once, and forwards the statistics snapshots in order. |
| SourceTests.LogLineToJsonOK | json_test.go:21-35 | The four-field test line gives exactly `{"hostname":"cp3050.esams.wmnet","http_method":"GET","time_firstbyte":1235,"uri_host":"en.wikipedia.org"}`. |
| SourceTests.LogLineToJsonKO | json_test.go:37-50 | `time_firstbyte:notanumber` fails the line, with no document. |
| SourceTests.DoWorkScenario | atskafka_test.go:36-64 | With the numeric set built from the default flag, of `""`, plain text and the three-field line only the third is produced: on `test_topic`, with its three fields, `time_firstbyte` as the number 9. |
| SourceTests.DoWorkScenarioDropped | atskafka_test.go:41-42 | Exactly the empty line and the plain text are dropped, in that order, each for its missing colon. |
| SourceTests.BackoffThenConnect | atskafka.go:172-182 | Three failures then a connection give delays 1, 2, 4 ms, then 1 ms after the connection, and its lines go out tagged from 0. |
| SourceTests.SixteenFailuresGiveUp | atskafka.go:172-182 | Sixteen failures from start-up end in "Giving up", after delays up to 2^15 ms. |
| SourceTests.FifteenFailuresAfterConnect | atskafka.go:172-182 | After a successful connection, the loop gives up iff at least 15 failures follow. |

## Left out

- Socket dial, filter write and line scanning are I/O. Each call of `reader` is represented by its outcome (`Connection`), and the connect timeout and socket path are not modelled.
- The Kafka producer, its configuration (`loadConfig`, json.go:64-86) and the delivery channel are left out. `Produce` is the recorded message sequence, and its return value, which `doWork` ignores, is not modelled.
- Prometheus metrics are left out. The sequence gauge is a plain integer, the delivery-error counter a natural number, and `promrdkafka`'s `Update` of a statistics snapshot (with the error it may log) is recorded only as the snapshot forwarded.
- The log lines themselves are not modelled, beyond recording which lines and events are logged.
- Goroutines, `runtime.NumCPU()` workers and channel blocking are left out. One worker is modelled sequentially, because ordering across workers is unspecified.
- Signal handling and the HTTP/pprof server are left out as foreign I/O.
- Reader.Supervise: `math.Pow(2, attempt)` is computed as the exact integer 2^attempt. For attempt ≤ 15 this equals the float result.
- Reader.Supervise: the model also stops, without giving up, when the given list of connection outcomes runs out. The real loop would call `reader` again.
- JsonDoc.Escape: only `"` and `\` are escaped. `json.Marshal` also writes control characters and `<`, `>`, `&`, U+2028 and U+2029 as escape sequences. It also repairs invalid UTF-8, which cannot occur in a Dafny `string`.
- Numbers.Atoi: returns `None` for every rejected text. The Go error distinguishes a syntax error from a range error, and the model keeps only the rejected key and text.
- JsonDoc.ToJson: the error branch after `json.Marshal` (json.go:56-59) is not modelled. Marshal cannot fail on a map of strings and ints.
- Go's `int` is taken to be 64 bits wide, as on the platforms the service runs on.
- Map keys are ordered by code point. This agrees with Go's byte-wise order for valid UTF-8 text.
