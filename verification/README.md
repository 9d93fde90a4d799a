# epiphany search server — request handling, metrics and SQLite helpers in Dafny

This project models the core of the epiphany search server, in three parts.

- **The HTTP request handler** (`epiphany/server/http_server.cc`):
  - `ParseHeaders` builds the header map from the raw request.
  - `ProcessRequest` splits the request line and routes on method and path: 405 for anything but GET, `/` rewritten to `/index.html`, then `/health`, `/metrics`, `/api/client_info`, `/api/search_v2`, `/api/search`, the `..` refusal and static files.
  - The two search endpoints percent-decode and split the query string, then validate `q`, `limit` and `offset`.
  - The client-info endpoint escapes `"` and `\` in header values.
  - `GetMimeType` picks a content type, and `HandleClient` records each request's metrics.
- **The metrics collector** (`epiphany/observability/metrics.cc`):
  - five request counters, the last and total latency, and a ten-bucket latency histogram with fixed edges;
  - the percentile estimator over that histogram;
  - the JSON snapshot `ToJson`.
- **The SQLite store's own logic** (`epiphany/database/sqlite_database.cc`):
  - the `escape_json` lambda;
  - the clamping of `limit` and `offset`;
  - the `LIKE` pattern;
  - the assembly of the `items` array;
  - the fallbacks when a statement cannot be prepared;
  - the `sqlite:` prefix check of `Database::Create`.

The files, one Dafny module each:

| file | module | contents |
|---|---|---|
| `strings.dfy` | `Wrappers`, `Strings` | `Option`, and the C++ library text operations the code relies on: `find`, `getline` with a delimiter, decimal output of integers, `std::stoi` (with `int` range), `std::strtol` in base 16 |
| `header_map.dfy` | `HeaderMap` | `std::map<std::string, std::string>` as a key-ordered association list under `std::string`'s `operator<` |
| `http_parse.dfy` | `HttpParse` | request line, `ParseHeaders`, the `decode` lambda, the query-string loop, argument validation |
| `metrics.dfy` | `Metrics` | the collector as a `Registry` class: counters as fields, the histogram as an `array` |
| `sqlite_database.dfy` | `Sqlite` | `escape_json`, the clamp, the `LIKE` pattern, the items array, `SqliteDatabase` over an abstract row source, `Create` |
| `http_server.dfy` | `Http` | replies and their wire form, `GetMimeType`, client-info, routing, the `HttpServer` class with `ProcessRequest` and `HandleClient` |

How the model stands in for the parts it does not run:

- **Replies.** Every reply of `ProcessRequest` is a status line, one `Content-Type` header, a blank line and a body. It is modelled as a `Reply` value (code, reason, content type, body), and `Wire` renders it to the text the code returns; `WireReadsBack` shows that the header block and the body are recovered from that text.
- **Functions, methods and classes.** The imperative parts keep their form:
  - the header loop, the `decode` loop, the query-string loop, the client-info loop, `escape_json`, the items loop and the two bucket loops are methods with loop invariants;
  - the collector's counters are fields the methods update;
  - `ProcessRequest` bumps them in place.
  - Each method is proved equal to a specification function, and the properties are proved about those functions.
- **Collaborators.** The search engines (`QRS::Search`, `QRS::SearchV2`), the file reader and the web root are fields of a `Backends` value. Because they are plain values, lemmas can state what a reply does not depend on.
- **SQLite.** The database is an abstract row source: whether `sqlite3_prepare_v2` succeeds, and the rows matching a `LIKE` pattern in the order SQLite yields them.

Details of the code's behaviour that the model keeps as written:

- The percentile target is `p * total` truncated toward zero, not rounded up (`metrics.cc:34`).
- `limit` and `offset` are clamped in the storage layer (`sqlite_database.cc:80-85`), not in the HTTP handler.
- The `errors` counter is bumped only by the 405 reply and the `..` refusal (`http_server.cc:130`, `:302`). A missing `q` or a bad number does not bump it, although the search counter was already bumped.
- The `LIKE` pattern is bound with `sqlite3_bind_text(..., -1, ...)` (`sqlite_database.cc:95`, `:134`), which reads it as a C string. A query holding a NUL (a decoded `%00`) reaches SQLite cut at that NUL, without the closing `%`; `Sqlite.BoundPattern` states what is bound.
- `HandleClient` and `ProcessRequest` take the client address, and `SqliteDatabase` has `Search(query, limit, offset)` and `Count(query)`, as in the `.cc` files; the headers declare narrower signatures.

## Model

| member | source | states |
|---|---|---|
| Strings.IndexOf | epiphany/server/http_server.cc:81 | `find` of a character: `None` exactly when the character is absent; otherwise the first index holding it |
| Strings.SplitJoin | epiphany/server/http_server.cc:215 | the pieces a `getline` loop reads never contain the delimiter, and joining them with it gives back the input less one final delimiter |
| Strings.Split | epiphany/server/http_server.cc:215 | a `getline` loop reads no piece from empty text, and the whole text as one piece when it has no delimiter |
| Strings.Stoi | epiphany/server/http_server.cc:233-240 | `std::stoi` succeeds only with a value in `int` range, and only when the text after the leading whitespace starts with a digit, or with `+` or `-` followed by a digit |
| Strings.StoiPrefix | epiphany/server/http_server.cc:233-237 | leading whitespace, one optional `+` or `-`, and a digit run whose value fits an `int` give that value, whatever non-digit text follows |
| Strings.StoiOutOfRange | epiphany/server/http_server.cc:233-240 | the same shape with a value outside `int` is refused (`std::out_of_range`) |
| Strings.StoiIntToString | epiphany/server/http_server.cc:232-237 | `std::stoi` reads back every `int` written in decimal |
| Strings.StrtolHex | epiphany/server/http_server.cc:200-201 | `strtol(hex, nullptr, 16)` gives 0 for text holding no hexadecimal digit |
| Strings.StrtolHexOneDigit | epiphany/server/http_server.cc:200-201 | one hexadecimal digit followed by a character that is not one gives that digit's value, as for the malformed escape `%4g` |
| Strings.StrtolHexPair | epiphany/server/http_server.cc:200-201 | `strtol(hex, nullptr, 16)` on two hexadecimal digits gives `16 * first + second` |
| HeaderMap.Lookup | epiphany/server/http_server.cc:157 | `count(k) ? m[k]` gives a value exactly when `k` is a key |
| HeaderMap.Insert | epiphany/server/http_server.cc:90 | `headers[key] = value`: the key set gains `key`, `key` maps to `value`, every other key keeps its value, the key order is kept |
| HeaderMap.LessIrreflexive | epiphany/server/http_server.cc:68 | `std::string`'s `operator<` never holds between a key and itself |
| HeaderMap.LessTransitive | epiphany/server/http_server.cc:68 | `operator<` is transitive |
| HeaderMap.LessTotal | epiphany/server/http_server.cc:68 | any two distinct keys are ordered one way or the other, so `std::map` has one place for each key |
| HeaderMap.OrderedUniqueKeys | epiphany/server/http_server.cc:167 | a map in key order holds no key twice |
| HttpParse.NextWord | epiphany/server/http_server.cc:124 | one `>>` extraction: skips the leading whitespace, takes the longest run without whitespace, and leaves the rest, which is empty or starts with whitespace; the word is empty only when the input is all whitespace |
| HttpParse.RequestLine | epiphany/server/http_server.cc:122-124 | `iss >> method >> path`: two words without whitespace, the path empty when the method is |
| HttpParse.RequestLineReadsWords | epiphany/server/http_server.cc:122-124 | a request line `method path ...` reads back as its method and path, whatever follows the path |
| HttpParse.ParseHeaderLine | epiphany/server/http_server.cc:77-90 | a line with its trailing `\r` dropped yields nothing exactly when it has no `:`; otherwise the key is the text before the first `:` as is, and the value is the text after it with leading blanks trimmed |
| HttpParse.TrimValue | epiphany/server/http_server.cc:85-89 | the trimmed value is a suffix of the value, all the text removed is spaces and tabs, and it starts with a non-blank whenever the value has one; a value of blanks only is kept unchanged |
| HttpParse.HeaderLines | epiphany/server/http_server.cc:74-76 | the header lines are the lines before the first empty or `"\r"` line |
| HttpParse.StoreHeaderLine | epiphany/server/http_server.cc:77-91 | one pass of the header loop stores the line as `ApplyLine` says |
| HttpParse.ParseHeaders | epiphany/server/http_server.cc:68-94 | the loop builds `HeadersOf(request)`: the first line skipped, the lines up to the end of the block stored in turn |
| HttpParse.HeadersOrdered | epiphany/server/http_server.cc:69 | the header map is in `std::map` key order, each key once |
| HttpParse.FoldHeadersLookup | epiphany/server/http_server.cc:90 | after storing lines in turn, a key holds the value of the last line naming it, or its old value if no line names it |
| HttpParse.HeaderIsLastLine | epiphany/server/http_server.cc:68-94 | a request's header under a key is the value of the last header line for that key in the block |
| HttpParse.PercentDecoded | epiphany/server/http_server.cc:195-211 | decoding never lengthens the text |
| HttpParse.Decode | epiphany/server/http_server.cc:195-211 | the `decode` loop builds `PercentDecoded(input)` |
| HttpParse.DecodeAt | epiphany/server/http_server.cc:199-208 | one pass of the loop moves forward, by 3 for an escape and 1 otherwise, and emits the text decoding gives there |
| HttpParse.DecodeWithoutPercent | epiphany/server/http_server.cc:204-207 | text without `%` decodes character for character, `+` to a space and everything else unchanged |
| HttpParse.DecodeShortEscape | epiphany/server/http_server.cc:199 | a `%` with fewer than two characters after it is copied, not decoded, and the character after it, if any, is decoded on its own |
| HttpParse.DecodeEscape | epiphany/server/http_server.cc:199-203 | `%XX` with the two upper-case hexadecimal digits of a byte decodes to that byte |
| HttpParse.DecodeEncode | epiphany/server/http_server.cc:195-211 | decoding undoes a client's percent-encoding of any byte string |
| HttpParse.QueryString | epiphany/server/http_server.cc:193-194 | the query string is the text after the first `?`, or empty without one |
| HttpParse.ParseQuery | epiphany/server/http_server.cc:212-227 | the `getline(qss, kv, '&')` loop builds `FieldsOf(qs)` |
| HttpParse.FoldQueryLast | epiphany/server/http_server.cc:215-227 | a field takes the decoded value of the last pair with its key, undecoded keys compared, pairs without `=` skipped |
| HttpParse.FieldIsLastPair | epiphany/server/http_server.cc:215-227 | `q`, `limit` and `offset` are each the decoded value of the last pair naming them, empty when none does |
| HttpParse.ArgsOf | epiphany/server/http_server.cc:228-241 | validation: missing `q` exactly when `q` is empty; a bad number exactly when a non-empty `limit` or `offset` fails `stoi`; otherwise the arguments run, defaulting to 10 and 0 |
| HttpParse.ArgsReadBack | epiphany/server/http_server.cc:232-237 | `q` with any `int` limit and offset written in decimal runs with exactly those numbers |
| HttpParse.ArgsRejectNonNumbers | epiphany/server/http_server.cc:238-240 | a `limit` without digits is refused as an invalid number |
| Metrics.EdgesIncreasing | epiphany/observability/metrics.cc:18 | ten bucket edges, strictly increasing |
| Metrics.BucketOf | epiphany/observability/metrics.cc:23-28 | a sample goes to the first bucket whose edge is at least the sample, and to none exactly when it exceeds the last edge |
| Metrics.BumpedExactlyOne | epiphany/observability/metrics.cc:23-28 | recording a sample adds 1 to its bucket only, so the bucket total grows by 1, or by 0 for a sample past the last edge |
| Metrics.Registry.constructor | epiphany/observability/metrics.cc:6-17 | every counter, both latencies and all ten buckets start at 0 |
| Metrics.Registry.RecordRequest | epiphany/observability/metrics.cc:19 | `requests` grows by 1; nothing else changes |
| Metrics.Registry.RecordLatency | epiphany/observability/metrics.cc:20-29 | the last latency becomes `ms`, the total grows by `ms`, the buckets become `Bumped(old buckets, ms)`, the counters are unchanged |
| Metrics.ReachFrom | epiphany/observability/metrics.cc:36-40 | the accumulating walk stops at the first bucket whose cumulative count reaches the target, or at the last bucket |
| Metrics.Registry.Percentile | epiphany/observability/metrics.cc:30-41 | the two loops compute `PercentileOf(buckets, num, den)`, which is 0 or a bucket edge |
| Metrics.PercentileIsEdge | epiphany/observability/metrics.cc:33-40 | an empty histogram reports 0; otherwise an edge, and the first edge when the truncated target is 0 |
| Metrics.PercentileIsLeastReaching | epiphany/observability/metrics.cc:34-39 | for `p <= 1` the percentile is the edge of the least bucket whose cumulative count reaches `floor(p * total)` |
| Metrics.PercentileMonotone | epiphany/observability/metrics.cc:30-41 | a larger `p` never gives a smaller percentile |
| Metrics.P95AtMostP99 | epiphany/observability/metrics.cc:45-46 | the reported p95 never exceeds the reported p99 |
| Metrics.SingleSlowSampleReportsFirstEdge | epiphany/observability/metrics.cc:34 | after one sample in bucket 9, the target truncates to 0 and p95 reports the first edge, 1 ms |
| Metrics.AverageLatency | epiphany/observability/metrics.cc:44 | 0 with no requests; otherwise the total divided by `requests`, truncated toward zero |
| Metrics.Registry.ToJson | epiphany/observability/metrics.cc:42-55 | the snapshot text renders the counters, the last latency, the average and both percentiles; p95 is at most p99 |
| Sqlite.EscapeChar | epiphany/database/sqlite_database.cc:44-75 | the exact escape of each character: `\"`, `\\`, `\b`, `\f`, `\n`, `\r`, `\t` for their characters, `\u00` and two lower-case hexadecimal digits for any other control character, and a printable character other than `"` and `\` copied; the result is never empty and holds no control character |
| Sqlite.Escaped | epiphany/database/sqlite_database.cc:40-78 | the escaped text is at least as long as the input and holds no control character |
| Sqlite.EscapeJson | epiphany/database/sqlite_database.cc:40-78 | the character loop builds `Escaped(s)` |
| Sqlite.UnescapeOneChar | epiphany/database/sqlite_database.cc:44-75 | a JSON reader decodes each escaped character back to the character |
| Sqlite.UnescapeEscaped | epiphany/database/sqlite_database.cc:40-78 | a JSON reader (section 7 of RFC 8259) reads every escaped string back unchanged |
| Sqlite.ClampLimit | epiphany/database/sqlite_database.cc:80-83 | a limit of 0 or less becomes 10, one above 100 becomes 100, and one in 1..100 is unchanged |
| Sqlite.ClampOffset | epiphany/database/sqlite_database.cc:84-85 | a negative offset becomes 0, and a non-negative offset is unchanged |
| Sqlite.ClampIdempotent | epiphany/database/sqlite_database.cc:80-85 | clamping twice is clamping once |
| Sqlite.LikePattern | epiphany/database/sqlite_database.cc:94 | the pattern is the query, unescaped, between two `%` |
| Sqlite.BoundPattern | epiphany/database/sqlite_database.cc:95 | what `sqlite3_bind_text` with length -1 binds: the whole pattern for a query without NUL, otherwise `%` and the query up to its first NUL |
| Sqlite.Page | epiphany/database/sqlite_database.cc:87-88 | `LIMIT ? OFFSET ?`: none past the end, `limit` rows when enough remain, otherwise every row after the offset; each the matching row `offset` further on |
| Sqlite.PageAndCount | epiphany/database/sqlite_database.cc:87-97 | after clamping, a page never holds more than the limit, holds exactly the limit when enough rows match, and every row after the offset when fewer do |
| Sqlite.WriteRow | epiphany/database/sqlite_database.cc:105-113 | one row: escaped title, price text, escaped image URL, a missing text column read as empty |
| Sqlite.ItemsArrayShape | epiphany/database/sqlite_database.cc:99-116 | the items array is bracketed; it is `[]` exactly when no row matched; otherwise it starts with `[{` and ends with `}]`, with no leading or trailing comma |
| Sqlite.SqliteDatabase.WriteItems | epiphany/database/sqlite_database.cc:99-116 | the row loop builds `[` + the rendered rows joined by `,` + `]` |
| Sqlite.SqliteDatabase.Search | epiphany/database/sqlite_database.cc:37-125 | a failed prepare answers the empty reply with `latency_ms` 0; otherwise the items of the clamped page of rows matching the bound pattern |
| Sqlite.SqliteDatabase.Count | epiphany/database/sqlite_database.cc:127-141 | the number of rows matching the same bound pattern, or 0 when the statement cannot be prepared |
| Sqlite.SqliteDatabase.constructor | epiphany/database/sqlite_database.cc:16 | the store holds the handle it is given |
| Sqlite.Create | epiphany/database/sqlite_database.cc:147-167 | nothing unless the text starts with `sqlite:` and the file after those 7 characters opens; a store on that file otherwise |
| Http.Wire | epiphany/server/http_server.cc:131-132 | a reply's bytes start with `HTTP/1.1 ` and end with its body |
| Http.WireReadsBack | epiphany/server/http_server.cc:131-132 | with no `\r` in the code, reason or content type, the bytes are the status line, the `Content-Type` line, then `\r\n\r\n` and the body, and that `\r\n\r\n` is the first one, so a client reads back exactly the body |
| Http.WireCode | epiphany/server/http_server.cc:131 | a reply's three-digit code is what the client reads after `HTTP/1.1 ` |
| Http.MimeType | epiphany/server/http_server.cc:326-334 | HTML exactly when `.html` occurs anywhere in the path; CSS exactly when `.css` does and `.html` does not; JavaScript exactly when `.js` does and neither earlier one does; plain text exactly when none does |
| Http.JsonServedAsJavascript | epiphany/server/http_server.cc:331-332 | substring, not suffix, matching: a `.json` path without `.html` or `.css` is served as JavaScript |
| Http.HtmlWinsOverScript | epiphany/server/http_server.cc:327-328 | `.html` is tested first and wins over the others |
| Http.QuoteChar | epiphany/server/http_server.cc:175-180 | `"` is written as `\"`, `\` as `\\`, and every other character is copied |
| Http.QuoteEscaped | epiphany/server/http_server.cc:173-181 | escaping never shortens a header value |
| Http.EscapeQuotes | epiphany/server/http_server.cc:173-181 | the escaping loop builds `QuoteEscaped(value)` |
| Http.QuoteEscapedReadsBack | epiphany/server/http_server.cc:173-181 | a header value without control characters is read back unchanged by a JSON reader |
| Http.TabBreaksEcho | epiphany/server/http_server.cc:174-181 | a header value holding a tab is echoed as invalid JSON, because only `"` and `\` are escaped |
| Http.ClientInfoJson | epiphany/server/http_server.cc:152-186 | the client-info stream builds `ClientInfoBody`: address, port, five named headers, then every header |
| Http.NamedFieldsVerbatim | epiphany/server/http_server.cc:152-166 | the address and the five named header fields (`User-Agent`, `Accept-Language`, `Host`, `Connection`, `Accept`) appear in the body exactly as they are, without escaping |
| Http.RouteOf | epiphany/server/http_server.cc:129-305 | routing: not allowed exactly for a method other than GET, health exactly for a GET of `/health`, a static file only at the rewritten path and only without `..`, the `..` refusal exactly for a GET whose rewritten path is not `/health`, starts with no endpoint prefix and holds `..` |
| Http.GetRoute | epiphany/server/http_server.cc:135-305 | for a GET, each route exactly when its own test holds and every earlier one fails, in the order `/health`, `/metrics`, `/api/client_info`, `/api/search_v2`, `/api/search`, `..`, file |
| Http.PrefixSelectsEndpoint | epiphany/server/http_server.cc:145-299 | each endpoint prefix selects its own endpoint whatever else the path holds, `..` included, and `/api/search` without `_v2` selects v1 |
| Http.DotDotInQueryIsSearched | epiphany/server/http_server.cc:246-301 | `/api/search?q=1..2` is searched, not refused, because the endpoint test runs before the `..` test |
| Http.OnlyGetIsServed | epiphany/server/http_server.cc:129-133 | a request is refused with 405 exactly when its method is not `GET`, before any path test |
| Http.StaticPathsAreSafe | epiphany/server/http_server.cc:301-306 | a file is read only for a GET of a path without `..` that no endpoint claims: not `/health`, and not starting with `/metrics`, `/api/client_info` or `/api/search` |
| Http.SearchV2BeforeSearch | epiphany/server/http_server.cc:191-246 | a `/api/search_v2...` path also starts with `/api/search`, and is routed to v2 |
| Http.HealthIsExact | epiphany/server/http_server.cc:139 | a request is the health check exactly when it is a GET whose rewritten path is `/health`; `/health/` is a file path |
| Http.RouteEffect | epiphany/server/http_server.cc:130-302 | each route bumps its own counter: `errors` for 405 and `..`, `health`, `api_search`, `api_search_v2`; `requests` is not touched |
| Http.AtMostOneCounter | epiphany/server/http_server.cc:129-305 | a request bumps at most one route counter, by 1 |
| Http.SearchStatus | epiphany/server/http_server.cc:228-243 | a search answers 200 exactly when its arguments are valid, 400 otherwise |
| Http.RejectedQueryNeverSearches | epiphany/server/http_server.cc:228-241 | a missing `q` or a bad number is answered without calling the engine, with the matching error |
| Http.AnswerStatus | epiphany/server/http_server.cc:129-313 | every reply's code is the one its route calls for: 405, 400 for `..` and bad arguments, 404 for an empty file, 200 otherwise; that code sits on the wire after `HTTP/1.1 ` |
| Http.DotDotIsRefused | epiphany/server/http_server.cc:301-305 | a path holding `..` is never routed to the file reader |
| Http.DotDotNeverReadsFiles | epiphany/server/http_server.cc:301-306 | the reply to a `..` request does not depend on the file reader |
| Http.AnswerWithoutFile | epiphany/server/http_server.cc:129-305 | only the static-file branch consults the file reader |
| Http.SearchV2NeverRunsV1 | epiphany/server/http_server.cc:191-244 | a GET of `/api/search_v2...` is routed to v2, and its reply does not depend on the v1 engine |
| Http.AnswerSearchV2 | epiphany/server/http_server.cc:242 | the v2 branch consults only the v2 engine |
| Http.HttpServer.constructor | epiphany/server/http_server.cc:19-23 | the server keeps its port, collector and services |
| Http.HttpServer.SearchEndpoint | epiphany/server/http_server.cc:191-243 | the search branch answers `SearchEndpointReply` for its path and engine |
| Http.HttpServer.Build | epiphany/server/http_server.cc:129-313 | the branch taken for a route answers `Answer` for it, the metrics page built from the collector's current snapshot |
| Http.HttpServer.ServeFile | epiphany/server/http_server.cc:306-313 | the file's content under its MIME type, or 404 when the reader yields nothing |
| Http.HttpServer.CountRoute | epiphany/server/http_server.cc:130-302 | the route's counter bump, `RouteEffect`, and no other change to the collector |
| Http.HttpServer.ProcessRequest | epiphany/server/http_server.cc:119-314 | the reply is `Respond(request, …)` with the metrics text as it stood on entry; the counters change by `RouteEffect` of the request's route; latencies and buckets are untouched |
| Http.HttpServer.RecordCompletion | epiphany/server/http_server.cc:114-115 | after a reply: `requests` grows by 1, then the latency is recorded in its bucket; the bucket total stays at most `requests` |
| Http.HttpServer.HandleClient | epiphany/server/http_server.cc:96-117 | the bytes sent are the wire form of the reply to the received text cut at its first NUL; the counters move by the route's bump plus one request; the latency lands in its bucket; the bucket total stays at most `requests` |

## Left out

- Sockets: `Start`, `socket`/`bind`/`listen`/`accept`, and the `read`, `send` and `close` of `HandleClient` are I/O. `HandleClient` takes the received text and the elapsed milliseconds as inputs and returns the bytes it sends.
- Http.HttpServer.HandleClient: when the client sends 4096 bytes with no NUL, the buffer is not terminated and `std::string(buffer)` reads past it. The model instead cuts the request at 4096 characters.
- The `[req]` line `HandleClient` writes to standard output is not modelled.
- The steady clock around `ProcessRequest` is not modelled; its reading is the `elapsedMs` input.
- `ReadFile` is the `readFile` field of `Backends`. A missing file and an empty file both read as empty text, as the code treats them.
- `QRS::Search` and `QRS::SearchV2` are the `search` and `searchV2` functions of `Backends`. Their clocks, trace id and aggregates (`qrs.h`), the `Searcher` wrapper and `main.cc` are not part of this model.
- All `sqlite3_*` calls are abstract. Whether `sqlite3_prepare_v2` succeeds is the `prepares` field, and the matching rows are the `matching` function. `Execute` and the destructor are not part of this model.
- Sqlite.SqliteDatabase.Search: a `sqlite3_step` error part-way through a scan, which ends the loop early, is not modelled; the page is all rows SQLite yields.
- Sqlite.SqliteDatabase.Search: the elapsed time printed with `std::fixed` and `setprecision(3)` is the `latencyText` input.
- Sqlite.WriteRow: `std::to_string(price)` of a `double` is not modelled; the price is the `priceText` field of a row.
- Sqlite.SqliteDatabase.Count: `sqlite3_column_int` is 32-bit; the model returns the unbounded number of matching rows.
- Sqlite.Create: `sqlite3_open` is the `opens` predicate, and the store's handle is represented by the file name.
- Metrics.Registry.Percentile: `p` is a `double` in the code and the rational `num/den` here, with target `floor(num * total / den)`. For 0.95 and 0.99 the double product can round differently from the exact one near a whole number.
- Metrics.Registry.RecordRequest: the counters are unbounded `nat` values; the 64-bit `long` wrap-around after 2^63 requests is not modelled. The same holds for `RecordLatency`, `CountRoute` and the latency total.
- The counters are `std::atomic` in the code. The server handles one connection at a time, so they are plain fields, and no concurrency is modelled.
- Http.HttpServer.ProcessRequest: the code bumps a route's counter before it builds the reply, while the model builds the reply first. The only branch that reads the counters, `/metrics`, bumps none, so the order cannot be observed.
- Characters are Dafny `char` values standing for bytes. No character encoding is modelled; `static_cast<char>` of a decoded escape is the value modulo 256.
