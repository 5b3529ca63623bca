# Sera in Dafny

Sera is a small single-threaded HTTP server written in C. It reads one
request per connection and resolves the request path against a document root.
It then picks a handler by the path's extension (`.lua`, `.py`, `.php`, `.js`,
`.db`, `.cmod`) and runs it. A handler body starting with `__FORWARD__:`
re-dispatches internally. The server writes an HTTP/1.1 response with a
fixed header layout.

This project models the logic that decides what the server does:

- extension routing (`router.dfy`);
- the `<name>` pattern matcher and request dispatch with forwards (`dispatcher.dfy`);
- configuration loading, with its in-place `trim` over a character array and a class for the configuration record (`config.dfy`);
- response serialisation onto a socket modelled as a growing output sequence, and a client-side reading of those bytes used to prove that the header round-trips (`response_writer.dfy`);
- request-line tokenising, path resolution and the 500 fallback of `handle_client` (`server.dfy`);
- the PHP handler's command line and output accumulation (`php.dfy`).

Two support modules model the C library behaviour the code relies on:

- `cstrings.dfy`: `strlen`, `strchr`, `strrchr`, `strstr` and the truncation of `snprintf`/`strncpy`;
- `decimal.dfy`: `%d`/`%zu` rendering and `atoi`.

The handlers that embed interpreters (Lua, Python, QuickJS, SQLite,
`dlopen`) are an oracle: a function from handler kind and request to an
optional response. Socket, file and pipe I/O become inputs (the text one
`read` returned, the lines of the file, the chunks of the pipe) and outputs
(the bytes written, whether the descriptor was closed, the blocks
`handle_client` itself frees).

`dispatch_request` recurses on forwards with no bound, so the model follows
forwards with a fuel parameter. `Unbounded` reports "still forwarding";
a lemma shows that more fuel never changes a result that already returned.

## Model

| member | source | states |
|---|---|---|
| CStrings.IndexOf | src/dispatcher.c:10-11 | `strchr`: the result is the first position holding the character; `None` exactly when it does not occur |
| CStrings.LastIndexOf | src/router.c:15 | `strrchr`: the result is the last position holding the character; `None` exactly when it does not occur |
| CStrings.FindSub | src/dispatcher.c:21 | `strstr`: the result is the first position where the needle occurs; `None` exactly when it occurs nowhere |
| CStrings.Truncate | src/response.c:7 | what a bounded copy keeps: a prefix of at most `n` characters, the whole text when it fits, exactly `n` otherwise |
| CStrings.Strlen | src/handler_php.c:25 | `strlen`: the position of the first NUL, or the whole length when there is none; no NUL comes before it |
| CStrings.CStr | src/config.c:12 | the C string a buffer holds: a prefix of the buffer without NUL, ended by a NUL or by the buffer's end |
| Decimal.NatToString | src/response.c:10 | `%zu` prints at least one digit, only digits, and no leading zero |
| Decimal.IntToString | src/response.c:8 | `%d` prints a leading `-` exactly for negatives, digits otherwise |
| Decimal.Atoi | src/config.c:46 | definition, no contract of its own: `atoi` (leading white space, one sign, the leading digits); `AtoiIntToString` and `AtoiWithoutDigits` are about it |
| Decimal.AtoiIntToString | src/config.c:46 | `atoi` reads back every printed integer |
| Decimal.AtoiWithoutDigits | src/config.c:46 | `atoi` of text without digits is 0 |
| Decimal.ParseIntIntToString | src/response.c:8 | a strict reading of the printed status gives the status back |
| Decimal.ParseNatNatToString | src/response.c:10 | a strict reading of the printed length gives the length back |
| Decimal.NatToStringLength | src/response.c:6-12 | a number below 10^k prints in at most k digits |
| Sera.PathOnly | src/dispatcher.c:51 | a request built with only `.path` has every other field unset |
| Router.Lookup | src/router.c:17-20 | definition, no contract of its own: the value of the first table entry whose extension equals the key; `LookupFirstMatch` states its meaning |
| Router.Handlers | src/router.c:4-12 | definition, no contract of its own: the handler table in declaration order; `HandlersDistinct`, `PrefixFree` and `ExtensionShape` state its properties |
| Router.LookupFirstMatch | src/router.c:17-21 | the table scan finds an entry exactly when one has the key, and returns the value of the first such entry |
| Router.HandlersDistinct | src/router.c:4-12 | no two table entries share an extension, so at most one matches |
| Router.PrefixFree | src/router.c:4-12 | no extension in the table is a prefix of another |
| Router.ExtensionShape | src/router.c:4-12 | every extension is a dot followed by at least one non-dot |
| Router.FindHandler | src/router.c:14-22 | definition, no contract of its own: the table entry for the text from the last dot; `FindHandlerSpec`, `NoDotNoHandler`, `LastExtensionWins`, `TrailingTextAfterExtension` and `UpperCaseExtension` are about it |
| Router.NoDotNoHandler | src/router.c:15-16 | a path without a dot gets no handler |
| Router.FindHandlerSpec | src/router.c:14-22 | a path selects kind k exactly when it ends in an extension the table maps to k |
| Router.LastDotAt | src/router.c:15 | the last dot is at d when `path[d]` is a dot and none follows |
| Router.LastExtensionWins | src/router.c:15 | any text before a known extension, earlier extensions included, selects that extension's handler |
| Router.TrailingTextAfterExtension | src/router.c:15-18 | text without a dot after an extension (`a.lua/b`) leaves the lookup without a match |
| Router.UpperCaseExtension | src/router.c:18 | matching is case-sensitive: `.LUA` selects nothing |
| Dispatcher.MatchAround | src/dispatcher.c:19-30 | with a placeholder: a match exactly when the path starts with the prefix and the suffix occurs after it; the value runs up to the first occurrence |
| Dispatcher.MatchDynamic | src/dispatcher.c:9-31 | without a placeholder, a match exactly when pattern equals path; with one, the name is the text between the first `<` and `>` and the path starts with prefix + value + suffix |
| Dispatcher.EmptySuffixMatchesAnyTail | src/dispatcher.c:17-29 | when `>` ends the pattern, every path with the prefix matches with an empty value |
| Dispatcher.ForwardBody | src/handler_lua.c:29 | a forward body starts with the 12-character marker and carries the path after it |
| Dispatcher.NotFound | src/dispatcher.c:35-41 | the fixed answer is well formed with status 404 |
| Dispatcher.Dispatch | src/dispatcher.c:33-56 | a returned response never starts with the forward marker |
| Dispatcher.DispatchNotFound | src/dispatcher.c:34-41 | a path no handler claims gets 404, `text/plain`, `Not Found`, length 9 |
| Dispatcher.DispatchReturnsHandlerResult | src/dispatcher.c:44-55 | a NULL from the handler is passed on; a body without the marker is returned unchanged |
| Dispatcher.DispatchFollowsForward | src/dispatcher.c:47-52 | a forward re-dispatches a request holding exactly the forwarded path, with method, query and body dropped |
| Dispatcher.DispatchFuelMonotone | src/dispatcher.c:47-52 | once dispatch has returned, more fuel returns the same thing |
| Dispatcher.SelfForwardNeverReturns | src/dispatcher.c:47-52 | there is no depth bound: a handler forwarding to its own path never returns, for any fuel |
| Dispatcher.DispatchResultOrigin | src/dispatcher.c:33-56 | the result is the fixed 404, or what some handler answered for a path routed to it |
| Config.CopyInto | src/config.c:40-41 | `strcpy` leaves the text followed by a terminator in the buffer |
| Config.DropTrailingSpace | src/config.c:12-14 | the result is a prefix whose cut-off tail is all white space and which does not end in white space |
| Config.Trimmed | src/config.c:8-15 | only trailing white space goes; an all-space line is left as it was |
| Config.DropTrailingSpaceAt | src/config.c:12-14 | cutting after the last non-space character is what the trim does |
| Config.SkipLeadingSpace | src/config.c:10-11 | the position is that of the first non-space character of the C string, or of its terminator, and all before it is white space |
| Config.LastNonSpace | src/config.c:12-13 | from the first non-space character, the position of the last non-space character of the C string; all after it is white space |
| Config.Trim | src/config.c:8-15 | `trim` in place: the buffer afterwards holds exactly the trimmed C string |
| Config.Entry | src/config.c:32-43 | definition, no contract of its own: the key and value a raw line sets once trimmed |
| Config.LineEntry | src/config.c:33-43 | definition, no contract of its own: skip a comment or empty line, split at the first `=`, trim both sides; `StoreLine` is proved against it |
| Config.Assign | src/config.c:45-51 | definition, no contract of its own: `port` takes `atoi` of the value, `root` and `index` the value cut to their fields, other keys nothing; `Store` is proved against it |
| Config.ApplyLine | src/config.c:32-51 | definition, no contract of its own: the effect of one line; `SkippedLines`, `IndentedKeyIgnored` and `PortWithoutDigits` are about it |
| Config.ApplyLines | src/config.c:30-52 | definition, no contract of its own: the lines applied in order; `LastOccurrenceWins`, `UnrecognisedLinesIgnored` and `BoundsPreserved` are about it |
| Config.SkippedLines | src/config.c:33-36 | comment lines, blank lines and lines without `=` change nothing |
| Config.IndentedKeyIgnored | src/config.c:42-51 | a key with leading white space is not recognised |
| Config.PortWithoutDigits | src/config.c:46 | a `port` value without digits sets the port to 0 |
| Config.LastOccurrenceWins | src/config.c:31-52 | the last line setting a key decides its value |
| Config.UnrecognisedLinesIgnored | src/config.c:45-51 | lines setting none of `port`, `root`, `index` leave the settings unchanged |
| Config.BoundsPreserved | src/config.c:45-51 | `root` and `index` within their buffers stay within them whatever lines follow |
| Config.FieldsStayBounded | src/config.c:48-50 | `root` stays under 256 and `index` under 128 characters |
| Config.ServerConfig.SetDefaults | src/config.c:18-22 | the record holds port 8080, root `./scripts`, index `app.lua` |
| Config.ServerConfig.LoadConfig | src/config.c:24-56 | a missing file returns 0 with exactly the defaults; an opened file returns 1 with the lines applied in order to the defaults |
| Config.ServerConfig.ReadLines | src/config.c:30-52 | the loop applies the lines to the record in order |
| Config.ServerConfig.ReadLine | src/config.c:31-51 | one loop pass changes the record as the line's effect says |
| Config.ServerConfig.StoreLine | src/config.c:33-51 | after the trim, the record changes as the trimmed line's key and value say, and not at all for a comment, an empty line or a line without `=` |
| Config.ServerConfig.Store | src/config.c:45-51 | only `port`, `root` and `index` are stored, each in its own field |
| Config.SplitAt | src/config.c:38-43 | the split at the first `=` gives the trimmed key and the trimmed value |
| ResponseWriter.Socket.Write | src/response.c:14-15 | a write appends the first n bytes of the buffer to the output |
| ResponseWriter.Socket.Close | src/main.c:115 | `close` marks the descriptor closed and changes nothing else |
| ResponseWriter.HeaderText | src/response.c:7-12 | definition, no contract of its own: the format string filled with status, content type and length; `ParseHeadText` and `HeaderNotTruncated` are about it |
| ResponseWriter.Header | src/response.c:6-12 | the header kept in the buffer is at most 1023 characters |
| ResponseWriter.Wire | src/response.c:14-15 | the output is the header followed by exactly `body_len` bytes of body |
| ResponseWriter.SendHttpResponse | src/response.c:5-16 | the socket's output grows by exactly the header and the body, in that order |
| ResponseWriter.FreeResponse | src/response.c:18-22 | NULL frees nothing; a response frees its body and ends with the record |
| ResponseWriter.ParseHeadText | src/response.c:7-12 | the printed header reads back as its status, content type and length, and ends where the body begins |
| ResponseWriter.ReadWire | src/response.c:7-15 | an untruncated response reads back with Content-Length equal to `body_len` and exactly that much body |
| ResponseWriter.HeaderNotTruncated | src/response.c:6-12 | a 32-bit status, a 64-bit length and a content type of at most 923 characters fit the header buffer |
| ResponseWriter.ReadWireWhole | src/response.c:5-16 | a well-formed response whose header fits reads back exactly as built |
| Server.LeadingWord | src/main.c:88 | one `%s` takes the maximal run of non-space characters |
| Server.Token | src/main.c:88 | definition, no contract of its own: one `%s` conversion, white space skipped, then the word and what follows; `TokenOf` states its meaning |
| Server.FirstTwoTokens | src/main.c:87-88 | when both conversions succeed, method and path are non-empty and hold no white space |
| Server.TokensOfRequestLine | src/main.c:87-88 | `method SP path SP ...` yields exactly that method and that path, with any leading white space skipped |
| Server.OneTokenOnly | src/main.c:88 | a text with a single token gives no path |
| Server.ResolvePath | src/main.c:91-95 | the resolved path is below 2048 characters |
| Server.ResolveIndex | src/main.c:92-93 | `/` resolves to root + `/` + index |
| Server.ResolveVerbatim | src/main.c:94-95 | any other path follows the root unchanged, `..` included |
| Server.ResolveInjective | src/main.c:94-95 | within the buffer, different paths other than `/` give different resolved path strings (no normalisation, so different strings may still name one file) |
| Server.ResolveTruncates | src/main.c:91-95 | past 2047 characters the resolved path is cut, so longer paths collide; this needs a root longer than the configuration's 255 characters (`ResolveWithinConfig`) |
| Server.ResolveWithinConfig | src/main.c:91-95 | with a root under 256, an index under 128 and a path under 1024 characters, the resolved text is never cut |
| Server.InternalError | src/main.c:103-108 | the fallback record is well formed with status 500 |
| Server.DispatchSendable | src/dispatcher.c:33-56 | dispatch returns a sendable response whenever every handler does |
| Server.Answer | src/main.c:102-115 | definition, no contract of its own: for a dispatch outcome, what is written, whether the descriptor is closed and what is freed; `Respond` is proved against it |
| Server.ServeAsWritten | src/main.c:81-116 | definition, no contract of its own: `handle_client` as written; `HandleClientAsWritten` is proved against it, and `EmptyReadSendsNothing` and `NullResponseLeavesSocketOpen` are about it |
| Server.Serve | src/main.c:81-116 | definition, no contract of its own: the same with a close on every return; `HandleClient` is proved against it and `ServeClosesWhenDone` relates the two |
| Server.Respond | src/main.c:102-115 | NULL sends the 500 without closing; a response is sent, freed and the descriptor closed |
| Server.HandleClientAsWritten | src/main.c:81-116 | the connection changes exactly as `handle_client` as written prescribes |
| Server.HandleClient | src/main.c:81-116 | the same, with the descriptor closed on every return |
| Server.EmptyReadSendsNothing | src/main.c:83-84 | an empty read writes, closes and frees nothing |
| Server.InternalErrorReadsBack | src/main.c:102-109 | the 500 reads back as status 500, `text/plain`, `Internal Server Error`, 21 bytes |
| Server.NullResponseReadsAs500 | src/main.c:102-110 | a NULL dispatch result reaches the client as that 500 |
| Server.ResponseReadsBack | src/main.c:113-115 | a handler's response reaches the client as returned and is then freed |
| Server.DispatchedRequestIsPathOnly | src/main.c:99-100 | the dispatched request carries only the resolved path |
| Server.RequestFor | src/main.c:87-99 | definition, no contract of its own: the request built from the received text (its second token resolved against root and index); `DispatchedRequestIsPathOnly` and `RequestPathWhole` are about it |
| Server.RequestPathWhole | src/main.c:87-99 | a request that fits the buffers is dispatched with the whole resolved path, for any root and index the configuration holds |
| Server.ServeClosesWhenDone | src/main.c:102-115 | the corrected handler closes on every return and otherwise acts as written |
| Server.NullResponseLeavesSocketOpen | src/main.c:102-110 | as written, the 500 path leaves the descriptor open |
| Server.NullResponseExample | src/main.c:102-110 | `GET /x.lua HTTP/1.1` under `./scripts` with a NULL Lua handler gets the 500 and stays open |
| PhpHandler.Command | src/handler_php.c:7-8 | the command line starts with `php ` and stays within the buffer |
| PhpHandler.CommandRunsScript | src/handler_php.c:7-8 | a command that fits runs exactly the path without its first character |
| PhpHandler.CommandTruncated | src/handler_php.c:7-8 | a longer path fills the 1023 characters and loses the end of the command |
| PhpHandler.ChunkText | src/handler_php.c:25-27 | the text of a chunk up to its terminator: it holds no NUL, begins the chunk, and ends at the chunk's first NUL or at its end |
| PhpHandler.Concat | src/handler_php.c:24-30 | definition, no contract of its own: the chunks' texts in read order; `ConcatLength`, `ConcatAppend`, `ConcatNoNul` and `ReadOutput` are about it |
| PhpHandler.TotalLength | src/handler_php.c:28 | definition, no contract of its own: the sum of the chunk lengths; `ConcatLength` relates it to `Concat` |
| PhpHandler.ConcatLength | src/handler_php.c:24-30 | the accumulated output is as long as the chunks together |
| PhpHandler.ConcatAppend | src/handler_php.c:24-30 | reading in two runs gives the two outputs one after the other |
| PhpHandler.ConcatNoNul | src/handler_php.c:36-37 | the accumulated output holds no terminator, so `strlen` measures all of it |
| PhpHandler.PhpResponse | src/handler_php.c:10-38 | definition, no contract of its own: the record returned for the pipe's chunks; `PhpResponseSpec` states its meaning and `HandlePhp` is proved against it |
| PhpHandler.PhpResponseSpec | src/handler_php.c:10-38 | 500 exactly when the pipe did not open; otherwise 200, `text/html`, all the output and its full length |
| PhpHandler.NoOutputEmptyBody | src/handler_php.c:36-37 | no output gives 200 with the empty body and length 0 |
| PhpHandler.AppendChunk | src/handler_php.c:25-29 | the buffer grows by the C text of the chunk, and the total by its length |
| PhpHandler.ReadOutput | src/handler_php.c:20-30 | the buffer stays NULL exactly when no chunk came; otherwise it holds all the chunks in order, and the total is their summed length |
| PhpHandler.HandlePhp | src/handler_php.c:6-39 | the command it builds and the record it returns for the chunks the pipe delivered |

## Left out

- Sockets, `bind`/`listen`/`accept`, the accept loop, `sera_log`, and `fopen`/`popen`/`pclose` are not modelled. Their data become parameters: the received text, the file's lines, the pipe's chunks.
- The Lua, Python, JavaScript, SQLite and native-module handlers are not modelled. They are an oracle from kind and request to an optional response. Only the forward body format they produce is kept (`ForwardBody`).
- Dispatcher.Dispatch: the source recurses without bound. The model follows at most `fuel` forwards and reports `Unbounded` beyond them.
- `dispatch_request` reads the forward path from the body after freeing the response (src/dispatcher.c:48-52), which is a use after free. The model takes the intended path, the body after the marker. Memory reuse is not modelled.
- Server.HandleClientAsWritten requires a read of at most 4095 bytes that holds both tokens, with a method under 8 and a path under 1024 characters. With fewer tokens `path` is used uninitialised; longer tokens overflow `method[8]` or `path[1024]`. Both are undefined behaviour.
- Server.HandleClientAsWritten requires every handler response to be well formed (`body_len` equal to the body's length, no NUL). `send_http_response` reads `body_len` bytes regardless.
- Config.ServerConfig.LoadConfig takes the file as the pieces `fgets` returns and requires each to fit `line[512]` without NUL. The split key and value must fit `key[64]` and `val[256]`, since `strcpy` would overflow them. Splitting lines longer than 511 characters is not modelled.
- Config.Assign: `strncpy` with 255 or 127 characters writes no terminator when the value is that long. The model keeps the evident intent: the value cut to the field.
- Decimal.Atoi: `atoi` is read with unbounded integers. Overflow past `int` is undefined behaviour in C and not modelled.
- ResponseWriter.FreeResponse: the guard against a NULL body is not modelled, because every producer in the code allocates one.
- PhpHandler.HandlePhp: the pipe's chunks are given. The 8191-character limit of each `fgets` is not modelled, and the `pclose` status is ignored, as in the source.
- The route table with `:name`, optional and wildcard segments, per-method routes, a static-file fallback, a forward depth limit, locking, and the environment variables and status-line passthrough of a subprocess adapter are described for the system but absent from the code. The model follows the code, so it has none of them: an unmatched extension gets 404 and forwards are unbounded.
- Dispatcher.MatchDynamic requires a prefix and a suffix of at most 127 characters. Longer ones overflow `prefix[128]` and `suffix[128]` (src/dispatcher.c:14-17), which is undefined behaviour.
- ResponseWriter.Socket.Write always writes all `n` bytes. `send_http_response` ignores what `write` returns (src/response.c:14-15), and a short write or a write error is not modelled.
- Dispatcher.Dispatch and Dispatcher.NotFound: a NULL from `malloc` or `strdup` (src/dispatcher.c:36,39) is not modelled. Allocation is assumed to succeed.
- PhpHandler.HandlePhp: a NULL from `malloc`, `realloc` or `strdup` (src/handler_php.c:12,15,26,33,36) is not modelled. Allocation is assumed to succeed.
- The handler oracle is stateless: a handler's answer depends only on its kind and request. The Lua state `L` and the Python route dictionary persist across requests in the source; `SelfForwardNeverReturns` and `DispatchResultOrigin` rely on the oracle being deterministic.
- Server.Handling records only the blocks `handle_client` frees itself (src/main.c:114). The frees of forwarded responses inside `dispatch_request` (src/dispatcher.c:49) are not recorded.

## Findings

| source | as written | input that shows it | evidently intended | confidence | as-written member | corrected member |
|---|---|---|---|---|---|---|
| src/main.c:102-110 | after sending the 500 for a NULL dispatch result, `handle_client` returns without `close(client_fd)`, and the accept loop never closes it either | `GET /x.lua HTTP/1.1` with root `./scripts` and a Lua handler that returns NULL | the descriptor is closed on every return, as on the success path at main.c:115 | high, not executed | Server.NullResponseExample | Server.ServeClosesWhenDone |
| src/main.c:83-84 | a read of 0 bytes or an error returns without closing the descriptor | an empty read | the descriptor is closed on this return too | high, not executed | Server.EmptyReadSendsNothing | Server.ServeClosesWhenDone |
