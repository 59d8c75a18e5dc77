# REST routing engine of portd_rest, in Dafny

This project models the REST dispatch engine that the port daemon's HTTP server runs:

- **Module table.** A fixed table of five URI prefixes (modules).
- **Pattern lists.** Each module has a linked list of URI patterns. A pattern carries one handler slot per HTTP method.
- **Matching.**
  - The matcher splits a request path into `/`-separated segments.
  - It picks the module whose prefix is the first segment.
  - It returns the first pattern, in registration order, that accepts the rest of the path. A `+` segment accepts any one segment, a `#` segment accepts the rest of the path, and any other segment must be equal.
- **Response accumulator.** A grow-only output buffer that handlers append to with `rest_write` (JSON) and `rest_write_file` (FILE, with a file name kept from the first write).
- **Query lookup.** Lookup of `key=value` pairs in the query string.

Next to the engine the model covers:

- **HTTP glue.** From `http_server_nng.c`:
  - `req_cb` maps the method name to an op code and packages the engine's result as a reply (content type, status, `{}` fallback);
  - `http_server_start` checks and splits the server URL;
  - the multipart/form-data body strip inside `req_handle`.
- **Data-logger client.** From `data_logger.c`: status mapping, the `?`/`&` query separator, the request URLs of enqueue, dequeue and remove, and the in-place id extraction of `logger_data_get_id`.
- **Hash.** The djb2 `string_hash` of `portd_rest.c` in unsigned 32-bit arithmetic.

## Structure

- **Value-level definitions.** Every stateful C function is modelled twice:
  - a value-level definition in a pure module (`RestUri`, `RestMatch`, `RestRegistry`, `RestOutput`, `RestQuery`);
  - an imperative method with the source's loops.
  Each method's `ensures` ties it to the definition, and lemmas state the promised properties of the definitions.
- **Shared modules.** `CString` models the libc string functions the code relies on (`strchr`, `strncpy` into a fixed buffer, `strtok`). `RestDefs` holds the constants of `rest.h`.
- **The engine object.** `RestParser.RestEngine` is a class holding the file-scope state of `rest_parser.c`:
  - `rest_api_info` and `rest_api_info_cnt`;
  - the saved query and segment list;
  - the bound output buffer (an `array<char>`), its write index and the info record.
- **Handlers.** They are abstract: a `Behaviour` function gives, for a handler token, the URI and the body, the status the handler returns and the sequence of `rest_write`/`rest_write_file` calls it makes.
- **Allocation.** Whether `malloc` succeeds is a boolean parameter.
- **HTTP request.** In the data-logger client, `http_req_send` is a function parameter from the request to the reply.

## Model

| member | source | states |
|---|---|---|
| CString.IndexOf | src/rest_parser/rest_parser.c:84-91 | strchr: the result is the position of the first `c` (no `c` before it), and it is -1 exactly when `c` does not occur |
| CString.IndexOfAt | src/rest_parser/rest_parser.c:84-91 | an occurrence of `c` with none before it is the one strchr finds |
| CString.CutAt | src/rest_parser/rest_parser.c:118-119 | writing NUL at the first `?` leaves a prefix with no `?` that ends right before the first `?`, or the whole string when there is none |
| CString.After | src/rest_parser/rest_parser.c:84-99 | the query pointer is NULL exactly when there is no `?`; otherwise the string is the part before the `?`, the `?`, then the query |
| CString.Truncate | src/rest_parser/rest_parser.c:117 | the copy into a 200-byte buffer is a prefix of at most 200 characters, and the whole string when it fits |
| CString.Strtok | src/rest_parser/rest_parser.c:122-138 | strtok returns NULL exactly when only delimiters remain; a returned token is non-empty and holds no delimiter |
| CString.Tokens | src/rest_parser/rest_parser.c:122-147 | the successive strtok tokens are non-empty, delimiter-free and no longer than the input |
| CString.TokensJoinWith | src/rest_parser/rest_parser.c:122-147 | splitting `/s1/.../sn` with strtok gives back s1 ... sn when the segments are non-empty and have no `/` |
| RestUri.FormBuf | src/rest_parser/rest_parser.c:113-119 | init_uri's working copy is a prefix of the URI with at most 200 characters and no `?` |
| RestUri.UriSegments | src/rest_parser/rest_parser.c:122-147 | init_uri keeps at most REST_MAX_URL_LEVEL segments, a prefix of all the tokens |
| RestUri.UriLevel | src/rest_parser/rest_parser.c:122-168 | init_uri's result is REST_URL_NOTDEFINE exactly when no segment is found; otherwise it is the number of kept segments, between 1 and 10 |
| RestUri.InitUri | src/rest_parser/rest_parser.c:111-169 | the strtok loop with its stop at REST_MAX_URL_LEVEL and the final `?` cut returns UriLevel and stores UriSegments |
| RestUri.TokensStep | src/rest_parser/rest_parser.c:136-147 | each further strtok(NULL, "/") call returns the next token of the split, and NULL after the last |
| RestUri.KeptAreUriSegments | src/rest_parser/rest_parser.c:145-146 | the loop's break at REST_MAX_URL_LEVEL keeps exactly UriSegments |
| RestUri.UriSegmentsWellFormed | src/rest_parser/rest_parser.c:127-142 | every kept segment is non-empty, has no `/` or `?`, and fits 200 bytes, so init_uri's length checks never fail |
| RestUri.SubstringOfFormBuf | src/rest_parser/rest_parser.c:150-165 | no token contains `?`, so the final cut of the last segment changes nothing |
| RestUri.SplitJoined | src/rest_parser/rest_parser.c:111-169 | a URI `/s1/.../sn` of plain names within the limits splits into exactly s1 ... sn with level n |
| RestMatch.FirstFrom | src/rest_parser/rest_parser.c:202-231 | the pattern found from position n matches, and no pattern between n and it matches; None means none from n matches |
| RestMatch.FirstMatch | src/rest_parser/rest_parser.c:194-234 | search_cb's node is the first pattern in list order that matches; there is none for a path of at most one segment or when no pattern matches |
| RestMatch.SearchCb | src/rest_parser/rest_parser.c:194-234 | the nested loops of search_cb, with `#` returning, `+` skipping and a literal mismatch breaking, return FirstMatch |
| RestMatch.ModuleIndex | src/rest_parser/rest_parser.c:171-192 | the module found is the first of the first `cnt` whose prefix equals the name; None means none of them does |
| RestMatch.CheckUri | src/rest_parser/rest_parser.c:171-192 | check_uri returns REST_OK exactly when some module among the first max_item_num has segment 0 as its prefix, and then gives the first such index; otherwise REST_URL_NOTDEFINE |
| RestMatch.ScanFromIff | src/rest_parser/rest_parser.c:205-228 | the segment scan completes if and only if it reaches the level or a `#` segment with every earlier pattern segment accepting its path segment |
| RestMatch.LiteralMatch | src/rest_parser/rest_parser.c:223-228 | a pattern matches a path that repeats its segments after the prefix |
| RestMatch.CatchAllMatch | src/rest_parser/rest_parser.c:209-213 | a `#` segment accepts whatever follows once the earlier segments accept and the path is long enough |
| RestMatch.ShortPathNoMatch | src/rest_parser/rest_parser.c:205 | a pattern never matches a path with fewer than uri_level segments after the prefix |
| RestMatch.LiteralMismatch | src/rest_parser/rest_parser.c:215-224 | a differing literal segment with no `#` before it rules the pattern out; `+` stands for exactly one segment |
| RestMatch.ScanIgnoresTail | src/rest_parser/rest_parser.c:207-224 | only the first uri_level path segments after the prefix are compared |
| RestMatch.MatchesExtended | src/rest_parser/rest_parser.c:205-228 | a match survives appending segments to the path |
| RestMatch.FirstMatchAppend | src/rest_parser/rest_parser.c:202-231 | appending a pattern never changes an existing first match; it only catches paths no earlier pattern matched |
| RestRegistry.EmptyRegistry | src/rest_parser/rest_parser.c:546-555 | the cleared table has five NULL prefixes, no patterns and count 0 |
| RestRegistry.FirstFree | src/rest_parser/rest_parser.c:557-566 | the slot found has a NULL prefix and every earlier slot is in use; None means all are in use |
| RestRegistry.Init | src/rest_parser/rest_parser.c:532-578 | corrected rest_init. A NULL prefix gives REST_PARAM_FAIL and a full table REST_INIT_EXCEED. On success the returned index is a previously free slot that now holds the prefix, the count grows by one and every other slot is unchanged |
| RestRegistry.InitAsWritten | src/rest_parser/rest_parser.c:556-566 | rest_init as written stores the prefix at index rest_api_info_cnt |
| RestRegistry.InitAsWrittenOverwrites | src/rest_parser/rest_parser.c:562 | init a, init b, unregister 0, init c: as written, c overwrites b's slot and the returned id 0 has no prefix |
| RestRegistry.InitKeepsOtherModules | src/rest_parser/rest_parser.c:532-578 | the same calls with the corrected rest_init keep b in slot 1 and put c in the returned slot 0 |
| RestRegistry.Unregister | src/rest_parser/rest_parser.c:496-530 | rest_cb_unregister refuses id >= 5 with REST_PARAM_FAIL and any call with no module registered with REST_OP_INVALID; otherwise it clears the slot's prefix and patterns and lowers the count |
| RestRegistry.UnregisterHidesModule | src/rest_parser/rest_parser.c:496-530 | after a successful unregister no request is routed to that slot |
| RestRegistry.UnregisterUnusedSlotDrops | src/rest_parser/rest_parser.c:496-530 | unregistering an unused slot still lowers the count, which can reach 0 while a module remains; every request is then refused |
| RestRegistry.SetSlotOnly | src/rest_parser/rest_parser.c:461-486 | registering sets exactly the op's handler slot, leaves every other slot unchanged, and does nothing for an unknown op |
| RestRegistry.FindUri | src/rest_parser/rest_parser.c:416-427 | the walk finds the first node with the same URI among the first MAX_REST_CB_CNT nodes; None means there is none |
| RestRegistry.FindUriFrom | src/rest_parser/rest_parser.c:416-427 | the same search started at node n |
| RestRegistry.NewPattern | src/rest_parser/rest_parser.c:429-459 | a new node has init_uri's level and segments for its URI and no handlers |
| RestRegistry.RegisterTable | src/rest_parser/rest_parser.c:416-446 | a known URI keeps the list's length; a new one is linked as the last node after the first 100 nodes at most, which stay as they were, so any nodes past 100 are cut |
| RestRegistry.Register | src/rest_parser/rest_parser.c:402-494 | rest_cb_register: id >= 5 or a NULL uri gives REST_PARAM_FAIL; a failed allocation changes nothing; otherwise the module's list becomes RegisterTable and the result is REST_OK, or REST_OP_INVALID for an unknown op |
| RestRegistry.RegisterReuses | src/rest_parser/rest_parser.c:416-486 | a URI already registered keeps the list's length and order and changes only that node's slot for the op |
| RestRegistry.RegisterAppends | src/rest_parser/rest_parser.c:429-446 | a new URI is appended at the tail after the unchanged list |
| RestRegistry.RegisterKeepsDistinct | src/rest_parser/rest_parser.c:402-494 | registering never creates a second node for the same URI |
| RestRegistry.RegisterTwiceSameLength | src/rest_parser/rest_parser.c:416-427 | registering a URI again for another method does not lengthen the list |
| RestRegistry.Target | src/rest_parser/rest_parser.c:591-613 | a routed request names an existing module slot and pattern |
| RestRegistry.Status | src/rest_parser/rest_parser.c:628-678 | the status is the handler's when one runs and 404 otherwise |
| RestRegistry.Route | src/rest_parser/rest_parser.c:580-684 | a request is refused before any handler lookup exactly when Target finds no module slot and pattern, and an unknown op never reaches a handler |
| RestRegistry.RouteInvokes | src/rest_parser/rest_parser.c:580-684 | a request that reaches a handler reaches the handler in the op's slot of the first matching pattern of the first module whose prefix is its first segment |
| RestRegistry.RegisterThenRoute | src/rest_parser/rest_parser.c:580-684 | end to end: after registering `/s1/.../sn` for an op in module p, the request `/p/s1/.../sn?query` reaches that handler |
| RestRegistry.RequestSegments | src/rest_parser/rest_parser.c:111-169 | a request `/p/s1/.../sn?query` splits into p, s1, ..., sn |
| RestRegistry.NewNodeFirst | src/rest_parser/rest_parser.c:429-459 | a new node appended to a list with no match for the path becomes its first match, with the handler in the op's slot |
| RestOutput.ReplayContent | src/rest_parser/rest_parser.c:237-281 | appending keeps earlier output: the buffer holds all the handler's data in call order, and the length reported is its size |
| RestOutput.Apply | src/rest_parser/rest_parser.c:357-400 | one call appends its data to the content; a call with no data changes nothing; otherwise the length is the whole content and the kind is JSON for rest_write and FILE for rest_write_file, and the length invariant is kept |
| RestOutput.ReplayKind | src/rest_parser/rest_parser.c:357-400 | the data kind is that of the last call that carried data |
| RestOutput.WriteClearsDesc | src/rest_parser/rest_parser.c:366-369 | rest_write sets the kind to JSON and clears the file name |
| RestOutput.ReplayDesc | src/rest_parser/rest_parser.c:386-397 | with no rest_write, a recorded file name stays, and otherwise the first rest_write_file's name is recorded (first writer wins) |
| RestOutput.ReplayAppend | src/rest_parser/rest_parser.c:357-400 | replaying two call sequences in turn is replaying their concatenation |
| RestOutput.FileNameAfterWrite | src/rest_parser/rest_parser.c:357-400 | after a rest_write, the next file writes record the first of their names |
| RestQuery.FirstValue | src/rest_parser/rest_parser.c:301-328 | the reference lookup: the value of the first pair with the key, or None exactly when no pair has it |
| RestQuery.Lookup | src/rest_parser/rest_parser.c:287-333 | a value found is a non-empty strtok token without '&' |
| RestQuery.StrtokKey | src/rest_parser/rest_parser.c:300-303 | strtok on "=" reads a key without `=` or `&` |
| RestQuery.StrtokValue | src/rest_parser/rest_parser.c:306-318 | strtok on "&" reads a value without `&` |
| RestQuery.LookupRender | src/rest_parser/rest_parser.c:287-333 | the alternating strtok lookup over `k1=v1&k2=v2...` gives exactly the first pair's value for the key |
| RestParser.RestEngine.constructor | src/rest_parser/rest_parser.c:56-68 | the statics start zeroed: empty table, no query, no bound output |
| RestParser.RestEngine.Init | src/rest_parser/rest_parser.c:532-578 | the loop over the slots computes the corrected rest_init and changes nothing else |
| RestParser.RestEngine.Unregister | src/rest_parser/rest_parser.c:496-530 | the method computes Unregister and changes nothing else |
| RestParser.RestEngine.Register | src/rest_parser/rest_parser.c:402-494 | the walk, the link and the switch compute Register and change nothing else |
| RestParser.RestEngine.RegisterIn | src/rest_parser/rest_parser.c:409-486 | on one list: fails only when the URI is new and allocation fails; otherwise gives RegisterTable and the op's return code |
| RestParser.RestEngine.FindNode | src/rest_parser/rest_parser.c:416-427 | the bounded walk finds FindUri, and when nothing is found the visited nodes are the first MAX_REST_CB_CNT |
| RestParser.RestEngine.SetHandler | src/rest_parser/rest_parser.c:461-486 | the switch sets the op's slot, or reports REST_OP_INVALID for an unknown op |
| RestParser.RestEngine.Grow | src/rest_parser/rest_parser.c:262-276 | realloc gives a buffer of the requested size that starts with the old contents |
| RestParser.RestEngine.MemCpy | src/rest_parser/rest_parser.c:237-281 | rest_mem_cpy: no data, zero size or unbound pointers give REST_OP_INVALID, and a failed allocation REST_MALLOC_FAIL; no output changes then. On success the new bytes follow the old ones, the index is the content length and the capacity never shrinks |
| RestParser.RestEngine.CopyInto | src/rest_parser/rest_parser.c:278-279 | memcpy at the write index keeps the bytes before it and places the data after them |
| RestParser.RestEngine.Write | src/rest_parser/rest_parser.c:357-372 | rest_write succeeds exactly when the append does and then leaves Apply's JSON state; a failure leaves the output unchanged |
| RestParser.RestEngine.WriteFile | src/rest_parser/rest_parser.c:374-400 | rest_write_file succeeds when the append and any name allocation do, setting kind FILE and recording the name only when none is recorded |
| RestParser.RestEngine.FindUriQueryVal | src/rest_parser/rest_parser.c:287-333 | a NULL name or out-pointer gives REST_PARAM_FAIL and a missing query REST_QUERY_NOT_FOUND; otherwise REST_OK exactly when Lookup finds a value and the copy succeeds, with that value |
| RestParser.RestEngine.FindUriName | src/rest_parser/rest_parser.c:335-355 | a NULL out-pointer gives REST_PARAM_FAIL; an index past the stored segments gives REST_QUERY_NOT_FOUND; otherwise the result is segment uri_idx of the request |
| RestParser.RestEngine.RunCalls | src/rest_parser/rest_parser.c:357-400 | a handler's writes, run in order, leave the accumulator state Replay defines |
| RestParser.RestEngine.Locate | src/rest_parser/rest_parser.c:591-613 | the routing steps (count check, init_uri, check_uri, search_cb) find Target |
| RestParser.RestEngine.Bind | src/rest_parser/rest_parser.c:615-626 | before the handler runs: the query after `?` and the segments are saved, the output is bound at index 0, and the info is reset to length 0, kind NULL, no name |
| RestParser.RestEngine.ParserHandler | src/rest_parser/rest_parser.c:580-684 | rest_parser_handler routes as Route does and returns 404 unless a handler runs; an unrouted request changes nothing; a routed one is bound and reset first, and the handler's output is its calls replayed |
| HttpServer.MethodOpNames | src/http_server/http_server_nng.c:101-112 | exactly the five method names map to op codes, each back to its own name; any other name maps to REST_OP_INVALID |
| HttpServer.MethodNameOp | src/http_server/http_server_nng.c:101-112 | every op code is reached from its method name |
| HttpServer.MethodOp | src/http_server/http_server_nng.c:102-113 | every method name maps to an op code or to REST_OP_INVALID |
| HttpServer.Package | src/http_server/http_server_nng.c:121-150 | text/plain exactly for FILE output, a file name only then; the body is "{}" of length 2 exactly when no FILE output and no JSON data were left; any non-FILE reply carries the dispatcher's status as a uint16_t |
| HttpServer.Outcome | src/http_server/http_server_nng.c:117-119 | the status is rest_parser_handler's Status for the routed dispatch, and the info read is the reset one for a pattern with no handler and req_cb's own record for an unrouted request |
| HttpServer.ResultCode | src/http_server/http_server_nng.c:143-150 | the status stored through a uint16_t is below 2^16 and equals the return value when it fits |
| HttpServer.ReqCb | src/http_server/http_server_nng.c:77-154 | a NULL method, path, reply buffer or result code gives HTTP_SERVER_INVALID_PARAM; otherwise HTTP_SERVER_OK with the reply that the dispatch outcome determines. A `{}` reply writes "{}" and a terminator to the buffer, and any other routed reply is exactly the handler's output. The registry is unchanged. A routed request leaves its query and segments saved, and an unrouted one leaves the saved ones as they were |
| HttpServer.WriteBraces | src/http_server/http_server_nng.c:133-150 | strcpy of "{}" places `{`, `}` and a terminator at the start of the buffer |
| HttpServer.LastKindData | src/http_server/http_server_nng.c:123-151 | the kind req_cb reads is NULL exactly when the handler wrote no data, and JSON or FILE otherwise |
| HttpServer.FileReply | src/http_server/http_server_nng.c:123-129 | a FILE result is text/plain with status 200 whatever the handler returned, and its length is all the data written; with no rest_write the name is the first file write's |
| HttpServer.JsonReply | src/http_server/http_server_nng.c:130-144 | a JSON result with data is application/json with the handler's status and the full length, with no `{}` substitution |
| HttpServer.EmptyReply | src/http_server/http_server_nng.c:130-151 | a handler that writes nothing gets the body `{}` of length 2 with its own status |
| HttpServer.NoHandlerReply | src/http_server/http_server_nng.c:145-151 | a matched pattern without a handler gives application/json `{}` with status 404 |
| HttpServer.SplitServerUrl | src/http_server/http_server_nng.c:414-453 | an accepted URL starts with "HTTP://" or "http://" and is its host part followed by its URI part |
| HttpServer.ServerStart | src/http_server/http_server_nng.c:414-470 | a bad URL gives HTTP_SERVER_INVALID_PARAM; success means the URL was accepted and a reply buffer exists; a failed buffer allocation gives HTTP_SERVER_MEMORY_UNAVAILABLE |
| HttpServer.ServerUrlSplits | src/http_server/http_server_nng.c:431-453 | scheme + host + `/uri` splits back into scheme + host and `/uri` |
| HttpServer.ServerUrlRejectsHttps | src/http_server/http_server_nng.c:424-428 | an "https://" URL is refused |
| HttpMultipart.HeaderEndFrom | src/http_server/http_server_nng.c:196-222 | the header end found is a `\n` followed by `\r\n`, with none earlier; None means there is none |
| HttpMultipart.CrlfBackFrom | src/http_server/http_server_nng.c:229-236 | the backward scan finds the last CRLF at or below the start position; None means there is none |
| HttpMultipart.Strip | src/http_server/http_server_nng.c:190-239 | the corrected strip: the data handed on lies within the body, ends at the `\r` overwritten with NUL, or reaches the end of the body when there is no closing CRLF |
| HttpMultipart.StripAsWritten | src/http_server/http_server_nng.c:190-239 | the strip as written: same start and cut as Strip, equal to Strip whenever a CRLF is found or the body is not a multipart part, and the whole body's size when no closing CRLF is found |
| HttpMultipart.StripAsWrittenOverruns | src/http_server/http_server_nng.c:238-239 | as written, "x\n\r\nab" is handed on from offset 4 with size 6, past the end of the body |
| HttpMultipart.StripFindsData | src/http_server/http_server_nng.c:190-239 | for headers, a blank line, data, CRLF and a closing line, the strip hands on exactly the data |
| HttpMultipart.NewlineFrom | src/http_server/http_server_nng.c:196-210 | strchr for `\n`: the first newline from the position, or -1 when there is none |
| HttpMultipart.StripMultipart | src/http_server/http_server_nng.c:190-239 | req_handle's strip, with the size corrected at 238-239: the method returns the corrected Strip's start and size and writes NUL exactly at its cut |
| HttpMultipart.HeaderEnd | src/http_server/http_server_nng.c:197-224 | the strchr loop finds the header end exactly when HeaderEndFrom does, at the same '\n' |
| HttpMultipart.CutClosingCrlf | src/http_server/http_server_nng.c:226-236 | the backward loop stops at CrlfBackFrom's CRLF and overwrites only its '\r', and changes nothing when there is none |
| PortdRest.CStr | portd_rest/portd_rest.c:49-52 | the string hashed is the prefix before the first NUL |
| PortdRest.StepIsDjb2 | portd_rest/portd_rest.c:50 | `(h << 5) + h + c` with wrap-around after each operation equals `h*33 + c` modulo 2^32 |
| PortdRest.Djb2 | portd_rest/portd_rest.c:44-50 | djb2 with the 32-bit wrap is the unbounded polynomial 5381*33^n + ... reduced once modulo 2^32 |
| PortdRest.Djb2Snoc | portd_rest/portd_rest.c:49-52 | each further byte multiplies the hash by 33 and adds the byte, modulo 2^32 |
| PortdRest.HighByteString | portd_rest/portd_rest.c:45-50 | the one-byte string "\xff", whatever follows its terminator, hashes to 5381*33 + 255: the byte is read unsigned |
| PortdRest.StopsAtNul | portd_rest/portd_rest.c:49 | nothing after the terminator reaches the hash |
| PortdRest.StringHash | portd_rest/portd_rest.c:40-55 | the loop returns djb2 of the bytes before the terminator |
| DataLogger.ChkRet | src/data_logger/data_logger.c:76-96 | 200 maps to LOGGER_DATA_OK and 404 to LOGGER_DATA_NOT_FOUND, each in both directions; every other code maps to LOGGER_DATA_OP_FAIL |
| DataLogger.QuerySymbol | src/data_logger/data_logger.c:66-74 | the separator is "&" when the URI has a `?` and "?" otherwise |
| DataLogger.EnqUrl | src/data_logger/data_logger.c:253 | the URL is DATA_LOGGER_SERVER_HOST, a '/', then the URI |
| DataLogger.DeqUrl | src/data_logger/data_logger.c:288 | the enqueue URL followed by the separator the URI's '?' calls for and `keep=1` or `keep=0` |
| DataLogger.RemoveUrl | src/data_logger/data_logger.c:380 | the enqueue URL followed by the separator the URI's '?' calls for and `id=` with the id in decimal |
| DataLogger.NatDigitsValue | src/data_logger/data_logger.c:380 | the decimal text printed for a number reads back as that number |
| DataLogger.ScanSignedDecimal | src/data_logger/data_logger.c:216 | what `%lld` prints, strtoll reads back, negative numbers included |
| DataLogger.ScanDecimal | src/data_logger/data_logger.c:216 | sscanf with `"%lld"` on a quoted printed number stores that number |
| DataLogger.SpaceRun | src/data_logger/data_logger.c:216 | the white space `%lld` skips: every character before the count is a space and the next one is not |
| DataLogger.Int64DecimalLength | src/data_logger/data_logger.c:380 | an int64_t prints in at most 20 characters |
| DataLogger.AppendQuery | src/data_logger/data_logger.c:286-288 | appending with the chosen separator extends the URI's own query by one pair |
| DataLogger.LookupLast | src/data_logger/data_logger.c:288 | a key only the last pair has is found with that pair's value |
| DataLogger.DeqUrlKeep | src/data_logger/data_logger.c:281-288 | the dequeue URL's query reads `keep` as "1" for KEEP_DATA and "0" otherwise |
| DataLogger.RemoveUrlId | src/data_logger/data_logger.c:368-380 | the remove URL's query reads `id` as the printed id chosen |
| DataLogger.UrlsFitAllocation | src/data_logger/data_logger.c:52-57 | every URL built, with its terminator, fits the buffer logger_data_url_malloc reserves |
| DataLogger.ScanBack | src/data_logger/data_logger.c:211-226 | the backward scan succeeds exactly when it meets a `,`, which is the last `,` up to the start; failure means there is none |
| DataLogger.GetIdSpec | src/data_logger/data_logger.c:196-230 | a found `,` lies before the dropped last character |
| DataLogger.GetId | src/data_logger/data_logger.c:196-230 | a NULL id pointer is OK with the buffer untouched; a NULL buffer is OP_FAIL; otherwise the in-place loop returns GetIdSpec's code and id and leaves the Rewritten buffer |
| DataLogger.GetIdReadsTrailingId | src/data_logger/data_logger.c:207-226 | a reply ending in `,"id":"<n>"}` yields n, and the buffer then reads as everything before that `,` closed with `}` |
| DataLogger.GetIdReadsTrailer | src/data_logger/data_logger.c:207-226 | the same for any quoted id text that reads as n |
| DataLogger.TrailerScan | src/data_logger/data_logger.c:211-226 | the scan over `<j>,"id":"<d>"` stores the id and stops at the `,` after j |
| DataLogger.StoreId | src/data_logger/data_logger.c:214-217 | the id changes only at a ':' whose following text sscanf reads as a quoted number, and then becomes that number |
| DataLogger.GetIdNeedsComma | src/data_logger/data_logger.c:207-229 | the extraction succeeds exactly when the reply, less its last character, has a `,` |
| DataLogger.RewrittenReads | src/data_logger/data_logger.c:222-223 | after the rewrite the buffer reads as the text before the `,` followed by `}` |
| DataLogger.Enq | src/data_logger/data_logger.c:236-260 | ARG_INVALID exactly for a NULL uri or body or zero length; MALLOC_FAIL exactly when the URL allocation fails; otherwise a POST to host/uri of the first `len` characters of the body (all of them when `len` is larger), whose status is mapped by chk_ret |
| DataLogger.Remove | src/data_logger/data_logger.c:350-387 | ARG_INVALID for a NULL uri, or a bad flag once the URL is allocated; otherwise a DELETE with id -1 for REMOVE_ALL or data_id for REMOVE_BY_ID, with the status mapped |
| DataLogger.Deq | src/data_logger/data_logger.c:262-306 | ARG_INVALID exactly for a NULL uri, jsonStr or len; otherwise a GET of the keep URL. Whatever the status, `*jsonStr` then holds Delivered: the caller's earlier buffer, untouched, when http_req_send stored nothing; NULL when its copy failed; otherwise the fresh copy. `*len` holds the received size when a body was stored and its earlier value otherwise. On 200 the id is extracted in place from that buffer, a NULL one giving OP_FAIL, and stored only on success; other statuses are mapped by chk_ret |
| DataLogger.Delivered | src/http_server/http_server_nng.c:641-656 | `*out_buf` is a NUL-free copy of a prefix of the body when one was stored, NULL when the copy's malloc failed (the pointer is assigned before the test at :644), and the caller's earlier pointer when nothing was received |
| DataLogger.Receive | src/http_server/http_server_nng.c:641-651 | the stores through `out_buf` and `out_buf_len`: a fresh copy of the body with the received size, NULL with `*len` unchanged, or neither changed |

## Left out

- The nng transport, the server loop and `rest_start`, the response and header plumbing of `req_handle`, `http_req_httpdo`, `http_req_send`, `http_server_stop` and the `Authorization` token are server I/O over a foreign library. `http_req_send` is a function parameter of the data-logger operations and `rest_start`'s result is a parameter of `ServerStart`.
- The pthread mutex is not modelled: every engine call is taken as atomic. So `rest_cb_unregister` returning REST_OP_INVALID while still holding the lock (rest_parser.c:507-508) is not captured.
- Memory allocation is a boolean parameter. Leaks and sizes of blocks are not modelled:
  - the 210-byte `uri_arr` (rest_parser.c:448, 459), where REST_MAX_URL_LEVEL + REST_MAX_URL_NAME_LEN bytes are allocated and copied instead of their product, so segments past the first are cut short;
  - the `strlen`-byte copies without room for the terminator in `rest_write_file` (rest_parser.c:389) and `rest_find_uri_name` (rest_parser.c:346);
  - the leaks of the old description, of the lists freed by `rest_init`'s memset, and of the URL on a bad flag in `logger_data_remove`.
- RestParser.RestEngine.Register: the model segments a pattern the way init_uri gives it, the evidently intended list, not the truncated 210-byte copy. A new node's other handler slots are empty, whereas `malloc` leaves them uninitialised. A failed `uri_arr` allocation leaves a freed node linked in the source; in the model any failed allocation changes nothing.
- RestParser.RestEngine.Unregister: ids are `nat`; a negative `int32_t` id would index before the table and is not modelled.
- RestRegistry.Register: ids are `nat`; rest_parser.c:404 refuses only `id >= MAX_REST_INFO_CNT`, so a negative `int32_t` id would index before the table. That case is not modelled.
- RestParser.RestEngine.Register: ids are `nat` for the same reason; a negative id is not modelled.
- RestParser.RestEngine.FindUriName: `uriIdx` is a `nat`; rest_parser.c:340 checks only `uri_idx >= restapi_list_size`, so a negative index reads before `restapi_list` at :344. That read is not modelled.
- RestParser.RestEngine.Init: the engine runs the corrected rest_init (first Findings row): it stores the prefix at the free slot it returns. The overwrite at rest_parser.c:562 exists only at the value level, in RestRegistry.InitAsWritten.
- RestRegistry.Register: the registered URI is stored by pointer in the source, so a caller that later changes that string changes the pattern; the model copies it.
- RestMatch.CheckUri: a NULL prefix in the first `max_item_num` slots would be passed to `strcmp` (undefined behaviour); the model treats it as unequal.
- RestUri.InitUri: the source copies the token counted as the eleventh into `list[10]`, one row past a REST_MAX_URL_LEVEL-row table; the model keeps ten segments. A URI of 200 or more characters leaves `formBuf` unterminated by `strncpy`; the model reads the first 200 characters.
- RestParser.RestEngine.FindUriQueryVal: a key found with no value makes the source call `strlen(NULL)`; the model reports REST_QUERY_NOT_FOUND.
- Handlers are tokens whose behaviour is a parameter, with all writes succeeding (`RunCalls`); the request body passed to them is not interpreted.
- HttpServer.ReqCb: the contents of req_cb's uninitialised output record on a 404 before binding are a parameter; `rep_content_type` and `rep_desc` are returned inside the reply value instead of being written through pointers.
- HttpServer.SplitServerUrl: `memcpy` into `server_ip` does not terminate the copy; the model reads it as the rest of the URL, and the `server_ip` buffer size is not modelled.
- HttpMultipart.StripMultipart: the body is taken to be NUL-free and NUL-terminated, as `strchr`/`strlen` on it assume.
- HttpMultipart.StripMultipart: the method computes the corrected size (second Findings row). Without a closing CRLF it returns what is left after the headers, while req_handle keeps nng's whole body size (http_server_nng.c:238-239). The size as written exists only at the value level, in HttpMultipart.StripAsWritten.
- DataLogger.GetId: an empty reply is modelled as OP_FAIL; the source writes `inbuf[-1]` first.
- DataLogger.Deq: the caller's earlier `*jsonStr` buffer is taken to hold a terminated C string, given by its characters; an unterminated or freed earlier buffer is not modelled, so neither is the caller's buffer being overwritten, by a copy or by NULL, without being freed.
- DataLogger.Enq: `len` characters are handed to `http_req_send` (data_logger.c:255), so a `len` beyond `strlen(jsonStr)` makes the source read past the terminator. The model posts the whole string in that case.
- DataLogger.ScanSignedDecimal: strtoll's saturation on overflow is not modelled; the lemmas concern numbers the logger printed.
- `logger_data_multi_deq` and `logger_data_get_id_list` depend on the parson JSON library, as do the JSON filters. `logger_data_get` and `logger_data_get_next` build their URLs and extract the id the way `logger_data_deq` does; they are not part of this model. `s2e_rest_get` and `main` are bootstrap code over yuarel, file reads and getopt.

## Findings

| source | as written | input that shows it | evidently intended | confidence | as-written member | corrected member |
|---|---|---|---|---|---|---|
| src/rest_parser/rest_parser.c:562 | `rest_api_info[rest_api_info_cnt].uri_prefix = uri_prefix` stores the prefix at the module count, not at the free slot `i` whose index is returned | `rest_init("a")`, `rest_init("b")`, `rest_cb_unregister(0)`, `rest_init("c")`: "c" overwrites "b" in slot 1 and the returned id 0 has no prefix | store the prefix at the free slot `i` | high, not executed | RestRegistry.InitAsWrittenOverwrites | RestRegistry.InitKeepsOtherModules |
| src/http_server/http_server_nng.c:238-239 | without a closing CRLF, `sz` keeps the whole body's size although `data` was moved past the headers | body "x\n\r\nab" as multipart/form-data: data at offset 4 with size 6, four bytes past the end | the size is what remains after the headers | medium, not executed | HttpMultipart.StripAsWrittenOverruns | HttpMultipart.Strip |
