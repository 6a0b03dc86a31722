# execplans: observability MCP server, its end-to-end client, and `doctor`

This Dafny project models three parts of the execplans repository and proves
properties about them.

- **The observability MCP server** shipped in the codex-max preset. It reads
  `Content-Length`-framed JSON-RPC messages from stdin and answers
  `initialize`, `tools/list`, `tools/call` and `notifications/initialized`.
  Its three tools (`query_logs`, `query_metrics`, `query_traces`) post a
  form to a VictoriaLogs / VictoriaMetrics / VictoriaTraces backend. Every
  message with an `id` gets a response frame on stdout: the result, or an
  error with code -32000.
- **The end-to-end check's client side**: `frame`, `parseFrames`, the
  `responses` map filled by the stdout handler, and the `requestId` counter.
- **The `doctor` command**: `runDoctorChecks` walks the workspace and returns
  one "Fix: ..." line per problem. `runDoctor` logs "OK" (exit code 0) or
  every fix (exit code 1).

Modules:

| file | module | what it holds |
|---|---|---|
| `wrappers.dfy` | `Wrappers` | `Option`, `Result` |
| `seqs.dfy` | `Seqs` | `indexOf`, `includes`, `startsWith`, `split` on sequences |
| `encoding.dfy` | `Encoding` | UTF-8 encoding of strings, decimal text of numbers |
| `json.dfy` | `JsonValues` | JSON values, member lookup (the last duplicate key wins), JavaScript truthiness, and the JSON codec as a parameter |
| `frame_codec.dfy` | `FrameCodec` | frame encoding (`writeMessage`, `frame`) and the header/length decoding shared by `tryReadFrame` and `parseFrames` |
| `mcp_server.dfy` | `McpServer` | endpoints, tool registry, request building, `handleRequest`, the response shape, the drain specification, and `class Server` (the `buffer` and the `data` handler) |
| `mcp_client.dfy` | `McpClient` | `frame`, the `parseFrames` loop and its specification, the `responses` map, `class Client` |
| `end_to_end.dfy` | `EndToEnd` | a request framed by the client, drained by the server and read back by the client |
| `doctor_checks.dfy` | `DoctorChecks` | the workspace as a map, the checks as functions, `runDoctorChecks` as a method, and what its result promises |
| `doctor.dfy` | `Doctor` | `runDoctor`: the option pass-through, the log, the exit code |

Several things are parameters rather than computed:

- the JSON codec (`JSON.stringify`, `JSON.parse` of UTF-8 bytes);
- the HTTP backends (a reply or a fetch failure per request);
- the environment variables;
- the workspace's file system;
- the YAML parser.

Stdout, stderr and `io.log` are sequences that the methods append to.

## Model

Paths are relative to the repository root.

| member | source | states |
|---|---|---|
| McpServer.EndpointsFrom | templates/presets/codex-max/.agent/harness/mcp/observability-server/server.mjs:3-5 | each backend URL is its environment variable when set, else `http://127.0.0.1:9428` / `:8428` / `:10428` |
| McpServer.RegistryMatchesDispatch | templates/presets/codex-max/.agent/harness/mcp/observability-server/server.mjs:7-43 | the registry lists exactly the three tool names, in order, and every listed tool is one that `tools/call` dispatches |
| Encoding.Utf8Length | templates/presets/codex-max/.agent/harness/mcp/observability-server/server.mjs:47 | `Buffer.byteLength(payload, "utf8")` is the sum of the per-character UTF-8 widths |
| Encoding.DecimalRoundTrip | templates/presets/codex-max/.agent/harness/mcp/observability-server/server.mjs:47 | the decimal text written into `Content-Length` consists of digits and reads back as the same number |
| FrameCodec.FrameTextBytes | templates/presets/codex-max/.agent/harness/mcp/observability-server/server.mjs:45-49 | the bytes of a framed message are `Content-Length: `, the payload's byte length in decimal, CRLF CRLF, then the payload bytes |
| McpServer.Server.WriteMessage | templates/presets/codex-max/.agent/harness/mcp/observability-server/server.mjs:45-49 | stdout grows by exactly the frame of `JSON.stringify(message)` |
| McpServer.ToolCallText | templates/presets/codex-max/.agent/harness/mcp/observability-server/server.mjs:51-53 | a successful tool call answers `{content: [{type: "text", text}]}`, with the backend body as `content[0].text` |
| McpServer.PostForm | templates/presets/codex-max/.agent/harness/mcp/observability-server/server.mjs:55-71 | a 2xx reply gives its body; any other status throws `HTTP <status> from <url>: <body>`; a failed fetch throws its own error |
| McpServer.ToolRequest | templates/presets/codex-max/.agent/harness/mcp/observability-server/server.mjs:73-85 | a backend request is built exactly for the three tool names (strict string equality) and for no other value |
| McpServer.DefaultLimit | templates/presets/codex-max/.agent/harness/mcp/observability-server/server.mjs:73-85 | a missing or null `limit` is sent as `"20"` for logs and traces; metrics sends only the query |
| McpServer.HandleRequest | templates/presets/codex-max/.agent/harness/mcp/observability-server/server.mjs:87-128 | a method outside the four known ones throws `Unsupported method: <method>`; `notifications/initialized` returns null |
| McpServer.HandshakeAndListing | templates/presets/codex-max/.agent/harness/mcp/observability-server/server.mjs:88-103 | `initialize` returns protocol version 2024-11-05 and server name `observability-mcp-server`; `tools/list` returns the registry |
| JsonValues.LookupFinds | templates/presets/codex-max/.agent/harness/mcp/observability-server/server.mjs:177 | a member lookup finds nothing exactly when no member has the key; a found value belongs to a member with that key |
| McpServer.UnknownTool | templates/presets/codex-max/.agent/harness/mcp/observability-server/server.mjs:105-118 | a `tools/call` whose name is not a tool throws `Unknown tool: <name>` |
| McpServer.ToolCallFailure | templates/presets/codex-max/.agent/harness/mcp/observability-server/server.mjs:105-121 | a backend failure makes the tool call throw the backend error unchanged |
| FrameCodec.FirstLengthLine | templates/presets/codex-max/.agent/harness/mcp/observability-server/server.mjs:139-141 | the chosen header line is the first whose lowercase form starts with `content-length:`, and none exists when it reports none |
| FrameCodec.ParseLength | templates/presets/codex-max/.agent/harness/mcp/observability-server/server.mjs:147 | the trimmed length text is a number exactly when it is all digits; empty text is 0 |
| FrameCodec.ReadFrame | templates/presets/codex-max/.agent/harness/mcp/observability-server/server.mjs:132-159 | without CRLF CRLF there is no frame yet; a complete frame's payload and rest fit in the buffer after the header |
| FrameCodec.CompleteIff | templates/presets/codex-max/.agent/harness/mcp/observability-server/server.mjs:133-157 | a read is complete with payload `p` and rest `r` exactly when the buffer is a header with no earlier blank line, announcing `|p|` bytes, then CRLF CRLF, `p` and `r` |
| FrameCodec.MissingLengthIff | templates/presets/codex-max/.agent/harness/mcp/observability-server/server.mjs:133-145 | the missing-length error happens exactly when the buffer starts with a closed header that has no Content-Length line |
| FrameCodec.BadLengthIff | templates/presets/codex-max/.agent/harness/mcp/observability-server/server.mjs:133-147 | the non-numeric-length case happens exactly when the buffer starts with a closed header whose length text is not a number |
| FrameCodec.NeedMoreIff | templates/presets/codex-max/.agent/harness/mcp/observability-server/server.mjs:133-152 | the decoder waits exactly when no CRLF CRLF has arrived, or a closed header announces more bytes than follow it |
| Seqs.SplitJoin | templates/presets/codex-max/.agent/harness/mcp/observability-server/server.mjs:139-140 | the parts `split` returns, joined with the separator, give back the whole text |
| Seqs.SplitPartsClean | templates/presets/codex-max/.agent/harness/mcp/observability-server/server.mjs:139-140 | no part returned by `split` contains the separator |
| Encoding.Utf8AsciiByte | templates/presets/codex-max/.agent/harness/mcp/observability-server/server.mjs:133-138 | an ASCII byte (CR, LF, `:`) is absent from the UTF-8 encoding of any text that lacks its character: no multi-byte sequence produces it |
| FrameCodec.RoundTrip | templates/presets/codex-max/.agent/harness/mcp/observability-server/server.mjs:132-159 | reading a frame written by `writeMessage` gives back its payload and leaves nothing |
| FrameCodec.ReadFrameEncoded | templates/presets/codex-max/.agent/harness/mcp/observability-server/server.mjs:132-159 | reading a frame followed by any bytes gives the payload, and the following bytes are kept untouched |
| FrameCodec.ReadFrameExtend | templates/presets/codex-max/.agent/harness/mcp/observability-server/server.mjs:132-159 | once a buffer yields a frame or an error, appending bytes changes only the rest after the frame |
| FrameCodec.CompleteRest | templates/presets/codex-max/.agent/harness/mcp/observability-server/server.mjs:154-155 | the bytes left after a complete frame are a suffix of the buffer |
| FrameCodec.SplitWholeFrames | templates/presets/codex-max/.agent/harness/mcp/observability-server/server.mjs:161-175 | a concatenation of frames splits into exactly their payloads, in order, with nothing left over |
| FrameCodec.SplitFramesChunked | templates/presets/codex-max/.agent/harness/mcp/observability-server/server.mjs:161-175 | splitting `a + b` is splitting `a`, then continuing on its leftover plus `b`: chunk boundaries do not matter |
| McpServer.Server.constructor | templates/presets/codex-max/.agent/harness/mcp/observability-server/server.mjs:130 | the server starts with an empty buffer, nothing written to stdout or stderr |
| McpServer.Server.TryReadFrame | templates/presets/codex-max/.agent/harness/mcp/observability-server/server.mjs:132-159 | the value read and the new buffer agree with the frame decoder; a JSON syntax error is thrown after the frame has been removed, a missing or non-numeric length leaves the buffer as it was |
| McpServer.DrainAfterRead | templates/presets/codex-max/.agent/harness/mcp/observability-server/server.mjs:164-179 | one loop step: no frame ends the pass, a throw fails it, a falsy message stops it, and any other message is answered (if it has an id) before the loop continues on a shorter buffer |
| McpServer.Server.OnData | templates/presets/codex-max/.agent/harness/mcp/observability-server/server.mjs:161-195 | after a chunk, the buffer, stdout and stderr are exactly what the drain specification gives for old buffer + chunk: one response frame per answered message, in order, and `Failed to parse frame: <error>` on stderr when a read threw |
| McpServer.Server.Respond | templates/presets/codex-max/.agent/harness/mcp/observability-server/server.mjs:176-192 | a message without an id writes nothing; any other writes exactly one response frame, carrying its id and the handler's result or error |
| McpServer.RepliesOfOne | templates/presets/codex-max/.agent/harness/mcp/observability-server/server.mjs:176-192 | a single message is answered exactly when it has an id, with one response built from the handler's outcome |
| McpServer.ResponseShape | templates/presets/codex-max/.agent/harness/mcp/observability-server/server.mjs:181-193 | every response has `jsonrpc: "2.0"` and the request's id, then either the result or an error `{code: -32000, message}` (never both) |
| McpServer.RepliesPerId | templates/presets/codex-max/.agent/harness/mcp/observability-server/server.mjs:177-193 | exactly the messages with an id are answered, one response each, in order, carrying that id |
| McpServer.DrainLeaves | templates/presets/codex-max/.agent/harness/mcp/observability-server/server.mjs:161-175 | the buffer left by a drain is a suffix of what it started with; an idle drain leaves no complete frame |
| McpServer.DrainStep | templates/presets/codex-max/.agent/harness/mcp/observability-server/server.mjs:164-193 | a complete truthy frame is answered first, then the rest of the buffer is drained |
| McpServer.DrainFollowsSplit | templates/presets/codex-max/.agent/harness/mcp/observability-server/server.mjs:132-175 | when every payload is truthy, the drain answers exactly the frames of the stream split, and stops where the split stops |
| McpServer.DrainWholeFrames | templates/presets/codex-max/.agent/harness/mcp/observability-server/server.mjs:161-194 | a stream of whole frames holding truthy messages is answered message by message and leaves an empty buffer |
| McpServer.DrainChunked | templates/presets/codex-max/.agent/harness/mcp/observability-server/server.mjs:161-195 | after an idle pass, receiving `a` and then `b` answers the same messages as receiving `a + b` at once |
| McpServer.FalsyMessageStalls | templates/presets/codex-max/.agent/harness/mcp/observability-server/server.mjs:173-175 | a `null` payload ends the pass with later complete frames left unanswered in the buffer |
| McpServer.EmptyPayloadFails | templates/presets/codex-max/.agent/harness/mcp/observability-server/server.mjs:147-157 | a `Content-Length: 0` frame fails the pass with the same `JSON.parse("")` error as a non-numeric length, after the empty frame is removed |
| McpClient.Frame | test/e2e/mcp-observability-check.mjs:11-14 | the client's frame text has the same bytes as the server's frame of the same message |
| McpClient.ParseFrames | test/e2e/mcp-observability-check.mjs:16-47 | the loop returns exactly the specification `ParseAll`: the messages in order and the pending bytes, or the thrown error |
| McpClient.ParseAllStep | test/e2e/mcp-observability-check.mjs:20-44 | a complete frame contributes its message, then parsing continues on the rest |
| McpClient.ParseOneFrame | test/e2e/mcp-observability-check.mjs:11-47 | `parseFrames(frame(m))` is `{messages: [m], pending: empty}` |
| McpClient.ParseTwoFrames | test/e2e/mcp-observability-check.mjs:16-47 | `parseFrames(frame(m1) + frame(m2))` yields `[m1, m2]` with nothing pending |
| McpClient.ParseWholeFrames | test/e2e/mcp-observability-check.mjs:16-47 | any sequence of whole frames parses back to its messages, in order, with nothing pending |
| McpClient.ParseAllPending | test/e2e/mcp-observability-check.mjs:16-47 | `pending` is a suffix of the input holding no complete frame; with no messages it is the whole input |
| McpClient.ParseAllFollowsSplit | test/e2e/mcp-observability-check.mjs:16-47 | `parseFrames` returns the payloads of the stream split, parsed, and throws exactly where the split hits a missing length |
| McpClient.ParseAllChunked | test/e2e/mcp-observability-check.mjs:79-82 | re-parsing the leftover plus a new chunk gives the same messages as parsing everything at once |
| McpClient.EmptyPayloadThrows | test/e2e/mcp-observability-check.mjs:16-47 | an empty payload makes `parseFrames` throw the `JSON.parse("")` error |
| McpClient.RecordedKeys | test/e2e/mcp-observability-check.mjs:83-87 | after recording, a key is present exactly when it was before, or some message carries it as its id; other entries are unchanged |
| McpClient.RecordedLatest | test/e2e/mcp-observability-check.mjs:83-87 | the entry for an id is the last message carrying that id |
| McpClient.Client.constructor | test/e2e/mcp-observability-check.mjs:74-77 | empty output buffer and response map, `requestId` starts at 1 |
| McpClient.Client.Request | test/e2e/mcp-observability-check.mjs:94-96 | ids are issued 1, 2, 3, … ; each call uses a fresh id and writes the frame of `{jsonrpc, id, method, params}` |
| McpClient.RequestFields | test/e2e/mcp-observability-check.mjs:96 | the request message carries the id, the method and the params it was built from |
| McpClient.Client.OnStdout | test/e2e/mcp-observability-check.mjs:79-88 | the output buffer becomes the pending bytes and the map records the parsed messages; a parse error leaves the map as it was and the buffer holding the new chunk |
| McpClient.Client.Store | test/e2e/mcp-observability-check.mjs:83-87 | the messages with a defined id are stored by id in order; a `null` message throws after the earlier ones are stored |
| EndToEnd.SameDecomposition | test/e2e/mcp-observability-check.mjs:20-44 | when every payload is truthy, client and server split a stream identically: the drain is idle exactly when `parseFrames` does not throw, with the same leftover, and the server answers exactly the client's messages |
| EndToEnd.RequestDrained | templates/presets/codex-max/.agent/harness/mcp/observability-server/server.mjs:161-194 | a framed request is answered with one response for its id, leaving an empty buffer |
| EndToEnd.ResponseDecoded | test/e2e/mcp-observability-check.mjs:79-88 | the response frame parses back to the response, and the map then holds it under its id |
| EndToEnd.OutcomeOfResponse | test/e2e/mcp-observability-check.mjs:107-112 | the client returns the handler's result, or throws `MCP error for <method>: <message>` for a handler error |
| EndToEnd.RequestRoundTrip | test/e2e/mcp-observability-check.mjs:94-112 | a request sent with id `n` comes back as the server's response, is stored under `n`, and `request` returns the handler's result or its error text |
| EndToEnd.SingleFrames | test/e2e/mcp-observability-check.mjs:11-14 | the server's writer and the client's `frame` produce the same bytes for one message |
| DoctorChecks.HasManagedMarkersIff | src/core/doctorChecks.ts:35-39 | the markers check holds exactly when both `<!-- execplans:begin -->` and `<!-- execplans:end -->` occur in the text, in either order |
| DoctorChecks.ReadFile | src/core/doctorChecks.ts:90 | reading an existing file gives its content; reading a directory throws |
| DoctorChecks.FrontmatterBlock | src/core/doctorChecks.ts:43-47 | the block starts after a `---\r?\n` opener and ends at the first `\r?\n---`, and there is none without both |
| DoctorChecks.ParseFrontmatter | src/core/doctorChecks.ts:41-59 | no block gives no frontmatter; otherwise the YAML result of the block; only the read can throw |
| DoctorChecks.BlankIff | src/core/doctorChecks.ts:140 | `s.trim().length === 0` exactly when every character of `s` is ECMAScript white space or a line terminator |
| DoctorChecks.RunDoctorChecks | src/core/doctorChecks.ts:75-176 | the method returns exactly the fixes of the specification `DoctorFixes`, or the path whose read threw |
| DoctorChecks.CheckPresence | src/core/doctorChecks.ts:78-84 | the first two blocks add "Create" for a missing plans file, then for a missing execplans directory |
| DoctorChecks.CheckManagedFile | src/core/doctorChecks.ts:86-97 | one assistant-file block of the method appends exactly that check's fixes |
| DoctorChecks.CheckPlanHeadings | src/core/doctorChecks.ts:112-119 | the heading loop appends one fix per heading the plans file lacks |
| DoctorChecks.CheckHeadings | src/core/doctorChecks.ts:114-118 | the heading loop appends, in list order, one fix per heading the text lacks |
| DoctorChecks.CheckSkillFiles | src/core/doctorChecks.ts:121-148 | the skill loop, with its early `continue`s, appends exactly the two skill checks' fixes |
| DoctorChecks.CheckFields | src/core/doctorChecks.ts:138-146 | the `name` fix, then the `description` fix, each appended exactly when that field holds no text |
| DoctorChecks.CheckCodexMax | src/core/doctorChecks.ts:150-173 | the codex-max block appends the missing-path fixes, then the two config block fixes |
| DoctorChecks.CheckRequiredPaths | src/core/doctorChecks.ts:151-156 | the required-path loop appends one "Create" fix per missing path, in order |
| DoctorChecks.CheckBlocks | src/core/doctorChecks.ts:161-171 | the chrome_devtools fix, then the observability fix, each appended exactly when the config lacks that block |
| DoctorChecks.FixesInCheckOrder | src/core/doctorChecks.ts:75-176 | the result is the checks' fixes concatenated in the order the checks are made, and it is produced exactly when no read throws |
| DoctorChecks.MissingPlansFile | src/core/doctorChecks.ts:78-80 | a missing plans file is the first fix, and no heading fix is produced for it |
| DoctorChecks.HeadingFixesPerMissing | src/core/doctorChecks.ts:112-119 | the heading fixes are one `Add required heading "<h>"` per missing heading, in list order |
| DoctorChecks.PlanHeadingFixes | src/core/doctorChecks.ts:112-119 | for an existing plans file, the fixes are one per heading in `REQUIRED_PLAN_HEADINGS` that does not occur in it, in list order; for a missing one, none |
| DoctorChecks.ManagedFileFixes | src/core/doctorChecks.ts:86-110 | a disabled check adds nothing; an enabled one adds "Create" for a missing file, nothing when both markers occur, and otherwise one "Add markers" fix |
| DoctorChecks.SkillFileFixes | src/core/doctorChecks.ts:121-148 | a missing skill file adds only "Create"; no frontmatter adds only the frontmatter fix; otherwise at most two fixes, one for each of `name` and `description` that is not a string with a non-space character |
| DoctorChecks.FieldFixesExact | src/core/doctorChecks.ts:138-146 | at most two field fixes; the fix for `name` (for `description`) is present exactly when that field is not a string with a non-space character |
| DoctorChecks.MissingPathFixesExact | src/core/doctorChecks.ts:150-156 | a "Create" fix exists for a required path exactly when that path is missing, and every such fix names one |
| DoctorChecks.MissingPathFixesMembers | src/core/doctorChecks.ts:151-156 | a line is a missing-path fix exactly when it is the "Create" fix of some required path that does not exist |
| DoctorChecks.CodexMaxFixes | src/core/doctorChecks.ts:150-173 | nothing is checked for another preset; the missing-path fixes come first; the two `[mcp_servers.*]` fixes are added only when `.codex/config.toml` exists (a missing one is itself reported) |
| DoctorChecks.EmptyExactlyWhenAllPass | src/core/doctorChecks.ts:75-176 | the result is empty exactly when every enabled check passes, as stated independently by `AllChecksPass` |
| DoctorChecks.EveryLineIsAFix | src/core/doctorChecks.ts:75-176 | every returned line starts with `Fix: ` |
| Doctor.CheckOptions | src/commands/doctor.ts:17-29 | the checks receive the configured root, preset and paths, and the three assistant flags unchanged |
| Doctor.RunDoctor | src/commands/doctor.ts:14-41 | no fixes: the log is exactly `["OK"]` and the code 0; otherwise the log is the fixes in order, "OK" is not logged, and the code 1; the code is 0 exactly when there are no fixes |
| Doctor.OkIsNotAFix | src/commands/doctor.ts:31-40 | "OK" is never one of the fix lines |

## Left out

- JSON: `JSON.stringify` and `JSON.parse` are a parameter (`JsonCodec`), constrained only so that `JSON.parse("")` throws. A lemma that round-trips a message requires the codec to invert on it (`Inverts`). JSON numbers are unbounded integers, while JavaScript numbers are doubles. So `Client.Request`'s fresh ids hold only below 2^53, where `requestId++` stops changing the value, and `IntText` matches `String(n)` only below 1e21, where JavaScript switches to exponent form.
- UTF-8 decoding of payload bytes is part of the codec's `parse`. Header bytes are searched, split and lowercased as bytes. That is exact for UTF-8, because CR, LF and `:` never occur inside a multi-byte sequence; `Utf8AsciiByte` proves that an absent character leaves its byte absent. The model does not prove that byte positions, `indexOf` and `split` on the bytes match those on the decoded text.
- `Number()` on the length text: the model reads only digit strings, and the empty string as 0. Every other text counts as not a number, which makes `JSON.parse("")` throw with the buffer unchanged. The program does otherwise for several texts. Signed (`+12`), hexadecimal, binary, octal and exponent texts are numbers, so the program reads a frame where the model throws. A negative length cuts the buffer at an earlier offset, or at one counted from its end, and then throws. `Infinity` makes `tryReadFrame` wait forever. A fractional length is compared as a fraction and truncated when slicing. The model's trim of the length text removes ASCII white space only, so a length padded with U+00A0 or U+FEFF is a number to the program and not to the model.
- McpServer.Server.OnData: server.mjs's data handler is async. Handlers for overlapping chunks can interleave at the `await`. The model completes one drain pass per chunk before the next chunk is taken.
- McpServer.DrainFollowsSplit: requires every payload to be truthy. server.mjs's `if (!message) break` stops at a falsy payload (`null`, `false`, `0`, `""`) and leaves the later frames in the buffer until the next chunk; `FalsyMessageStalls` shows this.
- McpServer.PostForm: `fetch` and the `URLSearchParams` body encoding are not modelled. The backend is a function from the request (URL and form fields) to a reply or a failure.
- The HTTP status text of a thrown `fetch` error, and engine error texts (V8's wording of `SyntaxError` and `TypeError`), are not modelled. Where the model needs such a text, it uses a fixed string.
- `process.env`: the environment variables are a map given to `EndpointsFrom`.
- Stdin, stdout and stderr are sequences. `console.log` / `io.log` is the `log` out-parameter.
- End-to-end plumbing: `spawn`, `sleep`, the 10-second deadline, retries, `child.kill`, and the tool-name assertions of the end-to-end script.
- Ids that are objects or arrays: a JavaScript `Map` compares them by identity, while the model's map compares them by value.
- `String(x)` on objects and arrays with their own `toString` is not modelled.
- McpClient.Client.Store: factored out of the stdout handler's loop so that `OnStdout` stays small. A `null` message throws a `TypeError` there after the earlier messages are stored; the text of that error is a fixed string.
- The doctor's file system is a map from path to file content or directory. `fs.existsSync` is map membership. `path.resolve(root, rel)` is `root + "/" + rel`; path normalisation is not modelled.
- `YAML.parse` is a parameter. It returns the parsed frontmatter, or nothing when it throws or yields a falsy or non-object value. The regular expression that cuts out the block is modelled.
- A read that throws (`EISDIR` on a directory) ends `runDoctorChecks` with that path as the error; Node's error text is not modelled.
- DoctorChecks.RunDoctorChecks: the body is split into one method per check block, in source order, so each block is proved on its own.
- `resolveConfig` (src/core/config) is not part of this model. `Doctor.RunDoctor` takes the resolved configuration.
- The managed-region patcher (src/core/managedBlock.ts) is not part of this model. Only its marker constants are used, with the values written by `init`.
- src/cli.ts (command wiring) is not modelled.
