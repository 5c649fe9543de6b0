# makiwara request/response engine in Dafny

makiwara is a single-threaded HTTP server used as a target for stress tests.
It answers every request with one of two fixed responses, which it builds once at start-up.
This project models the request/response logic of `makiwara.c`:

- the start-up checks of `main`: argument count, port range, allocation;
- the two precomputed responses. `sprintf` fills `response_fmt` with the body length, `close` or `keep-alive`, and the body. Each result goes into a heap buffer of `strlen(response_fmt) + body_length + 16` characters, and its length is taken by `strlen`;
- the keep-alive heuristic of `read_cb`: a byte scan for `"\n"` followed by `Connection: Keep-Alive`, compared by `strncasecmp`;
- the per-connection step of `read_cb` and the registration done by `accept_cb`.

Modules:

- `Decimal`: the `%d` rendering and reading it back.
- `Printf`: `sprintf` over literal text and `%d`/`%s` conversions.
- `CString`: `strlen`.
- `LineReader`: a client's reading of a response (lines up to the empty line, then the body; `name: value` header lines). The builder is proved against this reader.
- `HttpResponse`: `response_fmt` and the two responses.
- `KeepAlive`: the scan, as a method over `array<char>`, checked against the predicate `KeepAliveAt`.
- `Server`: the start-up function `Startup`, and the class `Engine`. `Engine` holds the globals (response buffers, lengths, `keep_alive_length`) and the set of registered client descriptors. Its methods are `Accept` and `Step`.

The template ends its lines with a bare `"\n"`, not the CRLF that section 2.1 of RFC 9112 requires. The model keeps `"\n"`.
`Content-Length` is meant as in section 8.6 of RFC 9110, and the `Connection` values as in section 7.6.1 of RFC 9110.
Characters stand for the bytes of C `char`. Case folding is `tolower` in the C locale, which changes only `A`..`Z`.

A read error (`recv` < 0) sends nothing and leaves the connection registered, as the code does.
With body `<html></html>`, the code sends `Content-Length: 13`, the body's `strlen` (`HttpResponse.HtmlBodyExample`).

## Model

| member | source | states |
|---|---|---|
| `Decimal.Render` | makiwara.c:28 | `%d` of a non-negative value is a non-empty string of digits with no leading zero, except for 0 |
| `Decimal.RenderRoundTrip` | makiwara.c:28 | reading the rendered digits back gives the value rendered |
| `Decimal.RenderOfValue` | makiwara.c:28 | every digit string without a leading zero is the rendering of its value, so the rendering is the one canonical spelling |
| `Decimal.RenderWidth` | makiwara.c:75-76 | a value below 10^k renders in at most k digits |
| `Decimal.RenderWidthCInt` | makiwara.c:54 | any non-negative C `int` value renders in at most 10 characters, the bound the allocation's `+ 16` relies on |
| `Printf.Format` | makiwara.c:82-83 | the text `sprintf` writes is the format's length less two characters per conversion, plus the widths of the arguments |
| `CString.Strlen` | makiwara.c:85-86 | `strlen` is the position of the first NUL, and no NUL comes before it |
| `CString.StrlenOfText` | makiwara.c:85-86 | for a buffer holding a NUL-free text and then a NUL, `strlen` is the text's length |
| `CString.StoreText` | makiwara.c:75-86 | a fresh buffer of the allocated size holds the NUL-free text written into it and then a NUL, and `strlen` of the buffer is the text's length |
| `HttpResponse.TemplateFormat` | makiwara.c:25-32 | the three `sprintf` arguments match the three conversions `%d %s %s` of `response_fmt`; the output is the format text with the values in their places |
| `HttpResponse.FmtText` | makiwara.c:25-32 | `response_fmt` as modelled is the C literal character for character, its lines ended by `\n` |
| `HttpResponse.FmtLength` | makiwara.c:25-32 | `strlen(response_fmt)` is 121 |
| `HttpResponse.BuildResponse` | makiwara.c:82-83 | each response is the fixed text with the rendered body length, the `Connection` value and the body in place of the conversions |
| `HttpResponse.ResponseLength` | makiwara.c:85-86 | a response's length is `strlen(response_fmt)` - 6 + digits of the length + length of the value + body length |
| `HttpResponse.ResponseFits` | makiwara.c:75-76 | for any body up to `INT_MAX` characters and a value up to 10 characters, the response plus its NUL fits in `strlen(response_fmt) + body_length + 16` |
| `HttpResponse.VariantsDiffer` | makiwara.c:82-86 | the close and keep-alive responses are equal before and after the `Connection` value, which is `close` in one and `keep-alive` in the other; the keep-alive one is exactly 5 characters longer |
| `HttpResponse.ResponseLines` | makiwara.c:25-32 | a response is its status line and five header lines, each ended by `"\n"`, then an empty line, then the body |
| `HttpResponse.ReadBack` | makiwara.c:25-32 | a client reading a response gets the status line, the headers in template order, and after the empty line the body unchanged; this holds for any one-line `Connection` value |
| `HttpResponse.HeadersCarryValues` | makiwara.c:28-29 | the `Content-Length` header holds the decimal rendering of the body's length and reads back as that length; the `Connection` header holds the value passed |
| `HttpResponse.ClientReadsResponse` | makiwara.c:25-32 | for every body and one-line `Connection` value, a client reading the response finds `Content-Length` equal to the rendering of the body's length (which reads back as that length), `Connection` equal to the value, and the body unchanged |
| `HttpResponse.ResponseHasNoNul` | makiwara.c:82-86 | a NUL-free body gives a NUL-free response, so `strlen` of the buffer measures the whole response |
| `HttpResponse.HtmlBodyExample` | makiwara.c:70-73 | with body `<html></html>`, the keep-alive response reads back with `Content-Length: 13`, `Connection: keep-alive` and the body unchanged |
| `KeepAlive.KeepAliveLength` | makiwara.c:88 | `keep_alive_length`, the `strlen` of `keep_alive_str`, is 22 |
| `KeepAlive.ToLower` | makiwara.c:160 | C-locale case folding never yields an upper-case letter, yields a letter exactly for a letter, turns a letter only into itself or its other case, and keeps every other character |
| `KeepAlive.ToLowerEqual` | makiwara.c:160 | two characters compare equal ignoring case exactly when they are equal, or are one ASCII letter in its two cases |
| `KeepAlive.SameIgnoringCase` | makiwara.c:160 | `strncasecmp` of the 22 characters reports equal exactly when the lengths agree and each character is the same, or the same ASCII letter in the other case; every other character compares only as itself |
| `KeepAlive.ToLowerFolds` | makiwara.c:160 | folding twice is folding once, and folding the other case of a lower-case letter gives the letter back |
| `KeepAlive.SeparatorsExact` | makiwara.c:40 | a match of `Connection: Keep-Alive` has exactly `:`, space and `-` in positions 10, 11 and 16 |
| `KeepAlive.FindKeepAlive` | makiwara.c:159-164 | the scan reports keep-alive iff some received position holds `"\n"` followed by the 22-character text in any letter case; the position it reports is the first such one |
| `KeepAlive.RecognisedAnywhere` | makiwara.c:159-162 | any `"\n"` followed by the text in any letter case is recognised, wherever it sits in the request |
| `KeepAlive.KeepAliveRequestRecognised` | makiwara.c:159-162 | the request `GET / HTTP/1.1`, `Host: x`, `Connection: Keep-Alive` with CRLF line ends is recognised |
| `KeepAlive.LowerCaseRecognised` | makiwara.c:160 | the header written as `connection: keep-alive` is recognised |
| `KeepAlive.ShortRequestNotRecognised` | makiwara.c:159-160 | a request of at most 22 bytes is never recognised within the received bytes |
| `KeepAlive.StaleBytesMatch` | makiwara.c:141-160 | as written, the test reads bytes past `read` in the buffer and answers keep-alive for a request made of one `"\n"`; the model's scan does not |
| `Server.Startup` | makiwara.c:53-80 | start-up succeeds iff argc is 2 or 3, the port is in 1..65535 and allocation succeeded; otherwise it fails with -1 (argc), -2 (port) or -3 (allocation); the body is `argv[2]`, or empty when only the port is given |
| `Server.Engine.constructor` | makiwara.c:75-88 | both buffers have `strlen(response_fmt) + body_length + 16` characters and each holds its response followed by a NUL; the stored lengths are the responses' lengths, keep-alive = close + 5, and `keep_alive_length` is 22 |
| `Server.Engine.Accept` | makiwara.c:129-137 | a descriptor returned by `accept` is registered, a failed `accept` changes nothing, and no other registration changes |
| `Server.Engine.Step` | makiwara.c:150-172 | read < 0: nothing is sent and the registrations are unchanged. read == 0: only a close, and the descriptor is deregistered. read > 0 with keep-alive: one send of the keep-alive response, descriptor kept. read > 0 otherwise: send of the close response, shutdown, close, descriptor deregistered. No other registration changes |

## Findings

| source | as written | input that shows it | evidently intended | confidence | as-written member | corrected member |
|---|---|---|---|---|---|---|
| makiwara.c:141-160 | `strncasecmp(buffer + i + 1, keep_alive_str, keep_alive_length)` compares up to 22 bytes after position `i` without regard to `read`. Those bytes are uninitialised stack memory, which is often left over from an earlier request. For `i` of 1002 or more the last of them lie past the end of the 1024-byte buffer; `strncasecmp` reads them only while the bytes before keep matching. | `read` = 1, received byte `"\n"`, with `Connection: Keep-Alive` left in the buffer after it | a match only within the received bytes | medium: depends on the stack contents, not executed | `KeepAlive.StaleBytesMatch` (about `KeepAlive.KeepAliveAtAsWritten`) | `KeepAlive.FindKeepAlive` |

## Left out

- The libev event loop: `ev_default_loop`, `ev_io_init`, `ev_io_start`, `ev_io_stop`, and the endless `while (1)`. These are foreign library calls. A started read watcher is modelled as membership in `Engine.registered`.
- The `EV_ERROR` branches of both callbacks. They only log.
- The socket calls: `socket`, `bind`, `listen`, `accept`, `recv`, `send`, `shutdown`, `close`. Exit codes -4 to -6 are left out with them. These are operating-system I/O. The results of `accept` and `recv` are inputs. What `read_cb` does to the client socket is returned as `SocketOp`s. `send` is taken to write the whole buffer, since its result is ignored.
- `atoi`: passed to `Startup` as a function parameter. Its parsing rules are C library behaviour.
- `printf` and `perror` diagnostics, and the usage text.
- `malloc` failure: only the flag `memoryOk` of `Startup`. `Engine.constructor` models the successful allocation.
- The leak of `w_client` when `accept` fails, and `free` of the watcher. Heap memory is not modelled. Deregistration stands for `ev_io_stop` followed by `free`.
- The buffer bytes after each response's NUL: `malloc` leaves them undefined, the model fills them with NUL, and they are never sent.
- Server.Engine.constructor: requires that `strlen(response_fmt) + body_length + 16` is at most `INT_MAX` and that the body has no NUL. `body_length`, `response_close_length` and `response_keep_alive_length` are C `int`s (makiwara.c lines 37-38), and so is the count `sprintf` returns; past that bound the C code would store wrapped lengths, which the model does not describe. Linux limits one argument to 128 KiB, and an argument string cannot contain a NUL.
- KeepAlive.FindKeepAlive: matches only within the `read` received bytes. The C code may also compare stale bytes after them, or read past the buffer (see Findings). Both are undefined behaviour.
- Concurrency: none. The server is single-threaded and each callback runs to completion.
