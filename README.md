# Chat server and threaded HTTP request parser

This project models two small web servers of the `websystems` teaching repository in Dafny.

**The chat server** (`code/chat-server.js`) keeps chats in memory.
- Each chat is an append-only array of messages `{id, author, body}`, and a message's id is its index.
- Three routes are served:
  - `GET /chats/new` creates a chat and answers with its id.
  - `POST /chats/<n>/messages/new` stores the `author` and `body` form fields and answers with the new message id.
  - `GET /chats/<n>/messages?since=<m>` lists the messages after the cursor, newest first, one per paragraph.
- Any other request gets a 404 that names the path.
- Every response is plain text that ends with a newline. Its headers give the content type, the length and `Connection: close`.

**The threaded server** (`code/ThreadedServer.java`) reads a request with `HTTPRequest.parse` and prints it with `toString`.
- `parse` reads the request line: trim it, then split it on runs of white space. Three parts give the method and the path.
- It then reads `name: value` header lines into a hash map. It stops at the end of input, at a blank line, or at the first line that does not split on `:\s*` into exactly two pieces.
- `toString` writes the method, the path and one line per header, in the map's iteration order.

Modules:
- `Wrappers`: `Option`, for `null`, `undefined` and `NaN`.
- `JsRuntime`: the JavaScript built-ins the chat server relies on.
  - `parseInt` without a radix.
  - `Number.prototype.toString`.
  - `Array.prototype.slice`, `reverse` and `join`.
- `ChatStore`: the store.
  - A `Store` class whose `chats` field `Chat` and `AddMessage` update in place.
  - `Messages`, which reads only.
  - Lemmas about the `since` cursor.
- `ChatRouter`: the request handler.
  - Route matching as `__match` does it, including the `chat_id` that the match sets.
  - The `since` cursor, message rendering, and the 200 and 404 responses.
  - The `Handle` method, which runs one request against a `Store`.
- `JavaText`: `String.trim()` and `String.split(regex)` for the two patterns the parser uses.
- `HttpRequest`: the `HTTPRequest` class.
  - `Parse` is the `while (true)` loop of `parse`, proved against the reference definition `Parsed`.
  - `ToString` is the `toString` loop. It chooses an arbitrary iteration order and returns that order as a ghost result.

Some behaviour follows from the code as written and is kept on purpose:
- `since=0` lists every message, like no cursor at all (`ChatRouter.SinceZeroListsAll`). This is because `parseInt(...) || -1` treats 0 as false.
- A cursor below -1 counts back from the end of the chat (`ChatStore.MessagesAfterNegativeCursor`).
- A header such as `Host: a:8124` splits into three pieces, so the parser stops reading headers there (`HttpRequest.ColonInValueStops`).
- A header with an empty value, such as `Name:`, stops the parser the same way (`HttpRequest.EmptyValueStops`).
- A chat id that no chat has is not checked by the code. Indexing the chats array then fails.
  - A clean "not found" error there would be a hardening of the code.
  - The model follows the code: an id in range is a precondition of `Store.AddMessage` and `Store.Messages`, and of `Handle` through `ChatRouter.ChatIdInRange`.

## Model

| member | source | states |
|---|---|---|
| ChatStore.Store.constructor | code/chat-server.js:12 | the store starts with no chats, and every chat's ids are dense (vacuously) |
| ChatStore.Store.Chat | code/chat-server.js:14-19 | pushes one empty chat and returns the number of chats there were before; earlier chats are unchanged and the dense-id invariant is kept |
| ChatStore.Store.AddMessage | code/chat-server.js:21-27 | appends `{id, author, body}` to that chat only; the id is the chat's length before the push; nothing else changes and the ids stay dense |
| ChatStore.Store.Messages | code/chat-server.js:29-33 | reads only: the newest messages of the chat, newest first; for a cursor of -1 or more exactly those with an id above the cursor, and for a cursor below -1 exactly those with an id above the chat's length plus the cursor |
| ChatStore.MessagesAfter | code/chat-server.js:32 | definition of `chats[chat_id].slice(since + 1).reverse()`; its meaning is stated by MessagesAfterLayout, MessagesAfterCursor and MessagesAfterNegativeCursor |
| ChatStore.MessagesAfterLayout | code/chat-server.js:29-33 | for a cursor of -1 or more, the listing is the chat from index `since + 1` on, newest first |
| ChatStore.MessagesAfterCursor | code/chat-server.js:29-33 | for a cursor of -1 or more, a message is listed if and only if it is in the chat with an id above the cursor; the listing is newest first, as long as the chat's length minus `since + 1`, and empty once the cursor reaches the last id |
| ChatStore.MessagesAfterNegativeCursor | code/chat-server.js:32 | a cursor below -1 acts as the cursor `max(-1, length + since)`: only the newest `-(since + 1)` messages are listed |
| ChatStore.MessagesAfterIds | code/chat-server.js:29-33 | for every cursor, a message is listed if and only if it is in the chat with an id above the cursor, or, for a cursor below -1, above the chat's length plus the cursor |
| ChatStore.MessagesAfterStartIsAll | code/chat-server.js:32 | the cursor -1 lists the whole chat in reverse order, for every chat |
| JsRuntime.ParseInt | code/chat-server.js:97 | definition of `parseInt` without a radix: skip white space, take a sign, read base 16 after `0x` or `0X` and base 10 otherwise, `NaN` without digits; its meaning is stated by ParseIntIgnoresLeadingSpace, ParseIntOfPlus, ParseIntOfNonNumeric and the ParseInt lemmas below |
| JsRuntime.ParseSigned | code/chat-server.js:97 | definition of the sign step of `parseInt`: one `+` or `-`, and a `-` negates the value |
| JsRuntime.SkipJsSpaceOfSpaces | code/chat-server.js:97 | skipping white space removes all of a leading run of it |
| JsRuntime.ParseIntIgnoresLeadingSpace | code/chat-server.js:97 | white space before the number does not change what `parseInt` gives |
| JsRuntime.ParseIntOfPlus | code/chat-server.js:97 | a leading `+` is taken as the sign and leaves the value positive |
| JsRuntime.ParseUnsignedOfNonDigit | code/chat-server.js:97 | text that does not begin with a decimal digit has no unsigned value, not even after a `0x` check |
| JsRuntime.ParseIntOfNonNumeric | code/chat-server.js:97 | without a digit after the white space and the sign, `parseInt` gives `NaN` |
| JsRuntime.DigitPrefix | code/chat-server.js:97 | the digits that `parseInt` reads form the longest prefix of digits of the base |
| JsRuntime.ParseIntOfDigits | code/chat-server.js:53 | `parseInt` of the `(\d+)` group is the decimal value of the digits |
| JsRuntime.ParseIntIgnoresTrailingText | code/chat-server.js:97 | `parseInt` reads leading decimal digits and ignores the text after them, unless the digits are a lone `0` followed by `x` or `X` |
| JsRuntime.ParseIntOfHex | code/chat-server.js:97 | a `0x` prefix makes `parseInt` read base 16 |
| JsRuntime.NumberToString | code/chat-server.js:99 | `n.toString()` is a non-empty run of decimal digits, with no leading zero unless `n` is 0 |
| JsRuntime.NumberToStringRoundTrip | code/chat-server.js:69 | the rendered id read back in base 10 is the id |
| JsRuntime.ParseIntOfNumberToString | code/chat-server.js:97 | `parseInt(n.toString())` is `n` |
| JsRuntime.ParseIntOfNegativeNumber | code/chat-server.js:97 | `parseInt('-' + n.toString())` is `-n` |
| JsRuntime.Slice | code/chat-server.js:32 | `slice(start)` is a suffix of the array: for a negative start the last `-start` elements, or all of them; otherwise all but the first `start`, or none |
| JsRuntime.Reverse | code/chat-server.js:32 | `reverse()` keeps the length and puts element `i` at `length - 1 - i` |
| JsRuntime.Join | code/chat-server.js:102 | `join` of no strings is empty; otherwise it begins with the first string and ends with the last |
| ChatRouter.ExecPattern | code/chat-server.js:39-52 | definition of `regex.exec(pathname)` for the three route patterns: `/chats/new` matches only itself, with no group; its meaning for the id patterns is stated by ExecIdPatternExact |
| ChatRouter.ExecIdPattern | code/chat-server.js:40-41 | a match of `^\/chats\/(\d+)<suffix>$` captures digits `d` with the path equal to `/chats/` + `d` + suffix |
| ChatRouter.ExecIdPatternComplete | code/chat-server.js:40-41 | every path of that shape matches and captures its digits |
| ChatRouter.ExecIdPatternExact | code/chat-server.js:40-41 | the pattern matches if and only if the path has that shape |
| ChatRouter.NewChatPathHasNoId | code/chat-server.js:39-41 | `/chats/new` has no chat id in it, so it matches neither id pattern |
| ChatRouter.Match | code/chat-server.js:49-58 | a match of a pattern with a group sets a non-negative `chat_id` |
| ChatRouter.MatchChatId | code/chat-server.js:53 | the `chat_id` set by a match is the decimal value of the captured digits |
| ChatRouter.MatchIdPattern | code/chat-server.js:49-58 | `__match` succeeds if and only if the method is equal and the pathname has the pattern's shape, and then sets `chat_id` to the digits' value |
| ChatRouter.Dispatch | code/chat-server.js:65-109 | definition of the handler's `if` chain over the three routes; its meaning is stated by DispatchRoutes and DispatchChatPaths |
| ChatRouter.DispatchRoutes | code/chat-server.js:65-109 | each of the three actions is taken if and only if its method and path shape are present, with `chat_id` the decimal value of the path's digits; everything else is a 404 |
| ChatRouter.DispatchChatPaths | code/chat-server.js:65-109 | a path built from a chat id's decimal rendering routes to that chat id |
| ChatRouter.Cursor | code/chat-server.js:97 | the cursor is never 0, and no `since` gives -1 |
| ChatRouter.CursorOfNumber | code/chat-server.js:97 | `since=n` gives the cursor `n`, except that `since=0` gives -1 |
| ChatRouter.CursorOfNegative | code/chat-server.js:97 | `since=-n` gives the cursor `-n`, except that `since=-0` gives -1 |
| ChatRouter.CursorOfNonNumeric | code/chat-server.js:97 | a `since` without a digit after white space and sign is `NaN`, so the cursor is -1, as for no cursor |
| ChatRouter.CursorOfText | code/chat-server.js:97 | `since=abc` and an empty `since` give the cursor -1 |
| ChatRouter.SinceZeroListsAll | code/chat-server.js:97-98 | `since=0` lists the same messages as no cursor, that is every message of the chat |
| ChatRouter.FormatMessage | code/chat-server.js:99 | definition of `'[' + m.id + '] ' + m.author + ': ' + m.body`; its meaning is stated by FormatMessageReadsBack |
| ChatRouter.FormatMessageIdEnd | code/chat-server.js:99 | in a message's line, the first `]` closes the rendered id |
| ChatRouter.FormatMessageAuthorEnd | code/chat-server.js:99 | when the author holds no colon, the first `:` after the id ends the author |
| ChatRouter.FormatMessageReadsBack | code/chat-server.js:98-100 | `'[' + id + '] ' + author + ': ' + body` reads back as the message when the author holds no colon |
| ChatRouter.FormatList | code/chat-server.js:98-102 | definition of the rendered messages joined by a blank line; its meaning is stated by FormatListShape |
| ChatRouter.FormatListShape | code/chat-server.js:98-102 | the list body is empty if and only if there is no message, and it begins with the newest message's line |
| ChatRouter.HeadersFor | code/chat-server.js:116-121 | definition of `__headers(text)`; what it promises of every response is stated by Respond200 and Respond404 through WellFormed |
| ChatRouter.Respond200 | code/chat-server.js:127-129 | status 200; the text plus one newline; headers `text/plain`, Content-Length equal to the sent text's length, `close` (as `__headers` at lines 116-121 builds them) |
| ChatRouter.Respond404 | code/chat-server.js:123-125 | status 404; a newline-terminated text; the same three headers |
| ChatRouter.Handle | code/chat-server.js:65-109 | per route: the new chat and its id as the reply, the new message and its id, the listing for the cursor with the store unchanged, or a 404 naming the path with the store unchanged; every response is well formed |
| JavaText.Trim | code/ThreadedServer.java:50 | definition of `trim()` as TrimEnd after TrimStart; its meaning is stated by TrimStart, TrimEnd and TrimAround |
| JavaText.TrimStart | code/ThreadedServer.java:50 | `trim()` removes exactly the leading characters at or below U+0020 |
| JavaText.TrimEnd | code/ThreadedServer.java:50 | `trim()` removes exactly the trailing characters at or below U+0020 |
| JavaText.TrimAround | code/ThreadedServer.java:50 | `trim()` of text wrapped in such characters is the text |
| JavaText.Split | code/ThreadedServer.java:66 | definition of `split(regex)` with the default limit: no match gives the whole text, otherwise the pieces without the trailing empty ones; its meaning is stated by SplitOfPieces and the Split lemmas below |
| JavaText.NextSeparator | code/ThreadedServer.java:50 | the leftmost place where a match of the pattern begins |
| JavaText.SkipSpaces | code/ThreadedServer.java:66 | a greedy `\s*` run ends at the first character outside `\s` |
| JavaText.DropTrailingEmpty | code/ThreadedServer.java:66 | `split` drops exactly the trailing empty pieces and keeps the rest |
| JavaText.Pieces | code/ThreadedServer.java:66 | definition of the text between successive leftmost, greedy matches, empty pieces included; there is always at least one piece, and PiecesStep states how one match splits off a piece |
| JavaText.PiecesStep | code/ThreadedServer.java:66 | text without a match, then one whole match, is one piece followed by the pieces of the rest |
| JavaText.SplitOfPieces | code/ThreadedServer.java:66 | two or more pieces whose last one is not empty are what `split` returns |
| JavaText.SplitTokens | code/ThreadedServer.java:50 | three tokens separated by white space split into those three tokens |
| JavaText.SplitRequestLine | code/ThreadedServer.java:50-52 | a request line `method SP path SP version`, with any white space around it, splits into its three parts |
| JavaText.SplitHeaderLine | code/ThreadedServer.java:66-69 | `name: value` with no colon in name or value splits into name and value |
| JavaText.SplitColonInValue | code/ThreadedServer.java:66-70 | `Host: a:8124` splits into three pieces |
| JavaText.SplitEmptyValue | code/ThreadedServer.java:66-70 | `Name:` splits into one piece, because the trailing empty piece is dropped |
| HttpRequest.Classify | code/ThreadedServer.java:61-73 | definition of what one iteration of the header loop does with a line; its meaning is stated by HeaderLineStored, ColonInValueStops and EmptyValueStops |
| HttpRequest.Classified | code/ThreadedServer.java:57-74 | one kind per input line, in order; ClassifiedAt states that each is what Classify makes of its line |
| HttpRequest.ClassifiedAt | code/ThreadedServer.java:57-74 | the kind at each index is what one iteration of the loop makes of the line at that index |
| HttpRequest.ClassifiedAppend | code/ThreadedServer.java:57-74 | the lines of two inputs one after the other are classified as each input is |
| HttpRequest.ClassifyField | code/ThreadedServer.java:61-73 | unfolding of Classify: a line that is not blank and splits into two pieces is a header whose name and value are those pieces |
| HttpRequest.ClassifyStop | code/ThreadedServer.java:61-70 | unfolding of Classify: a blank line, or one that does not split into exactly two pieces, ends the headers |
| HttpRequest.AcceptedCount | code/ThreadedServer.java:57-74 | every line before the count is a header, and the line at the count, if there is one, ends the headers |
| HttpRequest.AcceptedCountPasses | code/ThreadedServer.java:57-74 | the loop goes on past a header line it has reached |
| HttpRequest.AcceptedCountAt | code/ThreadedServer.java:57-74 | the loop has read exactly the lines before the first one that ends the headers, or all of them when none does |
| HttpRequest.HeaderMap | code/ThreadedServer.java:73 | definition of the map after one `put` per stored header, in order; its meaning is stated by HeaderMapKeys and HeaderMapLastWins |
| HttpRequest.HeaderMapExtend | code/ThreadedServer.java:73 | storing one more accepted line is one more `put` |
| HttpRequest.HeaderMapKeys | code/ThreadedServer.java:73 | a name is a header key if and only if some stored line has that name |
| HttpRequest.HeaderMapLastWins | code/ThreadedServer.java:73 | a repeated header name keeps the value of its last line |
| HttpRequest.Parsed | code/ThreadedServer.java:39-78 | reference definition of what `parse` reads; its meaning is stated by ParsedWellFormed, ParsedIgnoresLaterInput and ParsedCongruent, and Parse is proved equal to it |
| HttpRequest.AcceptedCountStops | code/ThreadedServer.java:57-70 | lines after the stopping line do not change what is accepted |
| HttpRequest.ParsedCongruent | code/ThreadedServer.java:45-78 | two inputs with the same first line and the same stored header lines give the same request |
| HttpRequest.ParsedIgnoresLaterInput | code/ThreadedServer.java:45-78 | input after the line that stops the header loop does not change the request |
| HttpRequest.ClassifiedBlank | code/ThreadedServer.java:60-62 | unfolding of Classify: a blank line ends the headers |
| HttpRequest.AcceptedBeforeStop | code/ThreadedServer.java:57-74 | every header before the first line that ends the headers is stored, and that line ends them |
| HttpRequest.ParsedRequestLine | code/ThreadedServer.java:50-55 | unfolding of Parsed: a request line of three parts gives the method and the path, and header reading starts on the next line |
| HttpRequest.ParsedWellFormed | code/ThreadedServer.java:39-78 | a well-formed request line, well-formed header lines and a blank line parse to that method, that path and the header map |
| HttpRequest.HeaderLineStored | code/ThreadedServer.java:66-73 | a header line without extra colons is a header with its name and its value, which the loop stores |
| HttpRequest.ColonInValueStops | code/ThreadedServer.java:66-70 | a value with a colon in it, as in `Host: a:8124`, stops the header loop |
| HttpRequest.EmptyValueStops | code/ThreadedServer.java:66-70 | an empty value, as in `Name:`, stops the header loop |
| HttpRequest.HTTPRequest.constructor | code/ThreadedServer.java:11-17 | a new request has null method and path and no headers |
| HttpRequest.HTTPRequest.Parse | code/ThreadedServer.java:39-78 | the request the loop fills in is `Parsed(lines)`: empty when there is no first line or it is not three parts; otherwise the first two parts and the headers up to the stopping line |
| HttpRequest.Banner | code/ThreadedServer.java:24-26 | definition of the method, path and `Headers:` lines, with `null` for an unset field; ToString states that the result begins with it |
| HttpRequest.EntryLine | code/ThreadedServer.java:29 | definition of one header's line; EntryLinesCover and EntryLinesOrderFree state which of them the result holds |
| HttpRequest.OrderingSize | code/ThreadedServer.java:28 | iterating over a map visits as many entries as the map has keys |
| HttpRequest.OrderingMultiset | code/ThreadedServer.java:28 | iterating over a map visits each key exactly once |
| HttpRequest.EntryLinesPermute | code/ThreadedServer.java:28-30 | two orders that are permutations of each other give the same lines as a multiset |
| HttpRequest.EntryLinesCover | code/ThreadedServer.java:28-30 | when the order visits every key, the line of every key is among the lines |
| HttpRequest.EntryLinesOrderFree | code/ThreadedServer.java:28-30 | whatever order the map iterates in, there is one line per header, every key's line is there, and the lines are the same as a multiset |
| HttpRequest.HTTPRequest.ToString | code/ThreadedServer.java:22-33 | the result is the method and path lines (`null` when unset), `Headers:`, then the lines of the headers in some order that visits every key once |

## Left out

- Sockets, the HTTP server objects, `console.log`, threads and the `RequestHandler`/`ThreadedServer` classes are not modelled.
  - The chat handler receives the request's method, parsed pathname, `since` query value and form fields as data.
  - `parse` receives the input as the lines `readLine` would return.
- `url.parse` and `querystring.parse` are not modelled. A repeated query or form field, which those give as an array, is not modelled either.
- The request body's arrival in `data` chunks and the `end` event are not modelled: the parsed form fields are an input of `Handle`.
- ChatRouter.Handle: an absent `author` or `body` is stored as the text `undefined`, which is how it is rendered. The source stores the value `undefined` itself. The two are observable only through rendering, where they agree.
- ChatStore.Store.AddMessage: an out-of-range `chat_id` is a precondition. The source does not check it and fails when it indexes the chats array. A clean "not found" error would be a hardening; the model follows the code.
- JsRuntime.ParseInt: numbers are unbounded integers, so the loss of precision of very long digit runs as floating-point numbers is not modelled. Negative zero is identified with zero; both are falsy, so the cursor does not change.
- JsRuntime.IsJsSpace: the white space `parseInt` skips is the fixed list of ECMAScript white space and line terminators. Other Unicode space separators added by later Unicode versions are not included.
- ChatRouter.HeadersFor: Content-Length is the text's length in characters. The source uses the JavaScript string length, which counts UTF-16 code units, not bytes.
- ChatRouter.FormatListShape: states the beginning of the list body and when it is empty, not the position of every later message in it.
- HttpRequest.HTTPRequest.ToString: the iteration order of Java's `HashMap` is not modelled. The method picks any order, and the properties proved hold for every order.
- The `main` method of the threaded server, the response it writes and the other context files of the repository are not part of this model.
