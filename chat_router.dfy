/**
 * The request handler of the chat server (code/chat-server.js): it matches the
 * request method and path against three fixed routes, takes `chat_id` from
 * the path and the `since` cursor from the query, calls the store and builds
 * plain-text 200 and 404 responses. The parsed URL and the parsed form fields
 * of the request body are inputs.
 */
module ChatRouter {
  import opened Wrappers
  import opened JsRuntime
  import opened ChatStore

  /** The parts of an incoming request that the handler reads. */
  datatype Request = Request(
    httpMethod: string,       // request.method
    pathname: string,         // parsed_url.pathname
    since: Option<string>,    // parsed_url.query.since; None when absent
    author: Option<string>,   // author field of the form-encoded body
    body: Option<string>)     // body field of the form-encoded body

  datatype Headers = Headers(contentType: string, contentLength: nat, connection: string)

  datatype Response = Response(status: nat, headers: Headers, text: string)

  // ---------------------------------------------------------------- routes

  const ChatsPrefix := "/chats/"
  const NewChatPath := "/chats/new"
  const NewMessageSuffix := "/messages/new"
  const MessagesSuffix := "/messages"

  /** The three route patterns. */
  datatype Pattern =
    | NewChatPattern      // ^\/chats\/new$
    | NewMessagePattern   // ^\/chats\/(\d+)\/messages\/new$
    | MessagesPattern     // ^\/chats\/(\d+)\/messages$

  /** What `regex.exec(pathname)` gives: null, or a match and its first group (undefined when there is none). */
  datatype Exec = NoMatch | Matched(group: Option<string>)

  /** `path` is `/chats/`, then the decimal digits `d`, then `suffix`. */
  predicate IsIdPath(path: string, d: string, suffix: string) {
    |d| > 0 && IsDecimalDigits(d) && path == ChatsPrefix + d + suffix
  }

  /** The anchored pattern `^\/chats\/(\d+)<suffix>$`, for a suffix that starts with `/`. */
  function ExecIdPattern(path: string, suffix: string): (r: Exec)
    ensures r.Matched? ==> r.group.Some? && IsIdPath(path, r.group.value, suffix)
  {
    var n := |ChatsPrefix|;
    if |path| > n + |suffix| && path[..n] == ChatsPrefix && path[|path| - |suffix|..] == suffix
       && IsDecimalDigits(path[n..|path| - |suffix|])
    then
      var d := path[n..|path| - |suffix|];
      assert path == path[..n] + d + path[|path| - |suffix|..];
      Matched(Some(d))
    else NoMatch
  }

  /** The pattern matches every path of its shape, and captures the digits. */
  lemma ExecIdPatternComplete(d: string, suffix: string)
    requires |d| > 0 && IsDecimalDigits(d)
    ensures ExecIdPattern(ChatsPrefix + d + suffix, suffix) == Matched(Some(d))
  {
    var path := ChatsPrefix + d + suffix;
    var n := |ChatsPrefix|;
    assert path[..n] == ChatsPrefix;
    assert path[|path| - |suffix|..] == suffix;
    assert path[n..|path| - |suffix|] == d;
  }

  function ExecPattern(p: Pattern, path: string): Exec {
    match p
    case NewChatPattern => if path == NewChatPath then Matched(None) else NoMatch
    case NewMessagePattern => ExecIdPattern(path, NewMessageSuffix)
    case MessagesPattern => ExecIdPattern(path, MessagesSuffix)
  }

  /**
   * `__match(method, regex)`: whether the request has this method and its
   * pathname matches the pattern, together with the value that the match
   * assigns to `chat_id`: `parseInt` of the first group, which is `NaN`
   * (`None`) for the pattern without a group.
   */
  datatype MatchResult = NoRoute | Route(chatId: Option<int>)

  function Match(req: Request, httpMethod: string, p: Pattern): (r: MatchResult)
    ensures r.Route? && p != NewChatPattern ==> r.chatId.Some? && r.chatId.value >= 0
  {
    if httpMethod == req.httpMethod then
      match ExecPattern(p, req.pathname)
      case NoMatch => NoRoute
      case Matched(g) =>
        if g.None? then Route(None)
        else
          ParseIntOfDigits(g.value);
          Route(ParseInt(g.value))
    else NoRoute
  }

  /** What the handler does with a request, in the order its `if` chain tries the routes. */
  datatype Action = CreateChat | CreateMessage(chatId: nat) | ListMessages(chatId: nat) | NotFound

  function Dispatch(req: Request): Action {
    if Match(req, "GET", NewChatPattern).Route? then CreateChat
    else if Match(req, "POST", NewMessagePattern).Route? then
      CreateMessage(Match(req, "POST", NewMessagePattern).chatId.value)
    else if Match(req, "GET", MessagesPattern).Route? then
      ListMessages(Match(req, "GET", MessagesPattern).chatId.value)
    else NotFound
  }

  /** No digit follows `/chats/` in `/chats/new`. */
  lemma NewChatPathHasNoId(d: string, suffix: string)
    ensures !IsIdPath(NewChatPath, d, suffix)
  {
    assert NewChatPath[7] == 'n';
    assert |d| > 0 ==> (ChatsPrefix + d + suffix)[7] == d[0];
  }

  /** The pattern `^\/chats\/(\d+)<suffix>$` matches exactly the paths of its shape. */
  lemma ExecIdPatternExact(path: string, suffix: string)
    ensures ExecIdPattern(path, suffix).Matched? <==> exists d :: IsIdPath(path, d, suffix)
    ensures forall d :: IsIdPath(path, d, suffix) ==> ExecIdPattern(path, suffix) == Matched(Some(d))
  {
    forall d | IsIdPath(path, d, suffix)
      ensures ExecIdPattern(path, suffix) == Matched(Some(d))
    {
      ExecIdPatternComplete(d, suffix);
    }
    var e := ExecIdPattern(path, suffix);
    if e.Matched? {
      assert IsIdPath(path, e.group.value, suffix);
    }
  }

  /** A match of a pattern with a group sets `chat_id` to the decimal value of the digits. */
  lemma MatchChatId(req: Request, httpMethod: string, p: Pattern, d: string)
    requires p != NewChatPattern && httpMethod == req.httpMethod
    requires ExecPattern(p, req.pathname) == Matched(Some(d))
    requires |d| > 0 && IsDecimalDigits(d)
    ensures IsRadixDigits(d, 10) && Match(req, httpMethod, p) == Route(Some(RadixValue(d, 10)))
  {
    ParseIntOfDigits(d);
  }

  /**
   * A pattern with a `(\d+)` group matches exactly the paths of its shape, and
   * sets `chat_id` to the decimal value of the digits in the path.
   */
  lemma MatchIdPattern(req: Request, httpMethod: string, p: Pattern, suffix: string)
    requires (p == NewMessagePattern && suffix == NewMessageSuffix) || (p == MessagesPattern && suffix == MessagesSuffix)
    ensures Match(req, httpMethod, p).Route? <==>
      httpMethod == req.httpMethod && exists d :: IsIdPath(req.pathname, d, suffix)
    ensures forall d :: IsIdPath(req.pathname, d, suffix) && httpMethod == req.httpMethod ==>
      IsRadixDigits(d, 10) && Match(req, httpMethod, p) == Route(Some(RadixValue(d, 10)))
  {
    ExecIdPatternExact(req.pathname, suffix);
    assert ExecPattern(p, req.pathname) == ExecIdPattern(req.pathname, suffix);
    forall d | IsIdPath(req.pathname, d, suffix) && httpMethod == req.httpMethod
      ensures IsRadixDigits(d, 10) && Match(req, httpMethod, p) == Route(Some(RadixValue(d, 10)))
    {
      MatchChatId(req, httpMethod, p, d);
    }
  }

  /**
   * A route is taken exactly when the method is equal and the whole pathname
   * has the route's shape, and `chat_id` is the decimal value of the digits
   * in the path; everything else is not found.
   */
  lemma DispatchRoutes(req: Request)
    ensures Dispatch(req) == CreateChat <==> req.httpMethod == "GET" && req.pathname == NewChatPath
    ensures Dispatch(req).CreateMessage? <==>
      req.httpMethod == "POST" && exists d :: IsIdPath(req.pathname, d, NewMessageSuffix)
    ensures Dispatch(req).ListMessages? <==>
      req.httpMethod == "GET" && exists d :: IsIdPath(req.pathname, d, MessagesSuffix)
    ensures forall d :: IsIdPath(req.pathname, d, NewMessageSuffix) && Dispatch(req).CreateMessage? ==>
      IsRadixDigits(d, 10) && Dispatch(req).chatId == RadixValue(d, 10)
    ensures forall d :: IsIdPath(req.pathname, d, MessagesSuffix) && Dispatch(req).ListMessages? ==>
      IsRadixDigits(d, 10) && Dispatch(req).chatId == RadixValue(d, 10)
  {
    MatchIdPattern(req, "POST", NewMessagePattern, NewMessageSuffix);
    MatchIdPattern(req, "GET", MessagesPattern, MessagesSuffix);
    forall d ensures !IsIdPath(NewChatPath, d, MessagesSuffix) {
      NewChatPathHasNoId(d, MessagesSuffix);
    }
  }

  /** The path built from a chat id routes back to that chat id. */
  lemma DispatchChatPaths(chatId: nat, req: Request)
    ensures req.httpMethod == "POST" && req.pathname == ChatsPrefix + NumberToString(chatId) + NewMessageSuffix
      ==> Dispatch(req) == CreateMessage(chatId)
    ensures req.httpMethod == "GET" && req.pathname == ChatsPrefix + NumberToString(chatId) + MessagesSuffix
      ==> Dispatch(req) == ListMessages(chatId)
  {
    var d := NumberToString(chatId);
    NumberToStringRoundTrip(chatId);
    DispatchRoutes(req);
    if req.pathname == ChatsPrefix + d + NewMessageSuffix || req.pathname == ChatsPrefix + d + MessagesSuffix {
      assert IsIdPath(req.pathname, d, NewMessageSuffix) || IsIdPath(req.pathname, d, MessagesSuffix);
    }
  }

  // ---------------------------------------------------------------- the cursor

  /**
   * `parseInt(parsed_url.query.since) || -1`: a missing or non-numeric value
   * is `NaN`, which like 0 is falsy, so both become -1.
   */
  function Cursor(since: Option<string>): (c: int)
    ensures c != 0
    ensures since.None? ==> c == -1
  {
    var p := if since.None? then None else ParseInt(since.value);
    if p.None? || p.value == 0 then -1 else p.value
  }

  /** `since=n` gives the cursor `n`, except that `since=0` gives -1. */
  lemma CursorOfNumber(n: nat)
    ensures Cursor(Some(NumberToString(n))) == if n == 0 then -1 else n
  {
    ParseIntOfNumberToString(n);
  }

  /** `since=-n` gives the cursor `-n`, except that `since=-0` gives -1. */
  lemma CursorOfNegative(n: nat)
    ensures Cursor(Some("-" + NumberToString(n))) == if n == 0 then -1 else -(n as int)
  {
    ParseIntOfNegativeNumber(n);
  }

  /** A `since` with no digit, such as `abc` or the empty value, gives -1, as no cursor does. */
  lemma CursorOfNonNumeric(s: string)
    requires var u := StripSign(SkipJsSpace(s)); |u| == 0 || !('0' <= u[0] <= '9')
    ensures Cursor(Some(s)) == -1
  {
    ParseIntOfNonNumeric(s);
  }

  /** `since=abc` and an empty `since` list every message. */
  lemma CursorOfText()
    ensures Cursor(Some("abc")) == -1 && Cursor(Some("")) == -1
  {
    assert !IsJsSpace('a');
    assert SkipJsSpace("abc") == "abc" && StripSign("abc") == "abc";
    CursorOfNonNumeric("abc");
    CursorOfNonNumeric("");
  }

  /** `since=0` lists every message of the chat, as no cursor does. */
  lemma SinceZeroListsAll(log: seq<Message>)
    requires DenseIds(log)
    ensures MessagesAfter(log, Cursor(Some("0"))) == MessagesAfter(log, Cursor(None))
    ensures forall m :: m in MessagesAfter(log, Cursor(Some("0"))) <==> m in log
  {
    CursorOfNumber(0);
    assert NumberToString(0) == "0";
    MessagesAfterCursor(log, -1);
  }

  // ---------------------------------------------------------------- rendering

  /** `'[' + m.id + '] ' + m.author + ': ' + m.body` */
  function FormatMessage(m: Message): string {
    "[" + NumberToString(m.id) + "] " + m.author + ": " + m.body
  }

  /** The message list body: the rendered messages, in order, joined by a blank line. */
  function FormatList(msgs: seq<Message>): string {
    Join(seq(|msgs|, i requires 0 <= i < |msgs| => FormatMessage(msgs[i])), "\n\n")
  }

  /** The first index at or after `from` that holds `c`, or `|s|`. */
  function IndexOf(s: string, c: char, from: nat): (i: nat)
    requires from <= |s|
    ensures from <= i <= |s|
    ensures i < |s| ==> s[i] == c
    ensures forall j :: from <= j < i ==> s[j] != c
    decreases |s| - from
  {
    if from == |s| || s[from] == c then from else IndexOf(s, c, from + 1)
  }

  /**
   * Reads one rendered message back: `[`, the id up to the first `]`, a space,
   * the author up to the first colon, `: ` and the rest as the body.
   */
  function ReadMessage(line: string): Option<Message> {
    if |line| == 0 || line[0] != '[' then None
    else
      var close := IndexOf(line, ']', 1);
      var digits := line[1..close];
      if close + 1 >= |line| || line[close + 1] != ' ' || !IsRadixDigits(digits, 10) then None
      else
        var colon := IndexOf(line, ':', close + 2);
        if colon + 1 >= |line| || line[colon + 1] != ' ' then None
        else Some(Message(RadixValue(digits, 10), line[close + 2..colon], line[colon + 2..]))
  }

  /** Where the parts of a rendered message sit. */
  lemma FormatMessageLayout(m: Message)
    ensures var d := NumberToString(m.id);
      var line := FormatMessage(m);
      var close := 1 + |d|;
      var colon := close + 2 + |m.author|;
      && |line| == colon + 2 + |m.body|
      && line[0] == '[' && line[1..close] == d && line[close] == ']' && line[close + 1] == ' '
      && line[close + 2..colon] == m.author && line[colon] == ':' && line[colon + 1] == ' '
      && line[colon + 2..] == m.body
  {
    var d := NumberToString(m.id);
    var line := FormatMessage(m);
    assert line == "[" + d + "] " + m.author + ": " + m.body;
  }

  /** `IndexOf` finds the first occurrence. */
  lemma IndexOfFirst(s: string, c: char, from: nat, i: nat)
    requires from <= i < |s| && s[i] == c
    requires forall j :: from <= j < i ==> s[j] != c
    ensures IndexOf(s, c, from) == i
  {
  }

  /** The first `]` of a rendered message closes its id. */
  lemma FormatMessageIdEnd(m: Message)
    ensures 1 + |NumberToString(m.id)| <= |FormatMessage(m)|
    ensures IndexOf(FormatMessage(m), ']', 1) == 1 + |NumberToString(m.id)|
  {
    var line := FormatMessage(m);
    var close := 1 + |NumberToString(m.id)|;
    FormatMessageLayout(m);
    assert forall j :: 1 <= j < close ==> line[j] == line[1..close][j - 1];
    IndexOfFirst(line, ']', 1, close);
  }

  /** The first colon after the id of a rendered message ends its author, when the author has none. */
  lemma FormatMessageAuthorEnd(m: Message)
    requires forall i :: 0 <= i < |m.author| ==> m.author[i] != ':'
    ensures 3 + |NumberToString(m.id)| <= |FormatMessage(m)|
    ensures IndexOf(FormatMessage(m), ':', 3 + |NumberToString(m.id)|) == 3 + |NumberToString(m.id)| + |m.author|
  {
    var line := FormatMessage(m);
    var start := 3 + |NumberToString(m.id)|;
    var colon := start + |m.author|;
    FormatMessageLayout(m);
    assert forall j :: start <= j < colon ==> line[j] == line[start..colon][j - start];
    IndexOfFirst(line, ':', start, colon);
  }

  /** A rendered message reads back as itself when its author has no colon. */
  lemma FormatMessageReadsBack(m: Message)
    requires forall i :: 0 <= i < |m.author| ==> m.author[i] != ':'
    ensures ReadMessage(FormatMessage(m)) == Some(m)
  {
    FormatMessageLayout(m);
    FormatMessageIdEnd(m);
    FormatMessageAuthorEnd(m);
    NumberToStringRoundTrip(m.id);
  }

  /** The list body is empty exactly when there is no message, and begins with the first one. */
  lemma FormatListShape(msgs: seq<Message>)
    ensures FormatList(msgs) == "" <==> msgs == []
    ensures |msgs| > 0 ==>
      (|FormatMessage(msgs[0])| <= |FormatList(msgs)|
       && FormatList(msgs)[..|FormatMessage(msgs[0])|] == FormatMessage(msgs[0]))
  {
    if |msgs| > 0 {
      var lines := seq(|msgs|, i requires 0 <= i < |msgs| => FormatMessage(msgs[i]));
      assert lines[0] == FormatMessage(msgs[0]);
      assert |FormatMessage(msgs[0])| > 0;
    }
  }

  // ---------------------------------------------------------------- responses

  /** `__headers(text)`: Content-Length is the length of the text in characters. */
  function HeadersFor(text: string): Headers {
    Headers("text/plain", |text|, "close")
  }

  /** What every response of the handler satisfies. */
  predicate WellFormed(r: Response) {
    r.headers == Headers("text/plain", |r.text|, "close")
    && |r.text| > 0 && r.text[|r.text| - 1] == '\n'
  }

  /** `__respond_200(text)`: status 200, the text and one newline. */
  function Respond200(text: string): (r: Response)
    ensures r.status == 200 && WellFormed(r)
    ensures |r.text| == |text| + 1 && r.text[..|text|] == text
  {
    var t := text + "\n";
    Response(200, HeadersFor(t), t)
  }

  /** `__respond_404(path)`: status 404 and a one-line message naming the path. */
  function Respond404(path: string): (r: Response)
    ensures r.status == 404 && WellFormed(r)
  {
    var t := "The requested URL " + path + " was not found\n";
    Response(404, HeadersFor(t), t)
  }

  /** JavaScript's rendering of a form field in string concatenation: absent is `undefined`. */
  function FieldText(f: Option<string>): string {
    if f.None? then "undefined" else f.value
  }

  /** The handler's calls into the store need a chat id in range (the source does not check). */
  predicate ChatIdInRange(a: Action, chatCount: nat) {
    (a.CreateMessage? || a.ListMessages?) ==> a.chatId < chatCount
  }

  /**
   * The request handler: dispatch, call the store, respond. The body of a new
   * message arrives in chunks in the source; here its form fields are given.
   */
  method Handle(store: Store, req: Request) returns (resp: Response)
    requires store.Valid()
    requires ChatIdInRange(Dispatch(req), |store.chats|)
    modifies store
    ensures store.Valid() && WellFormed(resp)
    ensures Dispatch(req) == CreateChat ==>
      && store.chats == old(store.chats) + [[]]
      && resp == Respond200(NumberToString(|old(store.chats)|))
    ensures Dispatch(req).CreateMessage? ==>
      var c := Dispatch(req).chatId;
      var id := |old(store.chats[c])|;
      && store.chats == old(store.chats)[c := old(store.chats[c]) + [Message(id, FieldText(req.author), FieldText(req.body))]]
      && resp == Respond200(NumberToString(id))
    ensures Dispatch(req).ListMessages? ==>
      && store.chats == old(store.chats)
      && resp == Respond200(FormatList(MessagesAfter(store.chats[Dispatch(req).chatId], Cursor(req.since))))
    ensures Dispatch(req) == NotFound ==>
      store.chats == old(store.chats) && resp == Respond404(req.pathname)
  {
    match Dispatch(req)
    case CreateChat =>
      var chatId := store.Chat();
      resp := Respond200(NumberToString(chatId));
    case CreateMessage(chatId) =>
      var messageId := store.AddMessage(chatId, FieldText(req.author), FieldText(req.body));
      resp := Respond200(NumberToString(messageId));
    case ListMessages(chatId) =>
      var since := Cursor(req.since);
      var msgs := store.Messages(chatId, since);
      resp := Respond200(FormatList(msgs));
    case NotFound =>
      resp := Respond404(req.pathname);
  }
}
