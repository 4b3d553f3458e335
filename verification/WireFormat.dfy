/** The lines on the wire, letter by letter: what hw4/src/kvmessage.c sends for each message, and what it makes of
    each line it receives. */
module WireFormat {
  import opened KvConstants
  import opened CText
  import opened CStrings
  import opened Url
  import opened Http
  import opened HttpResponse
  import opened KvMessage

  // ---------- requests sent ----------

  lemma UrlWith(path: Option<string>, p: string, k: CStr, v: CStr)
    requires p == if path.Some? then path.value else ""
    ensures Encoded(Params(path, None, None)) == "/" + p
    ensures Encoded(Params(path, Some(k), None)) == "/" + p + "?key=" + k
    ensures Encoded(Params(path, Some(k), Some(v))) == "/" + p + "?key=" + k + "&val=" + v
  {
    EncodedForm(Params(path, None, None));
    EncodedForm(Params(path, Some(k), None));
    EncodedForm(Params(path, Some(k), Some(v)));
    QueryParts("/" + p, k, v);
  }

  lemma QueryParts(head: string, k: string, v: string)
    ensures head + "?" + ("key=" + k) == head + "?key=" + k
    ensures head + "?" + (FieldText("key", Some(k)) + ("val=" + v)) == head + "?key=" + k + "&val=" + v
  {
    assert "?" + "key=" == "?key=" && "key" + "=" == "key=" && "&" + "val=" == "&val=";
  }

  /** The lines for a method and a path, which make `line` together, and `keyed` with the start of a query. */
  lemma LinesWith(verb: string, path: Option<string>, p: string, k: CStr, v: CStr, line: string, keyed: string)
    requires p == (if path.Some? then path.value else "") && line == verb + " /" + p && keyed == line + "?key="
    ensures RequestText(verb, Encoded(Params(path, None, None))) == line + " HTTP/1.1\r\n\r\n"
    ensures RequestText(verb, Encoded(Params(path, Some(k), None))) == keyed + k + " HTTP/1.1\r\n\r\n"
    ensures RequestText(verb, Encoded(Params(path, Some(k), Some(v)))) == keyed + k + "&val=" + v + " HTTP/1.1\r\n\r\n"
  {
    UrlWith(path, p, k, v);
    LineFrom(verb, p, "", line);
    LineFrom(verb, p, "?key=" + k, line);
    LineFrom(verb, p, "?key=" + k + "&val=" + v, line);
    QueryFrom(line, k, v);
    QueryFrom("/" + p, k, v);
  }

  lemma LineFrom(verb: string, p: string, query: string, line: string)
    requires line == verb + " /" + p
    ensures RequestText(verb, "/" + p + query) == line + query + " HTTP/1.1\r\n\r\n"
  {
    assert " " + "/" == " /";
    assert verb + " " + ("/" + p + query) == verb + (" " + "/") + p + query;
  }

  lemma QueryFrom(line: string, k: string, v: string)
    ensures line + "" == line
    ensures line + ("?key=" + k) == line + "?key=" + k
    ensures line + ("?key=" + k + "&val=" + v) == line + "?key=" + k + "&val=" + v
  {
  }

  /** The text of each request of a client or of a follower that registers. */
  lemma RequestLines(k: CStr, v: CStr)
    ensures SentText(Request(GetReq, Some(k), None)) == Some("GET /?key=" + k + " HTTP/1.1\r\n\r\n")
    ensures SentText(Request(PutReq, Some(k), Some(v))) == Some("PUT /?key=" + k + "&val=" + v + " HTTP/1.1\r\n\r\n")
    ensures SentText(Request(DelReq, Some(k), None)) == Some("DELETE /?key=" + k + " HTTP/1.1\r\n\r\n")
    ensures SentText(Request(Register, Some(k), Some(v))) == Some("POST /register?key=" + k + "&val=" + v + " HTTP/1.1\r\n\r\n")
  {
    LinesWith("GET", None, "", k, v, "GET /", "GET /?key=");
    LinesWith("PUT", None, "", k, v, "PUT /", "PUT /?key=");
    LinesWith("DELETE", None, "", k, v, "DELETE /", "DELETE /?key=");
    LinesWith("POST", Some("register"), "register", k, v, "POST /register", "POST /register?key=");
  }

  /** The text of the leader's decisions, which carry what the transaction's request did. */
  lemma DecisionLines(k: CStr, v: CStr)
    ensures SentText(Request(Commit, None, None)) == Some("POST /commit" + " HTTP/1.1\r\n\r\n")
    ensures SentText(Request(Commit, Some(k), None)) == Some("POST /commit?key=" + k + " HTTP/1.1\r\n\r\n")
    ensures SentText(Request(Commit, Some(k), Some(v))) == Some("POST /commit?key=" + k + "&val=" + v + " HTTP/1.1\r\n\r\n")
    ensures SentText(Request(Abort, None, None)) == Some("POST /abort" + " HTTP/1.1\r\n\r\n")
    ensures SentText(Request(Abort, Some(k), None)) == Some("POST /abort?key=" + k + " HTTP/1.1\r\n\r\n")
    ensures SentText(Request(Abort, Some(k), Some(v))) == Some("POST /abort?key=" + k + "&val=" + v + " HTTP/1.1\r\n\r\n")
  {
    LinesWith("POST", Some("commit"), "commit", k, v, "POST /commit", "POST /commit?key=");
    LinesWith("POST", Some("abort"), "abort", k, v, "POST /abort", "POST /abort?key=");
  }

  /** No other kind of message is sent as a request. */
  lemma NoOtherLines(req: Request)
    requires req.kind !in {GetReq, PutReq, DelReq, Register, Commit, Abort}
    ensures SentText(req) == None
  {
  }

  // ---------- requests received ----------

  /** Nothing in the parameters ends the line. */
  predicate InLine(p: Params) {
    && Representable(p)
    && Without(' ', p.path) && Without(' ', p.key) && Without(' ', p.val)
    && Without('\n', p.path) && Without('\n', p.key) && Without('\n', p.val)
    && Without('\0', p.path) && Without('\0', p.key) && Without('\0', p.val)
  }

  /** What the server makes of a method and of what the URL says. */
  function Understanding(verb: string, p: Params): Option<Request> {
    if KindOf(verb, p) == Empty then None else Some(Request(KindOf(verb, p), AsText(p.key), AsText(p.val)))
  }

  /** What a receiver makes of a line that an encoder could have written, whatever its method. */
  lemma LineMeans(verb: string, p: Params, r: Option<Request>)
    requires ValidMethod(verb) && InLine(p) && |RequestText(verb, Encoded(p))| <= 8192
    ensures Means(RequestText(verb, Encoded(p)), r) <==> r == Understanding(verb, p)
  {
    var url := Encoded(p);
    UrlRoundTrip(p);
    UrlStarts(p);
    EncodedWithout(p, ' ');
    EncodedWithout(p, '\n');
    EncodedWithout(p, '\0');
    SentLine(verb, url);
    VerbNulFree(verb);
    TextNulFree(verb, url);
    ReceivedWhole(RequestText(verb, url));
    WholeText(url, 0);
    OnlyLine(RequestText(verb, url), HttpRequest(verb, url));
  }

  lemma VerbNulFree(verb: string)
    requires ValidMethod(verb)
    ensures NulFree(verb)
  {
    assert NulFree("GET") && NulFree("PUT") && NulFree("DELETE") && NulFree("POST");
  }

  /** Text of a parameter that fits a line with others. */
  predicate Fits(s: CStr) { Plain(Some(s)) && |s| <= 2000 }

  lemma LinesMean(verb: string, path: Option<CStr>, p: string, k: CStr, v: CStr, line: string, keyed: string, r: Option<Request>,
                  r0: Option<Request>, r1: Option<Request>, r2: Option<Request>)
    requires p == (if path.Some? then path.value else "") && line == verb + " /" + p && keyed == line + "?key="
    requires ValidMethod(verb) && path != Some("") && '?' !in p && Plain(path) && |p| <= 2000 && Fits(k) && Fits(v)
    requires Understanding(verb, Params(path, None, None)) == r0
    requires Understanding(verb, Params(path, Some(k), None)) == r1
    requires Understanding(verb, Params(path, Some(k), Some(v))) == r2
    ensures Means(line + " HTTP/1.1\r\n\r\n", r) <==> r == r0
    ensures Means(keyed + k + " HTTP/1.1\r\n\r\n", r) <==> r == r1
    ensures Means(keyed + k + "&val=" + v + " HTTP/1.1\r\n\r\n", r) <==> r == r2
  {
    LinesWith(verb, path, p, k, v, line, keyed);
    LineMeans(verb, Params(path, None, None), r);
    LineMeans(verb, Params(path, Some(k), None), r);
    LineMeans(verb, Params(path, Some(k), Some(v)), r);
  }

  lemma PostUnderstood(path: string, k: CStr, v: CStr)
    ensures path == "register" ==>
      && Understanding("POST", Params(Some(path), None, None)) == None
      && Understanding("POST", Params(Some(path), Some(k), None)) == None
      && Understanding("POST", Params(Some(path), Some(k), Some(v))) == Some(Request(Register, Some(k), Some(v)))
    ensures path == "commit" ==>
      && Understanding("POST", Params(Some(path), None, None)) == Some(Request(Commit, None, None))
      && Understanding("POST", Params(Some(path), Some(k), None)) == Some(Request(Commit, Some(k), None))
      && Understanding("POST", Params(Some(path), Some(k), Some(v))) == Some(Request(Commit, Some(k), Some(v)))
    ensures path == "abort" ==>
      && Understanding("POST", Params(Some(path), None, None)) == Some(Request(Abort, None, None))
      && Understanding("POST", Params(Some(path), Some(k), None)) == Some(Request(Abort, Some(k), None))
      && Understanding("POST", Params(Some(path), Some(k), Some(v))) == Some(Request(Abort, Some(k), Some(v)))
    ensures path !in {"register", "commit", "abort"} ==>
      && Understanding("POST", Params(Some(path), None, None)) == None
      && Understanding("POST", Params(Some(path), Some(k), None)) == None
      && Understanding("POST", Params(Some(path), Some(k), Some(v))) == None
  {
    AsTextWhole(Some(k));
    AsTextWhole(Some(v));
  }

  /** GET: the index without a key, otherwise a request for its value. */
  lemma GetLines(k: CStr, r: Option<Request>)
    requires Fits(k)
    ensures Means("GET /" + " HTTP/1.1\r\n\r\n", r) <==> r == Some(Request(Index, None, None))
    ensures Means("GET /?key=" + k + " HTTP/1.1\r\n\r\n", r) <==> r == Some(Request(GetReq, Some(k), None))
  {
    AsTextWhole(Some(k));
    LinesMean("GET", None, "", k, k, "GET /", "GET /?key=", r,
      Some(Request(Index, None, None)), Some(Request(GetReq, Some(k), None)), Some(Request(GetReq, Some(k), Some(k))));
  }

  /** PUT, which is refused without a key or a value. */
  lemma PutLines(k: CStr, v: CStr, r: Option<Request>)
    requires Fits(k) && Fits(v)
    ensures Means("PUT /" + " HTTP/1.1\r\n\r\n", r) <==> r == None
    ensures Means("PUT /?key=" + k + " HTTP/1.1\r\n\r\n", r) <==> r == None
    ensures Means("PUT /?key=" + k + "&val=" + v + " HTTP/1.1\r\n\r\n", r) <==> r == Some(Request(PutReq, Some(k), Some(v)))
  {
    AsTextWhole(Some(k));
    AsTextWhole(Some(v));
    LinesMean("PUT", None, "", k, v, "PUT /", "PUT /?key=", r, None, None, Some(Request(PutReq, Some(k), Some(v))));
  }

  /** DELETE, which is refused without a key. */
  lemma DeleteLines(k: CStr, r: Option<Request>)
    requires Fits(k)
    ensures Means("DELETE /" + " HTTP/1.1\r\n\r\n", r) <==> r == None
    ensures Means("DELETE /?key=" + k + " HTTP/1.1\r\n\r\n", r) <==> r == Some(Request(DelReq, Some(k), None))
  {
    AsTextWhole(Some(k));
    LinesMean("DELETE", None, "", k, k, "DELETE /", "DELETE /?key=", r,
      None, Some(Request(DelReq, Some(k), None)), Some(Request(DelReq, Some(k), Some(k))));
  }

  /** A registration, which is refused without a host or a port. */
  lemma RegisterLines(k: CStr, v: CStr, r: Option<Request>)
    requires Fits(k) && Fits(v)
    ensures Means("POST /register" + " HTTP/1.1\r\n\r\n", r) <==> r == None
    ensures Means("POST /register?key=" + k + " HTTP/1.1\r\n\r\n", r) <==> r == None
    ensures Means("POST /register?key=" + k + "&val=" + v + " HTTP/1.1\r\n\r\n", r) <==> r == Some(Request(Register, Some(k), Some(v)))
  {
    PostUnderstood("register", k, v);
    LinesMean("POST", Some("register"), "register", k, v, "POST /register", "POST /register?key=", r,
      None, None, Some(Request(Register, Some(k), Some(v))));
  }

  /** The leader's decisions. */
  lemma CommitLines(k: CStr, v: CStr, r: Option<Request>)
    requires Fits(k) && Fits(v)
    ensures Means("POST /commit" + " HTTP/1.1\r\n\r\n", r) <==> r == Some(Request(Commit, None, None))
    ensures Means("POST /commit?key=" + k + " HTTP/1.1\r\n\r\n", r) <==> r == Some(Request(Commit, Some(k), None))
    ensures Means("POST /commit?key=" + k + "&val=" + v + " HTTP/1.1\r\n\r\n", r) <==> r == Some(Request(Commit, Some(k), Some(v)))
  {
    PostUnderstood("commit", k, v);
    LinesMean("POST", Some("commit"), "commit", k, v, "POST /commit", "POST /commit?key=", r,
      Some(Request(Commit, None, None)), Some(Request(Commit, Some(k), None)), Some(Request(Commit, Some(k), Some(v))));
  }

  lemma AbortLines(k: CStr, v: CStr, r: Option<Request>)
    requires Fits(k) && Fits(v)
    ensures Means("POST /abort" + " HTTP/1.1\r\n\r\n", r) <==> r == Some(Request(Abort, None, None))
    ensures Means("POST /abort?key=" + k + " HTTP/1.1\r\n\r\n", r) <==> r == Some(Request(Abort, Some(k), None))
    ensures Means("POST /abort?key=" + k + "&val=" + v + " HTTP/1.1\r\n\r\n", r) <==> r == Some(Request(Abort, Some(k), Some(v)))
  {
    PostUnderstood("abort", k, v);
    LinesMean("POST", Some("abort"), "abort", k, v, "POST /abort", "POST /abort?key=", r,
      Some(Request(Abort, None, None)), Some(Request(Abort, Some(k), None)), Some(Request(Abort, Some(k), Some(v))));
  }

  /** A POST to any other path is refused. */
  lemma OtherPosts(path: CStr, r: Option<Request>)
    requires Fits(path) && '?' !in path && path != "" && path !in {"register", "commit", "abort"}
    ensures Means("POST /" + path + " HTTP/1.1\r\n\r\n", r) <==> r == None
  {
    PostUnderstood(path, "", "");
    LinesMean("POST", Some(path), path, "", "", "POST /" + path, "POST /" + path + "?key=", r, None, None, None);
  }

  // ---------- responses ----------

  /** The status line for a kind of response. */
  predicate StatusLineFor(kind: MsgType, line: string) {
    match kind
    case GetResp => line == "HTTP/1.1 200 OK"
    case Success => line == "HTTP/1.1 201 Created"
    case Vote => line == "HTTP/1.1 202 Accepted"
    case Ack => line == "HTTP/1.1 204 No Content"
    case Error => line == "HTTP/1.1 500 Internal Server Error"
    case _ => false
  }

  /** The text of each kind of response. */
  lemma ResponseLines(kind: MsgType, line: string, body: CStr)
    requires StatusLineFor(kind, line)
    ensures SentResponse(WireResponse(kind, Some(body))) ==
      Some(line + "\r\n" + "Content-Length: " + Decimal(|body|) + "\r\n\r\n" + body)
  {
    var code := CodeFor(kind).value;
    var number, text := Decimal(code), StatusText(code).value;
    CodeDigits(code, number);
    LineParts(kind, number, text, line);
    AssembledWith(number, text, Decimal(|body|), body, line);
  }

  lemma CodeDigits(code: nat, number: string)
    requires number == Decimal(code)
    ensures code == 200 ==> number == "200"
    ensures code == 201 ==> number == "201"
    ensures code == 202 ==> number == "202"
    ensures code == 204 ==> number == "204"
    ensures code == 500 ==> number == "500"
  {
    if code in {200, 201, 202, 204, 500} {
      assert number == Decimal(code / 10) + [('0' as nat + code % 10) as char];
      assert Decimal(code / 10) == Decimal(code / 100) + [('0' as nat + code / 10 % 10) as char];
    }
  }

  lemma LineParts(kind: MsgType, number: string, text: string, line: string)
    requires StatusLineFor(kind, line) && StatusText(CodeFor(kind).value) == Some(text)
    requires number == match kind case GetResp => "200" case Success => "201" case Vote => "202" case Ack => "204" case _ => "500"
    ensures line == "HTTP/1.1 " + number + " " + text
  {
    match kind {
      case GetResp => OkParts();
      case Success => CreatedParts();
      case Vote => AcceptedParts();
      case Ack => NoContentParts();
      case Error => ErrorParts();
    }
  }

  lemma OkParts()
    ensures "HTTP/1.1 200 OK" == "HTTP/1.1 " + "200" + " " + "OK"
  {
  }

  lemma CreatedParts()
    ensures "HTTP/1.1 201 Created" == "HTTP/1.1 " + "201" + " " + "Created"
  {
  }

  lemma AcceptedParts()
    ensures "HTTP/1.1 202 Accepted" == "HTTP/1.1 " + "202" + " " + "Accepted"
  {
  }

  lemma NoContentParts()
    ensures "HTTP/1.1 204 No Content" == "HTTP/1.1 " + "204" + " " + "No Content"
  {
  }

  lemma ErrorParts()
    ensures "HTTP/1.1 500 Internal Server Error" == "HTTP/1.1 " + "500" + " " + "Internal Server Error"
  {
  }

  lemma AssembledWith(number: string, text: string, length: string, body: string, line: string)
    requires line == "HTTP/1.1 " + number + " " + text
    ensures Assembled(StatusLine(number, text), LengthLine("Content-Length", length), body)
      == line + "\r\n" + "Content-Length: " + length + "\r\n\r\n" + body
  {
    assert "HTTP/1.1" + " " == "HTTP/1.1 " && "Content-Length" + ": " == "Content-Length: ";
    BodyBehind(line, "Content-Length: " + length, body);
  }

  lemma BodyBehind(line: string, header: string, body: string)
    ensures Assembled(line, header, body) == line + "\r\n" + header + "\r\n\r\n" + body
  {
  }

  /** A response without a body, such as every acknowledgement. */
  lemma AckLine()
    ensures SentResponse(WireResponse(Ack, None)) == Some("HTTP/1.1 204 No Content" + "\r\n" + "Content-Length: 0" + "\r\n\r\n")
  {
    ResponseLines(Ack, "HTTP/1.1 204 No Content", "");
    var n := 0;
    assert Decimal(n) == "0" && "Content-Length: " + "0" == "Content-Length: 0";
    EndOfHeaders("HTTP/1.1 204 No Content" + "\r\n", "Content-Length: ", "0");
  }

  lemma EndOfHeaders(line: string, name: string, length: string)
    ensures line + name + length + "\r\n\r\n" + "" == line + (name + length) + "\r\n\r\n"
  {
  }

  /** No other kind of message is sent as a response. */
  lemma NoOtherResponses(res: WireResponse)
    requires res.kind !in {GetResp, Success, Vote, Ack, Error}
    ensures SentResponse(res) == None
  {
  }
}
