/** Requests and responses on the wire (hw4/src/kvmessage.c). */
module KvMessage {
  import opened KvConstants
  import opened CText
  import opened CStrings
  import opened Url
  import opened Http
  import opened HttpResponse

  // ---------- building messages ----------

  /** http_outbound: a message under construction. */
  class Outbound {
    var body: string

    constructor (text: string)
      ensures body == text
    {
      body := text;
    }

    /** http_add_header. */
    method AddHeader(key: string, value: string)
      requires |body| + |key| + |value| + 4 <= MESSAGE_MAX
      modifies this
      ensures body == old(body) + key + ": " + value + "\r\n"
    {
      body := body + key + ": " + value + "\r\n";
    }

    /** http_end_headers. */
    method EndHeaders()
      requires |body| + 2 <= MESSAGE_MAX
      modifies this
      ensures body == old(body) + "\r\n"
    {
      body := body + "\r\n";
    }

    /** http_add_string. */
    method AddString(data: Option<CStr>)
      requires data.Some? ==> |body| + |data.value| <= MESSAGE_MAX
      modifies this
      ensures body == old(body) + if data.Some? then data.value else ""
    {
      if data.Some? { body := body + data.value; }
    }
  }

  /** What a peer reads from the socket: at most a message, up to the first NUL. */
  function Received(sent: string): CStr {
    TextAt(if |sent| <= MESSAGE_MAX then sent else sent[..MESSAGE_MAX], 0)
  }

  lemma ReceivedWhole(sent: string)
    requires NulFree(sent) && |sent| <= MESSAGE_MAX
    ensures Received(sent) == sent
  {
    WholeText(sent, 0);
  }

  lemma {:induction false} WholeText(s: string, i: nat)
    requires NulFree(s) && i <= |s|
    ensures TextAt(s, i) == s[i..]
    decreases |s| - i
  {
    if i < |s| {
      WholeText(s, i + 1);
    }
  }

  // ---------- requests ----------

  function MethodFor(kind: MsgType): Option<string> {
    match kind
    case GetReq => Some("GET")
    case PutReq => Some("PUT")
    case DelReq => Some("DELETE")
    case Register => Some("POST")
    case Commit => Some("POST")
    case Abort => Some("POST")
    case _ => None
  }

  function PathFor(kind: MsgType): Option<string> {
    match kind
    case Register => Some("register")
    case Commit => Some("commit")
    case Abort => Some("abort")
    case _ => None
  }

  function ParamsFor(req: Request): Params {
    Params(PathFor(req.kind), req.key, req.val)
  }

  function RequestText(verb: string, url: string): string {
    verb + " " + url + " HTTP/1.1\r\n\r\n"
  }

  /** The text of a request, if its kind has a method. */
  function SentText(req: Request): Option<string> {
    var verb := MethodFor(req.kind);
    if verb.None? then None else Some(RequestText(verb.value, Encoded(ParamsFor(req))))
  }

  /** kvrequest_send: the bytes sent, or nothing for a kind that has no method. */
  method KvRequestSend(req: Request) returns (sent: Option<string>)
    requires |Printed(ParamsFor(req))| < URL_BUFFER
    ensures sent == SentText(req)
  {
    var verb := MethodFor(req.kind);
    if verb.None? { return None; }
    var url := UrlEncode(ParamsFor(req));
    var msg := new Outbound(verb.value + " " + url + " HTTP/1.1\r\n");
    msg.EndHeaders();
    assert msg.body == RequestText(verb.value, url);
    sent := Some(msg.body);
  }

  /** The kind of request that a method, and what the URL says, amount to. */
  function KindOf(verb: string, p: Params): MsgType {
    if verb == "GET" then (if p.key.None? then Index else GetReq)
    else if verb == "PUT" then (if p.key.None? || p.val.None? then Empty else PutReq)
    else if verb == "DELETE" then (if p.key.None? then Empty else DelReq)
    else if verb == "POST" then
      if p.path == Some("register") then (if p.key.None? || p.val.None? then Empty else Register)
      else if p.path == Some("commit") then Commit
      else if p.path == Some("abort") then Abort
      else Empty
    else Empty
  }

  function AsText(s: Option<string>): Option<CStr> { if s.None? then None else Some(TextAt(s.value, 0)) }

  /** What a request line means. */
  function Understood(q: HttpRequest): Option<Request> {
    var p := Decoded(TextAt(q.path, 0));
    var kind := KindOf(q.verb, p);
    if kind == Empty then None else Some(Request(kind, AsText(p.key), AsText(p.val)))
  }

  /** `req` is what the request line of the text means, or nothing if it does not start with one. */
  ghost predicate Means(sent: string, req: Option<Request>) {
    && (forall q :: RequestLine(Received(sent), q) ==> req == Understood(q))
    && ((forall q :: !RequestLine(Received(sent), q)) ==> req == None)
  }

  /** kvrequest_recieve. */
  method KvRequestReceive(sent: string) returns (req: Option<Request>)
    ensures Means(sent, req)
  {
    var http := HttpRequestParse(Received(sent));
    if http.None? { return None; }
    OnlyLine(Received(sent), http.value);
    var q := http.value;
    var p := UrlDecode(TextAt(q.path, 0));
    var kind := KindOf(q.verb, p);
    if kind == Empty { return None; }
    req := Some(Request(kind, AsText(p.key), AsText(p.val)));
  }

  lemma OnlyLine(t: string, a: HttpRequest)
    requires RequestLine(t, a)
    ensures forall q :: RequestLine(t, q) ==> q == a
  {
    forall q | RequestLine(t, q) ensures q == a { RequestLineUnique(t, q, a); }
  }

  // ---------- requests: round trip ----------

  /** Text that can stand in a parameter: nothing that ends the parameter, the path or the line. */
  predicate Plain(s: Option<CStr>) { s.Some? ==> '&' !in s.value && ' ' !in s.value && '\n' !in s.value }

  /** The kind has what it needs. */
  predicate Complete(req: Request) {
    match req.kind
    case GetReq => req.key.Some?
    case PutReq => req.key.Some? && req.val.Some?
    case DelReq => req.key.Some?
    case Register => req.key.Some? && req.val.Some?
    case _ => true
  }

  predicate Transmittable(req: Request) { Complete(req) && Plain(req.key) && Plain(req.val) }

  /** The request line of a sent request is the method and the encoded URL, if that is free of blanks. */
  lemma SentLine(verb: string, url: string)
    requires ValidMethod(verb) && url != "" && url[0] == '/' && ' ' !in url && '\n' !in url
    ensures RequestLine(RequestText(verb, url), HttpRequest(verb, url))
  {
    var t, n := RequestText(verb, url), |verb| + 1 + |url|;
    assert t[..n] == verb + " " + url;
    assert t[n] == ' ';
  }

  lemma UrlStarts(p: Params)
    ensures Encoded(p) != "" && Encoded(p)[0] == '/'
  {
    EncodedForm(p);
  }

  lemma ParamsPlain(req: Request)
    requires Plain(req.key) && Plain(req.val)
    ensures ' ' !in Encoded(ParamsFor(req)) && '\n' !in Encoded(ParamsFor(req))
  {
    EncodedWithout(ParamsFor(req), ' ');
    EncodedWithout(ParamsFor(req), '\n');
  }

  lemma ParamsRepresentable(req: Request)
    requires Plain(req.key) && Plain(req.val)
    ensures Representable(ParamsFor(req))
  {
  }

  lemma AsTextWhole(s: Option<CStr>)
    ensures AsText(s) == s
  {
    if s.Some? { WholeText(s.value, 0); }
  }

  lemma KindReads(req: Request)
    requires MethodFor(req.kind).Some? && Complete(req)
    ensures KindOf(MethodFor(req.kind).value, ParamsFor(req)) == req.kind
  {
  }

  lemma EncodedNulFree(req: Request)
    ensures NulFree(Encoded(ParamsFor(req)))
  {
    EncodedWithout(ParamsFor(req), '\0');
  }

  lemma VerbShort(kind: MsgType)
    requires MethodFor(kind).Some?
    ensures var verb := MethodFor(kind).value; NulFree(verb) && |verb| <= 6 && ValidMethod(verb)
  {
  }

  lemma TextNulFree(verb: string, url: string)
    requires NulFree(verb) && NulFree(url)
    ensures NulFree(RequestText(verb, url))
  {
    assert NulFree(" HTTP/1.1\r\n\r\n");
  }

  /** What is sent arrives whole. */
  lemma SentArrives(req: Request)
    requires MethodFor(req.kind).Some? && |Printed(ParamsFor(req))| < URL_BUFFER
    ensures var verb, url := MethodFor(req.kind).value, Encoded(ParamsFor(req));
      Received(RequestText(verb, url)) == RequestText(verb, url) && TextAt(url, 0) == url
  {
    var verb, url := MethodFor(req.kind).value, Encoded(ParamsFor(req));
    EncodedNulFree(req);
    VerbShort(req.kind);
    TextNulFree(verb, url);
    ReceivedWhole(RequestText(verb, url));
    WholeText(url, 0);
  }

  /** A transmittable request is understood as itself. */
  lemma RequestReads(req: Request)
    requires MethodFor(req.kind).Some? && Transmittable(req) && |Printed(ParamsFor(req))| < URL_BUFFER
    ensures var verb, url := MethodFor(req.kind).value, Encoded(ParamsFor(req));
      && RequestLine(Received(RequestText(verb, url)), HttpRequest(verb, url))
      && Understood(HttpRequest(verb, url)) == Some(req)
  {
    var verb, p := MethodFor(req.kind).value, ParamsFor(req);
    var url := Encoded(p);
    UrlStarts(p);
    ParamsPlain(req);
    SentLine(verb, url);
    SentArrives(req);
    ParamsRepresentable(req);
    UrlRoundTrip(p);
    KindReads(req);
    AsTextWhole(req.key);
    AsTextWhole(req.val);
  }

  lemma {:induction false} TextAtWithout(s: string, i: nat, c: char)
    requires c !in s
    ensures c !in TextAt(s, i)
    decreases |s| - i
  {
    if i < |s| && s[i] != '\0' { TextAtWithout(s, i + 1, c); }
  }

  lemma AsTextPlain(s: Option<string>)
    requires Without('&', s) && Without(' ', s) && Without('\n', s)
    ensures Plain(AsText(s))
  {
    if s.Some? {
      TextAtWithout(s.value, 0, '&');
      TextAtWithout(s.value, 0, ' ');
      TextAtWithout(s.value, 0, '\n');
    }
  }

  /** Whatever a request line is understood as could have been sent. */
  lemma UnderstoodIsTransmittable(q: HttpRequest, req: Request)
    requires ' ' !in q.path && '\n' !in q.path && Understood(q) == Some(req)
    ensures Transmittable(req)
  {
    var url := TextAt(q.path, 0);
    TextAtWithout(q.path, 0, ' ');
    TextAtWithout(q.path, 0, '\n');
    DecodedClean(url);
    DecodedWithout(url, ' ');
    DecodedWithout(url, '\n');
    AsTextPlain(Decoded(url).key);
    AsTextPlain(Decoded(url).val);
  }

  /** Receiving undoes sending on exactly the transmittable requests. */
  lemma RequestRoundTrip(req: Request)
    requires MethodFor(req.kind).Some? && |Printed(ParamsFor(req))| < URL_BUFFER
    ensures var t := Received(RequestText(MethodFor(req.kind).value, Encoded(ParamsFor(req))));
      (exists q :: RequestLine(t, q) && Understood(q) == Some(req)) <==> Transmittable(req)
  {
    var t := Received(RequestText(MethodFor(req.kind).value, Encoded(ParamsFor(req))));
    if Transmittable(req) {
      RequestReads(req);
    }
    if q :| RequestLine(t, q) && Understood(q) == Some(req) {
      assert ' ' !in q.path && '\n' !in q.path;
      UnderstoodIsTransmittable(q, req);
    }
  }

  /** A request sent from one node to another. */
  method TransmitRequest(req: Request) returns (got: Option<Request>)
    requires |Printed(ParamsFor(req))| < URL_BUFFER
    ensures MethodFor(req.kind).Some? ==> (got == Some(req) <==> Transmittable(req))
    ensures MethodFor(req.kind).None? ==> got == None
  {
    var sent := KvRequestSend(req);
    if sent.None? { return None; }
    RequestRoundTrip(req);
    got := KvRequestReceive(sent.value);
  }

  // ---------- responses ----------

  /** A response on the wire, where every body is text. */
  datatype WireResponse = WireResponse(kind: MsgType, body: Option<CStr>)

  function CodeFor(kind: MsgType): (code: Option<nat>)
    ensures code.Some? ==> StatusText(code.value).Some?
  {
    match kind
    case GetResp => Some(200)
    case Success => Some(201)
    case Error => Some(500)
    case Vote => Some(202)
    case Ack => Some(204)
    case _ => None
  }

  function KindFor(status: int): MsgType {
    match status
    case 200 => GetResp
    case 201 => Success
    case 500 => Error
    case 202 => Vote
    case 204 => Ack
    case _ => Empty
  }

  function BodyText(body: Option<CStr>): CStr { if body.Some? then body.value else "" }

  /** The text of a response, if its kind has a code. */
  function SentResponse(res: WireResponse): Option<string> {
    var code := CodeFor(res.kind);
    if code.None? then None else Some(ResponseText(code.value, BodyText(res.body)))
  }

  /** kvresponse_send. */
  method KvResponseSend(res: WireResponse) returns (sent: Option<string>)
    requires CodeFor(res.kind).Some? ==> |ResponseText(CodeFor(res.kind).value, BodyText(res.body))| <= MESSAGE_MAX
    ensures sent == SentResponse(res)
  {
    var code := CodeFor(res.kind);
    if code.None? { return None; }
    var status, body := StatusLine(Decimal(code.value), StatusText(code.value).value), BodyText(res.body);
    var lenbuf := Decimal(|body|);
    BuiltText(status, "Content-Length", lenbuf, body);
    var msg := new Outbound(status + "\r\n");
    msg.AddHeader("Content-Length", lenbuf);
    msg.EndHeaders();
    msg.AddString(res.body);
    sent := Some(msg.body);
  }

  lemma BuiltText(status: string, name: string, number: string, body: string)
    ensures status + "\r\n" + name + ": " + number + "\r\n" + "\r\n" + body == Assembled(status, LengthLine(name, number), body)
    ensures |Assembled(status, LengthLine(name, number), body)| == |status| + |name| + |number| + |body| + 8
  {
    assert "\r\n\r\n" == "\r\n" + "\r\n";
  }

  /** What the receiver makes of a response: refuses it, reads or writes outside a buffer, or accepts it. */
  datatype Receipt = Refused | Overran | Accepted(res: WireResponse)

  function ReceiptOf(p: Parse): Receipt {
    match p
    case Bad => Refused
    case Overrun => Overran
    case Good(status, body) => if KindFor(status) == Empty then Refused else Accepted(WireResponse(KindFor(status), Some(TextAt(body, 0))))
  }

  /** kvresponse_recieve. */
  method KvResponseReceive(sent: string) returns (r: Receipt)
    ensures r == ReceiptOf(ResponseOf(Received(sent)))
  {
    var http := HttpResponseParse(Received(sent));
    r := ReceiptOf(http);
  }

  lemma ResponseNulFree(code: nat, body: CStr)
    requires StatusText(code).Some?
    ensures NulFree(ResponseText(code, body))
  {
    var text := StatusText(code).value;
    StatusNulFree(code);
    assert NulFree(text);
    LineNulFree(Decimal(code), text);
    LengthNulFree(Decimal(|body|));
    AssembledNulFree(StatusLine(Decimal(code), text), LengthLine("Content-Length", Decimal(|body|)), body);
  }

  lemma StatusNulFree(code: int)
    requires StatusText(code).Some?
    ensures '\0' !in StatusText(code).value
  {
  }

  lemma AssembledNulFree(status: string, header: string, body: string)
    requires NulFree(status) && NulFree(header) && NulFree(body)
    ensures NulFree(Assembled(status, header, body))
  {
  }

  lemma LineNulFree(number: string, text: string)
    requires NulFree(text) && forall x :: 0 <= x < |number| ==> Digit(number[x])
    ensures NulFree(StatusLine(number, text))
  {
    assert NulFree("HTTP/1.1");
  }

  lemma LengthNulFree(number: string)
    requires forall x :: 0 <= x < |number| ==> Digit(number[x])
    ensures NulFree(LengthLine("Content-Length", number))
  {
    assert NulFree("Content-Length");
  }

  /** Receiving undoes sending, except that a missing body arrives as an empty one. */
  lemma WireRoundTrip(res: WireResponse)
    requires CodeFor(res.kind).Some? && |ResponseText(CodeFor(res.kind).value, BodyText(res.body))| <= MESSAGE_MAX
    ensures ReceiptOf(ResponseOf(Received(ResponseText(CodeFor(res.kind).value, BodyText(res.body)))))
      == Accepted(WireResponse(res.kind, Some(BodyText(res.body))))
  {
    var code, body := CodeFor(res.kind).value, BodyText(res.body);
    ResponseArrives(code, body);
    ResponseRoundTrip(code, body);
    WholeText(body, 0);
    KindForCode(res.kind);
  }

  lemma KindForCode(kind: MsgType)
    requires CodeFor(kind).Some?
    ensures KindFor(CodeFor(kind).value) == kind && kind != Empty
  {
  }

  lemma ResponseArrives(code: nat, body: CStr)
    requires StatusText(code).Some? && |ResponseText(code, body)| <= MESSAGE_MAX
    ensures Received(ResponseText(code, body)) == ResponseText(code, body) && |body| <= MESSAGE_MAX
  {
    ResponseNulFree(code, body);
    ReceivedWhole(ResponseText(code, body));
    BuiltText(StatusLine(Decimal(code), StatusText(code).value), "Content-Length", Decimal(|body|), body);
  }

  /** A response sent from one node to another. */
  method TransmitResponse(res: WireResponse) returns (got: Option<Receipt>)
    requires CodeFor(res.kind).Some? ==> |ResponseText(CodeFor(res.kind).value, BodyText(res.body))| <= MESSAGE_MAX
    ensures got == if CodeFor(res.kind).None? then None else Some(Accepted(WireResponse(res.kind, Some(BodyText(res.body)))))
  {
    var sent := KvResponseSend(res);
    if sent.None? { return None; }
    WireRoundTrip(res);
    var r := KvResponseReceive(sent.value);
    got := Some(r);
  }
}
