/** HTTP responses (hw4/src/libhttp.c): status line, headers, body. */
module HttpResponse {
  import opened KvConstants
  import opened CStrings

  /** How a parse ends: refused; reading or writing outside a buffer; or a response. */
  datatype Parse = Bad | Overrun | Good(status: int, body: string)

  function StatusText(code: int): Option<string> {
    match code
    case 100 => Some("Continue")
    case 200 => Some("OK")
    case 201 => Some("Created")
    case 202 => Some("Accepted")
    case 204 => Some("No Content")
    case 301 => Some("Moved Permanently")
    case 302 => Some("Found")
    case 304 => Some("Not Modified")
    case 400 => Some("Bad Request")
    case 401 => Some("Unauthorized")
    case 403 => Some("Forbidden")
    case 404 => Some("Not Found")
    case 405 => Some("Method Not Allowed")
    case 500 => Some("Internal Server Error")
    case _ => None
  }

  // ---------- what the parser computes ----------

  /** The end of the line from `i` on, whichever way lines end. */
  function LineEnd(t: string, i: nat): (r: Option<nat>)
    requires i <= |t|
    ensures r.Some? ==> i <= r.value <= |t|
  {
    var crlf := Find(t, "\r\n", i);
    if crlf.Some? then crlf else Find(t, "\n", i)
  }

  /** The first position from `i` on that holds no blank. */
  function BlanksEnd(t: string, i: nat): (e: nat)
    requires i <= |t|
    ensures i <= e <= |t|
    decreases |t| - i
  {
    if i < |t| && t[i] == ' ' then BlanksEnd(t, i + 1) else i
  }

  datatype Headers = BadHeaders | OverrunHeaders | Done(end: nat, length: int)

  /** A blank line is at `pos`. */
  predicate BlankLine(t: string, pos: nat)
    requires pos <= |t|
  {
    SameFor(t, pos, "\n\n", 2) || SameFor(t, pos, "\r\n\r\n", 4)
  }

  /** The number at `i`, if only blanks separate it from `limit`. */
  function LengthAt(t: string, i: nat, limit: nat): Option<int>
    requires i <= |t|
  {
    var number := Strtol(t, i);
    if BlanksEnd(t, number.1) != limit then None else Some(ToInt(number.0))
  }

  /** The header at `start`: the end of its line, and the length if it gives one. Any prefix of `name`, which is
      "Content-Length", names the length. */
  function HeaderAt(name: string, t: string, start: nat, length: int): (r: Option<(nat, int)>)
    requires start <= |t|
    ensures r.Some? ==> start <= r.value.0 <= |t|
  {
    var limit, colon := LineEnd(t, start), Find(t, ": ", start);
    FindFits(t, ": ", start);
    if limit.None? || colon.None? || colon.value > limit.value then None
    else FieldAt(name, t, start, colon.value, limit.value, length)
  }

  function FieldAt(name: string, t: string, start: nat, colon: nat, limit: nat, length: int): (r: Option<(nat, int)>)
    requires start <= colon && colon + 2 <= |t|
    ensures r.Some? ==> r.value.0 == limit
  {
    if SameFor(t, start, name, colon - start) then
      var n := LengthAt(t, colon + 2, limit);
      if n.None? then None else Some((limit, n.value))
    else Some((limit, length))
  }

  /** The headers after the line end at `pos`, up to the blank line. */
  function HeadersFrom(name: string, t: string, pos: nat, length: int): (r: Headers)
    requires pos <= |t|
    ensures r.Done? ==> pos <= r.end <= |t|
    decreases |t| - pos
  {
    if BlankLine(t, pos) then Done(pos, length)
    else if pos + 2 > |t| then OverrunHeaders
    else
      var header := HeaderAt(name, t, pos + 2, length);
      if header.None? then BadHeaders else HeadersFrom(name, t, header.value.0, header.value.1)
  }

  /** The rest of the response, from its status text on, which must be a prefix of the expected one. */
  function AfterStatus(name: string, text: Option<string>, t: string, status: int): Parse
    requires 13 <= |t|
  {
    var end := LineEnd(t, 13);
    if end.None? then Bad
    else if text.None? then Overrun
    else if !SameFor(t, 13, text.value, end.value - 13) then Bad
    else BodyAfter(t, status, HeadersFrom(name, t, end.value, -1))
  }

  /** The body is copied into a buffer of the announced length, whatever its own. */
  function BodyAfter(t: string, status: int, h: Headers): Parse
    requires h.Done? ==> h.end <= |t|
  {
    if h.BadHeaders? then Bad
    else if h.OverrunHeaders? || h.end + 4 > |t| || |t| - (h.end + 4) > h.length then Overrun
    else Good(status, t[h.end + 4..])
  }

  function ResponseOf(t: string): Parse {
    FindFits(t, " ", 0);
    if Find(t, " ", 0) != Some(8) || !(SameFor(t, 0, "HTTP/1.1", 8) || SameFor(t, 0, "HTTP/1.0", 8)) then Bad
    else
      var number := Strtol(t, 9);
      if number.0 == 0 || number.1 != 12 || At(t, 12) != ' ' then Bad
      else AfterStatus("Content-Length", StatusText(number.0), t, number.0)
  }

  /** An accepted response has a code with a text, starts with one of the two versions, ends with its body, and announces
      at least as many bytes as the body has. */
  lemma AcceptedResponse(t: string)
    requires ResponseOf(t).Good?
    ensures var r := ResponseOf(t);
      && StatusText(r.status).Some? && |r.body| <= |t| && t[|t| - |r.body|..] == r.body
      && Find(t, " ", 0) == Some(8) && (SameFor(t, 0, "HTTP/1.1", 8) || SameFor(t, 0, "HTTP/1.0", 8))
      && exists h :: Announced(t, h, r.body)
  {
    var number := Strtol(t, 9);
    var h := HeadersFrom("Content-Length", t, LineEnd(t, 13).value, -1);
    HeadersEndBlank("Content-Length", t, LineEnd(t, 13).value, -1);
    assert Announced(t, h, ResponseOf(t).body);
  }

  ghost predicate Announced(t: string, h: Headers, body: string) {
    h.Done? && h.length >= |body| && h.end + 4 + |body| == |t| && BlankLine(t, h.end)
  }

  /** The headers end at a blank line. */
  lemma {:induction false} HeadersEndBlank(name: string, t: string, pos: nat, length: int)
    requires pos <= |t| && HeadersFrom(name, t, pos, length).Done?
    ensures BlankLine(t, HeadersFrom(name, t, pos, length).end)
    decreases |t| - pos
  {
    if !BlankLine(t, pos) {
      var header := HeaderAt(name, t, pos + 2, length);
      HeadersEndBlank(name, t, header.value.0, header.value.1);
    }
  }

  /** The version and the code of the status line are read, and the line ends. */
  ghost predicate StatusRead(t: string) {
    && Find(t, " ", 0) == Some(8) && |t| > 12 && (SameFor(t, 0, "HTTP/1.1", 8) || SameFor(t, 0, "HTTP/1.0", 8))
    && Strtol(t, 9).0 != 0 && Strtol(t, 9).1 == 12 && t[12] == ' ' && LineEnd(t, 13).Some?
  }

  /** What is read after the status line of a text whose headers end at a blank line. */
  ghost predicate HeadersRead(t: string, e: nat, n: int) {
    && StatusRead(t) && StatusText(Strtol(t, 9).0).Some?
    && SameFor(t, 13, StatusText(Strtol(t, 9).0).value, LineEnd(t, 13).value - 13)
    && HeadersFrom("Content-Length", t, LineEnd(t, 13).value, -1) == Done(e, n)
  }

  /** Headers that end at `e` and announce `n` bytes lead outside a buffer exactly if fewer than four characters or more
      than `n` follow them; a text with neither is accepted. */
  lemma OverrunIff(t: string, e: nat, n: int)
    requires HeadersRead(t, e, n)
    ensures ResponseOf(t) == Overrun <==> |t| < e + 4 || |t| - (e + 4) > n
    ensures ResponseOf(t) != Overrun ==> ResponseOf(t) == Good(Strtol(t, 9).0, t[e + 4..])
  {
  }

  /** The ways to get there: headers that end, a code without a text, and headers that never end, in a text that ends in
      a bare newline. */
  lemma OverrunCauses(t: string)
    requires ResponseOf(t) == Overrun
    ensures StatusRead(t)
    ensures (exists e, n :: HeadersRead(t, e, n)) || StatusText(Strtol(t, 9).0).None? || t[|t| - 1] == '\n'
  {
    FindFits(t, " ", 0);
    if StatusText(Strtol(t, 9).0).Some? {
      var h := HeadersFrom("Content-Length", t, LineEnd(t, 13).value, -1);
      if h.Done? {
        assert HeadersRead(t, h.end, h.length);
      } else {
        LineEndIsNewline(t, 13);
        HeadersOverrunAtEnd("Content-Length", t, LineEnd(t, 13).value, -1);
      }
    }
  }

  /** A line ends with a newline, or a return and a newline. */
  ghost predicate AtLineEnd(t: string, pos: nat) { StartsAt(t, "\r\n", pos) || StartsAt(t, "\n", pos) }

  lemma LineEndIsNewline(t: string, i: nat)
    requires i <= |t|
    ensures LineEnd(t, i).Some? ==> AtLineEnd(t, LineEnd(t, i).value)
  {
    FindStarts(t, "\r\n", i);
    FindStarts(t, "\n", i);
  }

  lemma {:induction false} HeadersOverrunAtEnd(name: string, t: string, pos: nat, length: int)
    requires pos <= |t| && AtLineEnd(t, pos) && HeadersFrom(name, t, pos, length).OverrunHeaders?
    ensures |t| > 0 && t[|t| - 1] == '\n'
    decreases |t| - pos
  {
    if pos + 2 > |t| {
      EndsInNewline(t, pos);
    } else {
      var header := HeaderAt(name, t, pos + 2, length);
      LineEndIsNewline(t, pos + 2);
      HeadersOverrunAtEnd(name, t, header.value.0, header.value.1);
    }
  }

  lemma EndsInNewline(t: string, pos: nat)
    requires pos <= |t| < pos + 2 && AtLineEnd(t, pos)
    ensures |t| > 0 && t[|t| - 1] == '\n'
  {
    assert !MatchesFrom(t, pos, "\r\n", 1);
    CharStarts(t, '\n', pos);
  }

  // ---------- the parser ----------

  method SkipBlanks(t: CStr, i: nat) returns (e: nat)
    requires i <= |t|
    ensures e == BlanksEnd(t, i)
  {
    e := i;
    while At(t, e) == ' '
      invariant i <= e <= |t| && BlanksEnd(t, e) == BlanksEnd(t, i)
      decreases |t| - e
    {
      e := e + 1;
    }
  }

  /** One turn of the loop over the headers. */
  method ReadHeader(name: string, t: CStr, start: nat, length: int) returns (r: Option<(nat, int)>)
    requires start <= |t|
    ensures r == HeaderAt(name, t, start, length)
  {
    var limit, colon := LineEnd(t, start), Find(t, ": ", start);
    FindFits(t, ": ", start);
    if limit.None? || colon.None? || colon.value > limit.value {
      r := None;
    } else {
      r := ReadField(name, t, start, colon.value, limit.value, length);
    }
  }

  /** A header whose name ends at `colon` and whose line ends at `limit`. */
  method ReadField(name: string, t: CStr, start: nat, colon: nat, limit: nat, length: int) returns (r: Option<(nat, int)>)
    requires start <= colon && colon + 2 <= |t|
    ensures r == FieldAt(name, t, start, colon, limit, length)
  {
    if SameFor(t, start, name, colon - start) {
      var n := ReadLength(t, colon + 2, limit);
      r := if n.None? then None else Some((limit, n.value));
    } else {
      r := Some((limit, length));
    }
  }

  method ReadLength(t: CStr, i: nat, limit: nat) returns (r: Option<int>)
    requires i <= |t|
    ensures r == LengthAt(t, i, limit)
  {
    var number := Strtol(t, i);
    var e := SkipBlanks(t, number.1);
    r := if e != limit then None else Some(ToInt(number.0));
  }

  /** The loop over the headers. */
  method ReadHeaders(name: string, t: CStr, pos0: nat) returns (h: Headers)
    requires pos0 <= |t|
    ensures h == HeadersFrom(name, t, pos0, -1)
  {
    var pos, length := pos0, -1;
    while !BlankLine(t, pos)
      invariant pos <= |t| && HeadersFrom(name, t, pos, length) == HeadersFrom(name, t, pos0, -1)
      decreases |t| - pos
    {
      if pos + 2 > |t| { return OverrunHeaders; }
      var header := ReadHeader(name, t, pos + 2, length);
      if header.None? { return BadHeaders; }
      pos, length := header.value.0, header.value.1;
    }
    h := Done(pos, length);
  }

  /** http_response_parse. */
  method HttpResponseParse(t: CStr) returns (r: Parse)
    ensures r == ResponseOf(t)
  {
    var space := Find(t, " ", 0);
    FindFits(t, " ", 0);
    if space != Some(8) { return Bad; }
    if !SameFor(t, 0, "HTTP/1.1", 8) && !SameFor(t, 0, "HTTP/1.0", 8) { return Bad; }
    var number := Strtol(t, 9);
    if number.0 == 0 || number.1 != 12 || At(t, 12) != ' ' { return Bad; }
    var end := LineEnd(t, 13);
    if end.None? { return Bad; }
    var text := StatusText(number.0);
    if text.None? { return Overrun; }
    if !SameFor(t, 13, text.value, end.value - 13) { return Bad; }
    var h := ReadHeaders("Content-Length", t, end.value);
    r := BodyAfter(t, number.0, h);
  }

  // ---------- the builder ----------

  /** The status line, with the code written as `number`. */
  function StatusLine(number: string, text: string): string { "HTTP/1.1" + " " + number + " " + text }

  /** The one header, with the length written as `number`. */
  function LengthLine(name: string, number: string): string { name + ": " + number }

  function Assembled(status: string, header: string, body: string): string {
    status + "\r\n" + header + "\r\n\r\n" + body
  }

  /** The response that the builder writes. */
  function ResponseText(code: nat, body: string): string
    requires StatusText(code).Some?
  {
    Assembled(StatusLine(Decimal(code), StatusText(code).value), LengthLine("Content-Length", Decimal(|body|)), body)
  }

  // ---------- parts of a text ----------

  lemma HoldsFirst(t: string, i: nat, p: string)
    requires Holds(t, i, p) && p != ""
    ensures i < |t| && t[i] == p[0]
  {
    assert t[i + 0] == p[0];
  }

  lemma HoldsPart(t: string, i: nat, a: string, b: string)
    requires Holds(t, i, a + b)
    ensures Holds(t, i, a) && Holds(t, i + |a|, b)
  {
    forall x | 0 <= x < |b| ensures t[i + |a| + x] == b[x] {
      var y := |a| + x;
      assert t[i + y] == (a + b)[y];
    }
    assert forall x :: 0 <= x < |a| ==> (a + b)[x] == a[x];
  }

  lemma HoldsClip(t: string, i: nat, p: string)
    requires Holds(t, i, p)
    ensures SameFor(t, i, p, |p|)
  {
    SameWhenHeld(t, i, p, 0, |p|);
  }

  lemma HoldsWithout(t: string, i: nat, p: string, c: char)
    requires Holds(t, i, p) && c !in p
    ensures forall x :: i <= x < i + |p| ==> t[x] != c
  {
    forall x | i <= x < i + |p| ensures t[x] != c {
      assert t[i + (x - i)] == p[x - i] && p[x - i] in p;
    }
  }

  lemma FiveParts(t: string, i: nat, a: string, b: string, c: string, d: string, e: string)
    requires Holds(t, i, a + b + c + d + e)
    ensures Holds(t, i, a) && Holds(t, i + |a|, b) && Holds(t, i + |a| + |b|, c) && Holds(t, i + |a| + |b| + |c|, d)
    ensures Holds(t, i + |a| + |b| + |c| + |d|, e)
  {
    HoldsPart(t, i, a + b + c + d, e);
    HoldsPart(t, i, a + b + c, d);
    HoldsPart(t, i, a + b, c);
    HoldsPart(t, i, a, b);
  }

  // ---------- round trip ----------

  /** What can stand before the colon of a header. */
  predicate Name(name: string) { name != "" && ':' !in name && '\r' !in name }

  /** A line that holds `p` ends after it. */
  lemma LineReads(t: string, i: nat, p: string)
    requires Holds(t, i, p) && Holds(t, i + |p|, "\r\n") && '\r' !in p
    ensures LineEnd(t, i) == Some(i + |p|)
  {
    HoldsWithout(t, i, p, '\r');
    HoldsStarts(t, i + |p|, "\r\n");
    FindAt(t, "\r\n", i, i + |p|);
  }

  lemma SeparatorReads(t: string, i: nat, p: string, sep: string)
    requires Holds(t, i, p) && Holds(t, i + |p|, sep) && sep != "" && sep[0] !in p
    ensures Find(t, sep, i) == Some(i + |p|)
  {
    HoldsWithout(t, i, p, sep[0]);
    HoldsStarts(t, i + |p|, sep);
    FindAt(t, sep, i, i + |p|);
  }

  lemma NumberReads(t: string, i: nat, number: string, n: nat)
    requires Holds(t, i, number) && Numeral(number, n) && i + |number| < |t| && t[i + |number|] == '\r' && n < 0x8000_0000
    ensures LengthAt(t, i, i + |number|) == Some(n as int)
  {
    StrtolNumeral(t, i, number, n);
  }

  lemma FieldReads(name: string, t: string, i: nat, number: string, n: nat)
    requires Holds(t, i, name) && Holds(t, i + |name| + 2, number) && Numeral(number, n) && n < 0x8000_0000
    requires var e := i + |name| + 2 + |number|; e < |t| && t[e] == '\r'
    ensures var e := i + |name| + 2 + |number|; FieldAt(name, t, i, i + |name|, e, -1) == Some((e, n as int))
  {
    HoldsClip(t, i, name);
    NumberReads(t, i + |name| + 2, number, n);
  }

  lemma LengthLineParts(name: string, t: string, i: nat, number: string)
    requires Holds(t, i, LengthLine(name, number))
    ensures Holds(t, i, name) && Holds(t, i + |name|, ": ") && Holds(t, i + |name| + 2, number)
    ensures |LengthLine(name, number)| == |name| + 2 + |number|
  {
    HoldsPart(t, i, name + ": ", number);
    HoldsPart(t, i, name, ": ");
  }

  lemma LengthLinePlain(name: string, number: string)
    requires '\r' !in name && forall x :: 0 <= x < |number| ==> Digit(number[x])
    ensures '\r' !in LengthLine(name, number)
  {
  }

  /** The one header is read back. */
  lemma LengthReads(name: string, t: string, i: nat, number: string, n: nat)
    requires Holds(t, i, LengthLine(name, number)) && Holds(t, i + |LengthLine(name, number)|, "\r\n")
    requires Numeral(number, n) && n < 0x8000_0000 && Name(name)
    ensures HeaderAt(name, t, i, -1) == Some((i + |LengthLine(name, number)|, n as int))
  {
    LengthLinePlain(name, number);
    LineReads(t, i, LengthLine(name, number));
    HoldsFirst(t, i + |LengthLine(name, number)|, "\r\n");
    LengthLineParts(name, t, i, number);
    SeparatorReads(t, i, name, ": ");
    FieldReads(name, t, i, number, n);
    HeaderIs(name, t, i, i + |name|, i + |LengthLine(name, number)|);
  }

  lemma HeaderIs(name: string, t: string, i: nat, colon: nat, limit: nat)
    requires i <= colon <= limit && colon + 2 <= |t| && LineEnd(t, i) == Some(limit) && Find(t, ": ", i) == Some(colon)
    ensures HeaderAt(name, t, i, -1) == FieldAt(name, t, i, colon, limit, -1)
  {
  }

  lemma NotBlankYet(name: string, t: string, pos: nat, number: string)
    requires Holds(t, pos, "\r\n") && Holds(t, pos + 2, LengthLine(name, number)) && Name(name)
    ensures !BlankLine(t, pos) && pos + 2 + |LengthLine(name, number)| <= |t|
  {
    LengthLineParts(name, t, pos + 2, number);
    HoldsFirst(t, pos, "\r\n");
    HoldsFirst(t, pos + 2, name);
    DifferenceSeen(t, pos, "\n\n", 0, 0, 2);
    DifferenceSeen(t, pos, "\r\n\r\n", 0, 2, 4);
  }

  lemma BlankLineAt(t: string, pos: nat)
    requires Holds(t, pos, "\r\n\r\n")
    ensures BlankLine(t, pos) && Holds(t, pos, "\r\n")
  {
    HoldsClip(t, pos, "\r\n\r\n");
    assert "\r\n\r\n" == "\r\n" + "\r\n";
    HoldsPart(t, pos, "\r\n", "\r\n");
  }

  lemma HeadersStop(name: string, t: string, pos: nat, n: int)
    requires Holds(t, pos, "\r\n\r\n")
    ensures HeadersFrom(name, t, pos, n) == Done(pos, n) && Holds(t, pos, "\r\n")
  {
    BlankLineAt(t, pos);
  }

  lemma HeadersContinue(name: string, t: string, pos: nat, limit: nat, n: int)
    requires pos + 2 <= |t| && !BlankLine(t, pos) && HeaderAt(name, t, pos + 2, -1) == Some((limit, n))
    ensures limit <= |t| && HeadersFrom(name, t, pos, -1) == HeadersFrom(name, t, limit, n)
  {
  }

  lemma HeaderSkipped(name: string, t: string, pos: nat, number: string, n: nat, limit: nat)
    requires Holds(t, pos, "\r\n") && Holds(t, pos + 2, LengthLine(name, number)) && Holds(t, limit, "\r\n")
    requires Name(name) && Numeral(number, n) && n < 0x8000_0000 && limit == pos + 2 + |LengthLine(name, number)|
    ensures HeadersFrom(name, t, pos, -1) == HeadersFrom(name, t, limit, n)
  {
    LengthReads(name, t, pos + 2, number, n);
    NotBlankYet(name, t, pos, number);
    HeadersContinue(name, t, pos, limit, n);
  }

  lemma HeadersReadBack(name: string, t: string, pos: nat, number: string, n: nat, limit: nat)
    requires Holds(t, pos, "\r\n") && Holds(t, pos + 2, LengthLine(name, number)) && Holds(t, limit, "\r\n\r\n")
    requires Name(name) && Numeral(number, n) && n < 0x8000_0000 && limit == pos + 2 + |LengthLine(name, number)|
    ensures HeadersFrom(name, t, pos, -1) == Done(limit, n)
  {
    HeadersStop(name, t, limit, n);
    HeaderSkipped(name, t, pos, number, n, limit);
  }

  lemma StatusLineReads(t: string, number: string, text: string, code: nat)
    requires Holds(t, 0, StatusLine(number, text)) && Numeral(number, code) && |number| == 3
    ensures Find(t, " ", 0) == Some(8) && SameFor(t, 0, "HTTP/1.1", 8)
    ensures Strtol(t, 9) == (code as int, 12) && At(t, 12) == ' ' && Holds(t, 13, text)
  {
    FiveParts(t, 0, "HTTP/1.1", " ", number, " ", text);
    HoldsClip(t, 0, "HTTP/1.1");
    SeparatorReads(t, 0, "HTTP/1.1", " ");
    HoldsFirst(t, 12, " ");
    StrtolNumeral(t, 9, number, code);
  }

  lemma TextIsPlain(code: int)
    requires StatusText(code).Some?
    ensures '\r' !in StatusText(code).value
  {
  }

  /** Every code with a text has three digits. */
  lemma ThreeDigits(code: nat)
    requires StatusText(code).Some?
    ensures |Decimal(code)| == 3 && code > 0
  {
    assert 100 <= code < 1000;
    assert Decimal(code) == Decimal(code / 10) + [('0' as nat + code % 10) as char];
    assert Decimal(code / 10) == Decimal(code / 10 / 10) + [('0' as nat + code / 10 % 10) as char];
  }

  /** From the status text on, with a body of any length. */
  lemma RestReads(name: string, t: string, code: nat, text: string, number: string, n: nat, e: nat)
    requires Name(name) && '\r' !in text && Holds(t, 13, text) && Numeral(number, n) && n < 0x8000_0000
    requires Holds(t, 13 + |text|, "\r\n") && Holds(t, 13 + |text| + 2, LengthLine(name, number))
    requires e == 13 + |text| + 2 + |LengthLine(name, number)| && Holds(t, e, "\r\n\r\n")
    ensures AfterStatus(name, Some(text), t, code) == BodyAfter(t, code, Done(e, n))
  {
    TextReads(t, text);
    HeadersReadBack(name, t, 13 + |text|, number, n, e);
    RestIs(name, t, code, text, 13 + |text|, Done(e, n));
  }

  lemma TextReads(t: string, text: string)
    requires '\r' !in text && Holds(t, 13, text) && Holds(t, 13 + |text|, "\r\n")
    ensures LineEnd(t, 13) == Some(13 + |text|) && SameFor(t, 13, text, |text|)
  {
    LineReads(t, 13, text);
    HoldsClip(t, 13, text);
  }

  lemma RestIs(name: string, t: string, code: nat, text: string, end: nat, h: Headers)
    requires 13 <= end <= |t| && LineEnd(t, 13) == Some(end)
    requires SameFor(t, 13, text, end - 13) && HeadersFrom(name, t, end, -1) == h
    ensures AfterStatus(name, Some(text), t, code) == BodyAfter(t, code, h)
  {
  }

  /** A response that announces `n` bytes is read back if its body has no more, and overruns the buffer otherwise. */
  lemma AnnouncedLength(code: nat, body: string, status: string, number: string, n: nat)
    requires StatusText(code).Some? && Numeral(status, code) && |status| == 3 && code > 0
    requires Numeral(number, n) && n < 0x8000_0000
    ensures ResponseOf(Assembled(StatusLine(status, StatusText(code).value), LengthLine("Content-Length", number), body))
      == if |body| <= n then Good(code, body) else Overrun
  {
    var text := StatusText(code).value;
    var line, header := StatusLine(status, text), LengthLine("Content-Length", number);
    var t, e := Assembled(line, header, body), |line| + 2 + |header|;
    FiveParts(t, 0, line, "\r\n", header, "\r\n\r\n", body);
    StatusLineReads(t, status, text, code);
    TextIsPlain(code);
    RestReads("Content-Length", t, code, text, number, n, e);
    AssembledBody(line, header, body);
  }

  lemma AssembledBody(line: string, header: string, body: string)
    ensures var t, e := Assembled(line, header, body), |line| + 2 + |header|; |t| == e + 4 + |body| && t[e + 4..] == body
  {
  }

  /** So the parser is not safe: a response that announces no bytes and has one, "HTTP/1.1 200 OK", "Content-Length: 0",
      a blank line and "x", makes it write outside its buffer. */
  lemma ResponseOverruns()
    ensures ResponseOf(Assembled(StatusLine("200", "OK"), LengthLine("Content-Length", "0"), "x")) == Overrun
  {
    NumeralTwoHundred();
    AnnouncedLength(200, "x", "200", "0", 0);
  }

  lemma NumeralTwoHundred()
    ensures Numeral("200", 200)
  {
    var s := "200";
    assert CStrings.Value(s, 0, 1) == 2;
    assert CStrings.Value(s, 0, 2) == 20;
  }

  /** The parser reads back what the builder wrote, whatever the body. */
  lemma ResponseRoundTrip(code: nat, body: string)
    requires StatusText(code).Some? && |body| < 0x8000_0000
    ensures ResponseOf(ResponseText(code, body)) == Good(code, body)
  {
    ThreeDigits(code);
    DecimalIsNumeral(code);
    DecimalIsNumeral(|body|);
    AnnouncedLength(code, body, Decimal(code), Decimal(|body|), |body|);
  }
}
