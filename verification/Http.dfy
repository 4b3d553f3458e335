/** The HTTP messages of hw4/src/libhttp.c: builders that append to a buffer, and parsers that walk along the text
    (sections 3.1.1 and 3.1.2 of RFC 7230 give the line formats). */
module Http {
  import opened KvConstants
  import opened CStrings

  /** LIBHTTP_MESSAGE_MAX_SIZE. */
  const MESSAGE_MAX: nat := 8192

  // ---------- requests ----------

  datatype HttpRequest = HttpRequest(verb: string, path: string)

  /** http_is_valid_method compares only as many characters as the method has: a prefix will do. */
  predicate MethodPrefix(m: string) { m <= "GET" || m <= "PUT" || m <= "DELETE" || m <= "POST" }

  predicate ValidMethod(m: string) { m == "GET" || m == "PUT" || m == "DELETE" || m == "POST" }

  predicate PathChar(c: char) { c != ' ' && c != '\n' }

  /** The text starts with a request line for `q`: the method, a space, the path, and a space or a line end. */
  ghost predicate RequestLine(t: string, q: HttpRequest) {
    var n := |q.verb| + 1 + |q.path|;
    && ' ' !in q.verb && MethodPrefix(q.verb)
    && q.path != "" && q.path[0] == '/' && (forall x :: x in q.path ==> PathChar(x))
    && n < |t| && t[..n] == q.verb + " " + q.path && !PathChar(t[n])
  }

  /** A text has at most one request line. */
  lemma RequestLineUnique(t: string, a: HttpRequest, b: HttpRequest)
    requires RequestLine(t, a) && RequestLine(t, b)
    ensures a == b
  {
    RequestLineParts(t, a);
    RequestLineParts(t, b);
    var i, j := |a.verb|, |b.verb|;
    assert i == j;
    assert |a.path| == |b.path|;
  }

  /** Where the parts of a request line are. */
  lemma RequestLineParts(t: string, q: HttpRequest)
    requires RequestLine(t, q)
    ensures var m, n := |q.verb|, |q.verb| + 1 + |q.path|;
      && m < n < |t| && t[..m] == q.verb && t[m] == ' ' && t[m + 1..n] == q.path && !PathChar(t[n])
      && (forall x :: 0 <= x < m ==> t[x] != ' ') && (forall x :: m < x < n ==> PathChar(t[x]))
  {
    var m, n := |q.verb|, |q.verb| + 1 + |q.path|;
    var line := q.verb + " " + q.path;
    assert forall x :: 0 <= x < n ==> t[x] == t[..n][x] == line[x];
    assert t[..m] == q.verb && t[m + 1..n] == q.path;
    forall x | 0 <= x < m ensures t[x] != ' ' { assert t[x] == q.verb[x]; }
    forall x | m < x < n ensures PathChar(t[x]) { assert t[x] == q.path[x - m - 1]; }
  }

  lemma ComparedMethods(t: CStr, e: nat)
    requires e <= |t|
    ensures (SameFor(t, 0, "GET", e) || SameFor(t, 0, "PUT", e) || SameFor(t, 0, "DELETE", e) || SameFor(t, 0, "POST", e))
      <==> MethodPrefix(t[..e])
  {
    PrefixCompared(t, 0, e, "GET");
    PrefixCompared(t, 0, e, "PUT");
    PrefixCompared(t, 0, e, "DELETE");
    PrefixCompared(t, 0, e, "POST");
  }

  /** The ways not to start with a request line. */
  ghost predicate Malformed(t: string) {
    var e := Find(t, " ", 0);
    || e.None?
    || !MethodPrefix(t[..e.value])
    || At(t, e.value + 1) != '/'
    || (forall x :: e.value < x < |t| ==> PathChar(t[x]))
  }

  lemma MalformedHasNone(t: string)
    requires Malformed(t)
    ensures forall q :: !RequestLine(t, q)
  {
    FindChar(t, ' ', 0);
    forall q ensures !RequestLine(t, q) {
      if RequestLine(t, q) {
        RequestLineParts(t, q);
        FindCharAt(t, ' ', 0, |q.verb|);
      }
    }
  }

  lemma WellFormed(t: string, e: nat, n: nat)
    requires e + 1 < n < |t| && t[e] == ' ' && t[e + 1] == '/' && !PathChar(t[n]) && MethodPrefix(t[..e])
    requires (forall x :: 0 <= x < e ==> t[x] != ' ') && (forall x :: e < x < n ==> PathChar(t[x]))
    ensures RequestLine(t, HttpRequest(t[..e], t[e + 1..n]))
  {
    assert t[..n] == t[..e] + " " + t[e + 1..n];
    assert forall x :: x in t[e + 1..n] ==> PathChar(x);
  }

  /** http_is_valid_method on the first `e` characters, which a space follows. */
  method HttpIsValidMethod(t: CStr, e: nat) returns (ok: bool)
    requires e <= |t|
    ensures ok == MethodPrefix(t[..e])
  {
    ComparedMethods(t, e);
    ok := SameFor(t, 0, "GET", e) || SameFor(t, 0, "PUT", e) || SameFor(t, 0, "DELETE", e) || SameFor(t, 0, "POST", e);
  }

  /** Walks to the end of the path that starts at `start`. */
  method PathEnd(t: CStr, start: nat) returns (end: Option<nat>)
    requires start < |t| && PathChar(t[start])
    ensures end.Some? ==> start < end.value < |t| && !PathChar(t[end.value]) && forall x :: start <= x < end.value ==> PathChar(t[x])
    ensures end.None? ==> forall x :: start <= x < |t| ==> PathChar(t[x])
  {
    var readEnd := start + 1;
    while At(t, readEnd) != ' ' && At(t, readEnd) != '\n'
      invariant start < readEnd <= |t| && forall x :: start <= x < readEnd ==> PathChar(t[x])
      decreases |t| - readEnd
    {
      if At(t, readEnd) == '\0' { return None; }
      readEnd := readEnd + 1;
    }
    end := Some(readEnd);
  }

  /** http_request_parse: accepts exactly the texts that start with a request line, and returns its parts. */
  method HttpRequestParse(t: CStr) returns (r: Option<HttpRequest>)
    ensures r.Some? ==> RequestLine(t, r.value)
    ensures r.None? ==> forall q :: !RequestLine(t, q)
  {
    r := None;
    FindChar(t, ' ', 0);
    var space := Find(t, " ", 0);
    if space.Some? {
      var e := space.value;
      var ok := HttpIsValidMethod(t, e);
      if ok && At(t, e + 1) == '/' {
        var end := PathEnd(t, e + 1);
        if end.Some? {
          WellFormed(t, e, end.value);
          return Some(HttpRequest(t[..e], t[e + 1..end.value]));
        }
      }
    }
    MalformedHasNone(t);
  }
}
