/** The URLs of requests (hw4/src/liburl.c): a path and the parameters `key` and `val`. */
module Url {
  import opened KvConstants
  import opened CStrings

  datatype Params = Params(path: Option<string>, key: Option<string>, val: Option<string>)

  // ---------- what a URL means ----------

  /** One field of the query. Its name may be cut short: any prefix of a parameter's name will do. */
  function WithField(f: string, p: Params): Params {
    var e := Find(f, "=", 0);
    FindFits(f, "=", 0);
    if e.None? then p
    else if f[..e.value] <= "key" then p.(key := Some(f[e.value + 1..]))
    else if f[..e.value] <= "val" then p.(val := Some(f[e.value + 1..]))
    else p
  }

  /** The fields of the query, from left to right. */
  function WithFields(q: string, p: Params): Params
    decreases |q|
  {
    var a := Find(q, "&", 0);
    FindFits(q, "&", 0);
    if a.None? then WithField(q, p) else WithFields(q[a.value + 1..], WithField(q[..a.value], p))
  }

  function PathOf(s: string): Option<string> { if |s| > 1 then Some(s[1..]) else None }

  function Decoded(url: string): Params {
    var q := Find(url, "?", 0);
    FindFits(url, "?", 0);
    if q.None? then Params(PathOf(url), None, None)
    else WithFields(url[q.value + 1..], Params(PathOf(url[..q.value]), None, None))
  }

  // ---------- the decoder ----------

  /** Without an equals sign there are no parameters. */
  lemma {:induction false} NoParameters(q: string, p: Params)
    requires Find(q, "=", 0) == None
    ensures WithFields(q, p) == p
    decreases |q|
  {
    var a := Find(q, "&", 0);
    if a.Some? {
      FindChar(q, '=', 0);
      FindChar(q, '&', 0);
      FindNothing(q[..a.value], "=", 0);
      FindNothing(q[a.value + 1..], "=", 0);
      NoParameters(q[a.value + 1..], p);
    }
  }

  lemma NoMoreParameters(t: string, u: nat, p: Params)
    requires u <= |t| && Find(t, "=", u) == None
    ensures WithFields(t[u..], p) == p
  {
    FindInPart(t, '=', u, |t|);
    assert t[u..|t|] == t[u..];
    NoParameters(t[u..], p);
  }

  /** The end of the field that starts at `u`. */
  function FieldEnd(t: string, u: nat): (re: nat)
    requires u <= |t|
    ensures u <= re <= |t|
  {
    var a := Find(t, "&", u);
    if a.Some? then a.value else |t|
  }

  /** The query from `u` on: its first field, then the others. */
  lemma NextField(t: string, u: nat, p: Params)
    requires u <= |t|
    ensures var re := FieldEnd(t, u);
      WithFields(t[u..], p) == if re < |t| then WithFields(t[re + 1..], WithField(t[u..re], p)) else WithField(t[u..re], p)
  {
    var re := FieldEnd(t, u);
    FindInPart(t, '&', u, |t|);
    FindChar(t, '&', u);
    assert t[u..|t|] == t[u..];
    if re < |t| { PartsOfPart(t, u, re); }
  }

  lemma PartsOfPart(t: string, u: nat, re: nat)
    requires u <= re < |t|
    ensures t[u..][..re - u] == t[u..re] && t[u..][re - u + 1..] == t[re + 1..]
  {
  }

  /** The field from `u` up to `re`, with `ke` the next equals sign. */
  lemma FieldValue(t: string, u: nat, ke: nat, re: nat, p: Params)
    requires u <= re <= |t| && Find(t, "=", u) == Some(ke)
    ensures u <= ke < |t|
    ensures ke >= re ==> WithField(t[u..re], p) == p
    ensures ke < re ==>
      WithField(t[u..re], p) == if t[u..ke] <= "key" then p.(key := Some(t[ke + 1..re]))
                                else if t[u..ke] <= "val" then p.(val := Some(t[ke + 1..re])) else p
  {
    FindInPart(t, '=', u, re);
    FindChar(t, '=', u);
    if ke < re {
      assert t[u..re][..ke - u] == t[u..ke] && t[u..re][ke - u + 1..] == t[ke + 1..re];
    }
  }

  /** A name that matches a parameter ends before its field does. */
  lemma MatchedInField(t: string, u: nat, ke: nat, name: string)
    requires u <= ke <= |t| && Find(t, "=", u) == Some(ke) && (name == "key" || name == "val") && t[u..ke] <= name
    ensures ke < FieldEnd(t, u)
  {
    FindChar(t, '&', u);
    FindChar(t, '=', u);
    assert forall i :: 0 <= i < |name| ==> name[i] != '&';
    assert forall x :: u <= x < ke ==> t[x] == t[u..ke][x - u];
  }

  /** What comparing the name with strncmp finds out about the field at `u`. */
  lemma FieldCompared(t: CStr, u: nat, ke: nat, p: Params)
    requires u <= |t| && Find(t, "=", u) == Some(ke)
    ensures u <= ke < |t|
    ensures var re, key, val := FieldEnd(t, u), SameFor(t, u, "key", ke - u), SameFor(t, u, "val", ke - u);
      && (key || val ==> ke < re)
      && WithField(t[u..re], p) == if key then p.(key := Some(t[ke + 1..re])) else if val then p.(val := Some(t[ke + 1..re])) else p
  {
    FieldValue(t, u, ke, FieldEnd(t, u), p);
    PrefixCompared(t, u, ke, "key");
    PrefixCompared(t, u, ke, "val");
    if t[u..ke] <= "key" {
      MatchedInField(t, u, ke, "key");
    } else if t[u..ke] <= "val" {
      MatchedInField(t, u, ke, "val");
    }
  }

  /** The parameters after the field from `u` up to `re`, whose equals sign is at `ke`. */
  function Stored(t: string, u: nat, ke: nat, re: nat, p: Params): Params
    requires u <= ke < |t| && re <= |t|
  {
    if SameFor(t, u, "key", ke - u) && ke < re then p.(key := Some(t[ke + 1..re]))
    else if SameFor(t, u, "val", ke - u) && ke < re then p.(val := Some(t[ke + 1..re]))
    else p
  }

  /** What remains to be decoded after a field that ends at `re`. */
  function Rest(t: string, re: nat, p: Params): Params {
    if re < |t| then WithFields(t[re + 1..], p) else p
  }

  lemma FieldStep(t: CStr, u: nat, ke: nat, p: Params)
    requires 0 < u <= |t| && Find(t, "=", u) == Some(ke)
    ensures ke < |t|
    ensures Rest(t, u - 1, p) == Rest(t, FieldEnd(t, u), Stored(t, u, ke, FieldEnd(t, u), p))
  {
    NextField(t, u, p);
    FieldCompared(t, u, ke, p);
  }

  lemma LastField(t: string, u: nat, p: Params)
    requires 0 < u <= |t| && Find(t, "=", u) == None
    ensures Rest(t, u - 1, p) == p
  {
    NoMoreParameters(t, u, p);
  }

  /** url_decode: a walk along the text with two pointers. */
  method UrlDecode(url: CStr) returns (p: Params)
    ensures p == Decoded(url)
  {
    var found := Find(url, "?", 0);
    FindFits(url, "?", 0);
    if found.None? {
      return Params(PathOf(url), None, None);
    }
    var readEnd := found.value;
    p := Params(PathOf(url[..readEnd]), None, None);
    var u := readEnd + 1;
    while readEnd < |url|
      invariant readEnd <= |url| && u == readEnd + 1
      invariant Rest(url, readEnd, p) == Decoded(url)
      decreases |url| - readEnd
    {
      var keyEnd := Find(url, "=", u);
      if keyEnd.None? {
        LastField(url, u, p);
        return;
      }
      FieldStep(url, u, keyEnd.value, p);
      readEnd := FieldEnd(url, u);
      p := Stored(url, u, keyEnd.value, readEnd, p);
      u := readEnd + 1;
    }
  }

  // ---------- the encoder ----------

  /** A field of the encoded query, with the ampersand that ends it. */
  function FieldText(name: string, value: Option<string>): string {
    if value.None? then "" else name + "=" + value.value + "&"
  }

  /** What url_encode prints before it cuts off the last character. */
  function Printed(p: Params): (s: string)
    ensures |s| >= 2
  {
    "/" + (if p.path.None? then "" else p.path.value) + "?" + FieldText("key", p.key) + FieldText("val", p.val)
  }

  function Encoded(p: Params): string { Chopped(Printed(p)) }

  const URL_BUFFER: nat := 128

  /** url_encode: prints into a buffer, which must be large enough. */
  method UrlEncode(p: Params) returns (url: string)
    requires |Printed(p)| < URL_BUFFER
    ensures url == Encoded(p)
  {
    var buf := "/" + (if p.path.None? then "" else p.path.value) + "?";
    buf := PrintField(buf, "key", p.key);
    buf := PrintField(buf, "val", p.val);
    url := Chopped(buf);
  }

  /** Prints a field behind what is in the buffer. */
  method PrintField(buf: string, name: string, value: Option<string>) returns (buf': string)
    ensures buf' == buf + FieldText(name, value)
  {
    buf' := buf;
    if value.Some? { buf' := buf + (name + "=" + value.value + "&"); }
  }

  // ---------- round trip ----------

  predicate Without(c: char, o: Option<string>) { o.Some? ==> c !in o.value }

  /** The path is not empty and has no question mark, and no parameter has an ampersand. */
  predicate Representable(p: Params) {
    p.path != Some("") && Without('?', p.path) && Without('&', p.key) && Without('&', p.val)
  }

  lemma OneField(name: string, v: string, p: Params)
    requires name == "key" || name == "val"
    ensures WithField(name + "=" + v, p) == if name == "key" then p.(key := Some(v)) else p.(val := Some(v))
  {
    var f := name + "=" + v;
    assert forall x :: 0 <= x < 3 ==> f[x] == name[x];
    FindCharAt(f, '=', 0, 3);
    assert f[..3] == name && f[4..] == v;
    assert "val"[0] != "key"[0];
  }

  lemma FieldThenMore(f: string, rest: string, p: Params)
    requires '&' !in f
    ensures WithFields(f + "&" + rest, p) == WithFields(rest, WithField(f, p))
  {
    var q := f + "&" + rest;
    FindCharAt(q, '&', 0, |f|);
    assert q[..|f|] == f && q[|f| + 1..] == rest;
  }

  lemma OnlyField(f: string, p: Params)
    requires '&' !in f
    ensures WithFields(f, p) == WithField(f, p)
  {
    FindNothing(f, "&", 0);
  }

  lemma PathThenQuery(path: string, q: string)
    requires '?' !in path
    ensures Decoded("/" + path + "?" + q) == WithFields(q, Params(if path == "" then None else Some(path), None, None))
  {
    var url, n := "/" + path + "?" + q, |path| + 1;
    assert url[..n] == "/" + path && url[n + 1..] == q;
    FindCharAt(url, '?', 0, n);
    assert ("/" + path)[1..] == path;
  }

  lemma FieldClean(f: string, p: Params)
    requires '&' !in f && Representable(p)
    ensures Representable(WithField(f, p))
  {
    var e := Find(f, "=", 0);
    FindFits(f, "=", 0);
    if e.Some? {
      assert forall x :: x in f[e.value + 1..] ==> x in f;
    }
  }

  lemma {:induction false} FieldsClean(q: string, p: Params)
    requires Representable(p)
    ensures Representable(WithFields(q, p))
    decreases |q|
  {
    FindChar(q, '&', 0);
    var a := Find(q, "&", 0);
    if a.None? {
      FieldClean(q, p);
    } else {
      FieldClean(q[..a.value], p);
      FieldsClean(q[a.value + 1..], WithField(q[..a.value], p));
    }
  }

  /** Whatever the URL, what comes out of it is representable. */
  lemma DecodedClean(url: string)
    ensures Representable(Decoded(url))
  {
    FindChar(url, '?', 0);
    var q := Find(url, "?", 0);
    if q.Some? {
      assert '?' !in url[..q.value];
      FieldsClean(url[q.value + 1..], Params(PathOf(url[..q.value]), None, None));
    }
  }

  /** The last character cut off. */
  function Chopped(s: string): string
    requires s != ""
  {
    s[..|s| - 1]
  }

  lemma ChopEnd(a: string, c: char)
    ensures Chopped(a + [c]) == a
  {
  }

  /** The query that url_encode leaves, if there is one. */
  function QueryText(p: Params): string {
    if p.val.Some? then FieldText("key", p.key) + ("val=" + p.val.value)
    else if p.key.Some? then "key=" + p.key.value
    else ""
  }

  lemma EncodedForm(p: Params)
    ensures var path := if p.path.None? then "" else p.path.value;
      Encoded(p) == if p.key.None? && p.val.None? then "/" + path else "/" + path + "?" + QueryText(p)
  {
    var path := if p.path.None? then "" else p.path.value;
    var head := "/" + path + "?";
    assert "key" + "=" == "key=" && "val" + "=" == "val=";
    if p.val.Some? {
      assert Printed(p) == head + FieldText("key", p.key) + ("val=" + p.val.value) + "&";
      ChopEnd(head + FieldText("key", p.key) + ("val=" + p.val.value), '&');
    } else if p.key.Some? {
      assert Printed(p) == head + ("key=" + p.key.value) + "&";
      ChopEnd(head + ("key=" + p.key.value), '&');
    } else {
      assert Printed(p) == "/" + path + "?";
      ChopEnd("/" + path, '?');
    }
  }

  lemma QueryReads(p: Params)
    requires Representable(p) && (p.key.Some? || p.val.Some?)
    ensures WithFields(QueryText(p), Params(p.path, None, None)) == p
  {
    var start := Params(p.path, None, None);
    if p.key.Some? {
      var f := "key=" + p.key.value;
      assert f == "key" + "=" + p.key.value;
      OneField("key", p.key.value, start);
      if p.val.Some? {
        FieldThenMore(f, "val=" + p.val.value, start);
        assert QueryText(p) == f + "&" + ("val=" + p.val.value);
      } else {
        OnlyField(f, start);
      }
    }
    if p.val.Some? {
      var f := "val=" + p.val.value;
      assert f == "val" + "=" + p.val.value;
      OneField("val", p.val.value, start.(key := p.key));
      OnlyField(f, start.(key := p.key));
      assert p.key.None? ==> QueryText(p) == f;
    }
  }

  /** Decoding undoes encoding on exactly the representable parameters. */
  lemma UrlRoundTrip(p: Params)
    ensures Decoded(Encoded(p)) == p <==> Representable(p)
  {
    DecodedClean(Encoded(p));
    if Representable(p) {
      var path := if p.path.None? then "" else p.path.value;
      EncodedForm(p);
      if p.key.None? && p.val.None? {
        FindNothing("/" + path, "?", 0);
        assert ("/" + path)[1..] == path;
      } else {
        PathThenQuery(path, QueryText(p));
        QueryReads(p);
      }
    }
  }

  // ---------- characters of a URL ----------

  lemma FieldTextWithout(name: string, v: Option<string>, c: char)
    requires c !in name && c != '=' && c != '&' && Without(c, v)
    ensures c !in FieldText(name, v)
  {
  }

  lemma JoinedWithout(a: string, b: string, d: string, e: string, f: string, c: char)
    requires c !in a && c !in b && c !in d && c !in e && c !in f
    ensures c !in a + b + d + e + f
  {
  }

  /** A character that is in no part of the parameters, nor in what url_encode adds, is not in the URL. */
  lemma EncodedWithout(p: Params, c: char)
    requires c !in "/?" && c !in "key" && c !in "val" && c != '=' && c != '&'
    requires Without(c, p.path) && Without(c, p.key) && Without(c, p.val)
    ensures c !in Encoded(p)
  {
    assert "/?"[0] == '/' && "/?"[1] == '?';
    FieldTextWithout("key", p.key, c);
    FieldTextWithout("val", p.val, c);
    JoinedWithout("/", if p.path.None? then "" else p.path.value, "?", FieldText("key", p.key), FieldText("val", p.val), c);
    var s := Printed(p);
    assert forall x :: 0 <= x < |s| - 1 ==> s[..|s| - 1][x] == s[x];
  }

  /** A character that is not in the URL is in no parameter. */
  lemma {:induction false} FieldsWithout(q: string, p: Params, c: char)
    requires c !in q && Without(c, p.key) && Without(c, p.val)
    ensures Without(c, WithFields(q, p).key) && Without(c, WithFields(q, p).val)
    decreases |q|
  {
    FindFits(q, "&", 0);
    var a := Find(q, "&", 0);
    if a.None? {
      FieldWithout(q, p, c);
    } else {
      FieldWithout(q[..a.value], p, c);
      FieldsWithout(q[a.value + 1..], WithField(q[..a.value], p), c);
    }
  }

  lemma FieldWithout(f: string, p: Params, c: char)
    requires c !in f && Without(c, p.key) && Without(c, p.val)
    ensures Without(c, WithField(f, p).key) && Without(c, WithField(f, p).val)
  {
    FindFits(f, "=", 0);
  }

  lemma DecodedWithout(url: string, c: char)
    requires c !in url
    ensures Without(c, Decoded(url).key) && Without(c, Decoded(url).val)
  {
    FindFits(url, "?", 0);
    var q := Find(url, "?", 0);
    if q.Some? {
      FieldsWithout(url[q.value + 1..], Params(PathOf(url[..q.value]), None, None), c);
    }
  }
}
