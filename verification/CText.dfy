/** Strings stored back to back in one buffer, each ended by a NUL. */
module CText {
  import opened KvConstants

  /** The string that starts at position `i` of a buffer. */
  function TextAt(buf: string, i: nat): (s: CStr)
    decreases |buf| - i
  {
    if i >= |buf| || buf[i] == '\0' then "" else [buf[i]] + TextAt(buf, i + 1)
  }

  /** The pair layout of store and log entries: key, NUL, value, NUL. */
  function Packed(k: CStr, v: CStr): string { k + "\0" + v + "\0" }

  lemma {:induction false} TextAtStops(buf: string, i: nat, s: CStr)
    requires i + |s| < |buf| && buf[i..i + |s|] == s && buf[i + |s|] == '\0'
    ensures TextAt(buf, i) == s
    decreases |s|
  {
    if s != "" {
      assert buf[i] == s[0];
      assert NulFree(s[1..]);
      assert buf[i + 1..i + 1 + |s[1..]|] == s[1..];
      TextAtStops(buf, i + 1, s[1..]);
    }
  }

  /** Both strings can be read back from the pair layout. */
  lemma PackedReads(k: CStr, v: CStr)
    ensures TextAt(Packed(k, v), 0) == k
    ensures TextAt(Packed(k, v), |k| + 1) == v
  {
    var b := Packed(k, v);
    assert b[0..|k|] == k && b[|k|] == '\0';
    TextAtStops(b, 0, k);
    assert b[|k| + 1..|k| + 1 + |v|] == v && b[|k| + 1 + |v|] == '\0';
    TextAtStops(b, |k| + 1, v);
  }
}
