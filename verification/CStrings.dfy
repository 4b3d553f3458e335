/** The C library's string functions, on NUL-terminated text: position `|t|` is the terminator. */
module CStrings {
  import opened KvConstants

  /** The character at a position. */
  function At(t: string, i: nat): char { if i < |t| then t[i] else '\0' }

  // ---------- searching ----------

  /** The characters of `pat` from `k` on are those of the text from `i + k` on. */
  predicate MatchesFrom(t: string, i: nat, pat: string, k: nat)
    requires k <= |pat|
    decreases |pat| - k
  {
    k == |pat| || (i + k < |t| && t[i + k] == pat[k] && MatchesFrom(t, i, pat, k + 1))
  }

  /** `pat` is at position `i`. */
  predicate StartsAt(t: string, pat: string, i: nat) { MatchesFrom(t, i, pat, 0) }

  /** `pat` is at position `i`, character by character. */
  ghost predicate Holds(t: string, i: nat, pat: string) {
    i + |pat| <= |t| && forall x :: 0 <= x < |pat| ==> t[i + x] == pat[x]
  }

  lemma {:induction false} MatchesWhenHeld(t: string, i: nat, pat: string, k: nat)
    requires k <= |pat| && Holds(t, i, pat)
    ensures MatchesFrom(t, i, pat, k)
    decreases |pat| - k
  {
    if k < |pat| {
      assert t[i + k] == pat[k];
      MatchesWhenHeld(t, i, pat, k + 1);
    }
  }

  lemma HoldsStarts(t: string, i: nat, pat: string)
    requires Holds(t, i, pat)
    ensures StartsAt(t, pat, i)
  {
    MatchesWhenHeld(t, i, pat, 0);
  }

  lemma StartsWithFirst(t: string, pat: string, i: nat)
    requires pat != "" && StartsAt(t, pat, i)
    ensures i < |t| && t[i] == pat[0]
  {
  }

  lemma CharStarts(t: string, c: char, i: nat)
    ensures StartsAt(t, [c], i) <==> i < |t| && t[i] == c
  {
    assert MatchesFrom(t, i, [c], 1);
  }

  /** strstr, and strchr for a character other than the terminator: the first occurrence from `i` on. */
  function Find(t: string, pat: string, i: nat): (r: Option<nat>)
    requires i <= |t|
    ensures r.Some? ==> i <= r.value <= |t|
    decreases |t| - i
  {
    if StartsAt(t, pat, i) then Some(i) else if i == |t| then None else Find(t, pat, i + 1)
  }

  lemma {:induction false} FindStarts(t: string, pat: string, i: nat)
    requires i <= |t|
    ensures var r := Find(t, pat, i); r.Some? ==> StartsAt(t, pat, r.value)
    decreases |t| - i
  {
    if !StartsAt(t, pat, i) && i < |t| { FindStarts(t, pat, i + 1); }
  }

  lemma {:induction false} FindFits(t: string, pat: string, i: nat)
    requires i <= |t|
    ensures var r := Find(t, pat, i); r.Some? ==> r.value + |pat| <= |t|
    decreases |t| - i
  {
    if StartsAt(t, pat, i) {
      MatchFits(t, i, pat, 0);
    } else if i < |t| {
      FindFits(t, pat, i + 1);
    }
  }

  lemma {:induction false} MatchFits(t: string, i: nat, pat: string, k: nat)
    requires k <= |pat| && MatchesFrom(t, i, pat, k) && i + k <= |t|
    ensures i + |pat| <= |t|
    decreases |pat| - k
  {
    if k < |pat| { MatchFits(t, i, pat, k + 1); }
  }

  /** The first occurrence is where the first character of the pattern first appears. */
  lemma {:induction false} FindAt(t: string, pat: string, i: nat, j: nat)
    requires i <= j <= |t| && pat != "" && StartsAt(t, pat, j) && forall x :: i <= x < j ==> t[x] != pat[0]
    ensures Find(t, pat, i) == Some(j)
    decreases j - i
  {
    if i < j {
      if StartsAt(t, pat, i) { StartsWithFirst(t, pat, i); }
      FindAt(t, pat, i + 1, j);
    }
  }

  lemma {:induction false} FindNothing(t: string, pat: string, i: nat)
    requires i <= |t| && pat != "" && forall x :: i <= x < |t| ==> t[x] != pat[0]
    ensures Find(t, pat, i) == None
    decreases |t| - i
  {
    if StartsAt(t, pat, i) { StartsWithFirst(t, pat, i); }
    if i < |t| { FindNothing(t, pat, i + 1); }
  }

  /** strchr. */
  lemma {:induction false} FindChar(t: string, c: char, i: nat)
    requires i <= |t|
    ensures var r := Find(t, [c], i);
      && (r.Some? ==> i <= r.value < |t| && t[r.value] == c && forall j :: i <= j < r.value ==> t[j] != c)
      && (r.None? ==> forall j :: i <= j < |t| ==> t[j] != c)
    decreases |t| - i
  {
    CharStarts(t, c, i);
    if i < |t| && t[i] != c { FindChar(t, c, i + 1); }
  }

  lemma FindCharAt(t: string, c: char, i: nat, j: nat)
    requires i <= j < |t| && t[j] == c && forall x :: i <= x < j ==> t[x] != c
    ensures Find(t, [c], i) == Some(j)
  {
    CharStarts(t, c, j);
    FindAt(t, [c], i, j);
  }

  /** Searching a part of the text for a character. */
  lemma FindInPart(t: string, c: char, u: nat, e: nat)
    requires u <= e <= |t|
    ensures var j := Find(t, [c], u); Find(t[u..e], [c], 0) == if j.Some? && j.value < e then Some(j.value - u) else None
  {
    FindChar(t, c, u);
    var j := Find(t, [c], u);
    if j.Some? && j.value < e {
      FindCharAt(t[u..e], c, 0, j.value - u);
    } else {
      FindNothing(t[u..e], [c], 0);
    }
  }

  // ---------- comparing ----------

  /** strncmp finds no difference, from character `k` on. */
  predicate SameFrom(t: string, i: nat, s: string, k: nat, n: nat)
    decreases n - k
  {
    k >= n || (At(t, i + k) == At(s, k) && (At(s, k) == '\0' || SameFrom(t, i, s, k + 1, n)))
  }

  /** strncmp finds no difference between the text from `i` on and `s` in the first `n` characters. */
  predicate SameFor(t: string, i: nat, s: string, n: nat) { SameFrom(t, i, s, 0, n) }

  lemma {:induction false} SameWhenHeld(t: string, i: nat, s: string, k: nat, n: nat)
    requires Holds(t, i, s) && n <= |s|
    ensures SameFrom(t, i, s, k, n)
    decreases n - k
  {
    if k < n {
      assert t[i + k] == s[k];
      SameWhenHeld(t, i, s, k + 1, n);
    }
  }

  /** A character that differs is noticed. */
  lemma {:induction false} DifferenceSeen(t: string, i: nat, s: string, k: nat, j: nat, n: nat)
    requires k <= j < n && j < |s| && NulFree(s) && At(t, i + j) != s[j]
    ensures !SameFrom(t, i, s, k, n)
    decreases j - k
  {
    if k < j { DifferenceSeen(t, i, s, k + 1, j, n); }
  }

  /** strncmp with the length of a part of the text is a test for a prefix. */
  lemma PrefixCompared(t: CStr, u: nat, e: nat, s: CStr)
    requires u <= e <= |t|
    ensures SameFor(t, u, s, e - u) <==> t[u..e] <= s
  {
    var p := t[u..e];
    if p <= s {
      forall x | 0 <= x < |p| ensures t[u + x] == s[x] { assert t[u + x] == p[x]; }
      SameWithin(t, u, s, 0, e - u);
    } else if |p| > |s| {
      if forall x :: 0 <= x < |s| ==> t[u + x] == s[x] {
        TooLong(t, u, s, 0, e - u);
      } else {
        var x :| 0 <= x < |s| && t[u + x] != s[x];
        DifferenceSeen(t, u, s, 0, x, e - u);
      }
    } else {
      NotPrefix(p, s);
      var x :| 0 <= x < |p| && p[x] != s[x];
      DifferenceSeen(t, u, s, 0, x, e - u);
    }
  }

  lemma NotPrefix(p: string, s: string)
    requires |p| <= |s| && !(p <= s)
    ensures exists x :: 0 <= x < |p| && p[x] != s[x]
  {
    assert p != s[..|p|];
  }

  lemma {:induction false} SameWithin(t: string, u: nat, s: string, k: nat, n: nat)
    requires n <= |s| && u + n <= |t| && forall x :: 0 <= x < n ==> t[u + x] == s[x]
    ensures SameFrom(t, u, s, k, n)
    decreases n - k
  {
    if k < n {
      assert t[u + k] == s[k];
      SameWithin(t, u, s, k + 1, n);
    }
  }

  lemma {:induction false} TooLong(t: string, u: nat, s: string, k: nat, n: nat)
    requires k <= |s| < n && u + |s| < |t| && NulFree(t) && forall x :: 0 <= x < |s| ==> t[u + x] == s[x]
    ensures !SameFrom(t, u, s, k, n)
    decreases |s| - k
  {
    if k < |s| { TooLong(t, u, s, k + 1, n); }
  }

  // ---------- numbers ----------

  predicate Digit(c: char) { '0' <= c <= '9' }

  predicate Space(c: char) { c == ' ' || '\t' <= c <= '\r' }

  /** The first position from `i` on that holds no digit. */
  function DigitsEnd(t: string, i: nat): (e: nat)
    requires i <= |t|
    ensures i <= e <= |t|
    decreases |t| - i
  {
    if i < |t| && Digit(t[i]) then DigitsEnd(t, i + 1) else i
  }

  function SpacesEnd(t: string, i: nat): (e: nat)
    requires i <= |t|
    ensures i <= e <= |t|
    decreases |t| - i
  {
    if i < |t| && Space(t[i]) then SpacesEnd(t, i + 1) else i
  }

  function DigitValue(c: char): nat { if Digit(c) then c as nat - '0' as nat else 0 }

  /** The number that the digits from `d` up to `e` denote. */
  function Value(t: string, d: nat, e: nat): nat
    requires e <= |t|
  {
    if e <= d then 0 else Value(t, d, e - 1) * 10 + DigitValue(t[e - 1])
  }

  const LONG_MAX: int := 0x7FFF_FFFF_FFFF_FFFF

  /** A number that fits a long, or the limit it exceeds. */
  function Saturated(negative: bool, v: nat): int {
    if negative then (if v > LONG_MAX then -LONG_MAX - 1 else 0 - v) else (if v > LONG_MAX then LONG_MAX else v)
  }

  /** strtol with base 10: spaces, a sign, digits; no digits, nothing read. */
  function Strtol(t: string, i: nat): (r: (int, nat))
    requires i <= |t|
    ensures i <= r.1 <= |t|
  {
    var s := SpacesEnd(t, i);
    var d := if At(t, s) == '-' || At(t, s) == '+' then s + 1 else s;
    if d > |t| then (0, i)
    else
      var e := DigitsEnd(t, d);
      if e == d then (0, i) else (Saturated(At(t, s) == '-', Value(t, d, e)), e)
  }

  /** A long stored in a 32-bit int. */
  function ToInt(v: int): int { (v + 0x8000_0000) % 0x1_0000_0000 - 0x8000_0000 }

  /** %d and %ld of a number that is not negative. */
  function Decimal(n: nat): (s: string)
    ensures s != "" && forall x :: 0 <= x < |s| ==> Digit(s[x])
  {
    var last := [('0' as nat + n % 10) as char];
    if n < 10 then last else Decimal(n / 10) + last
  }

  /** `s` is a way to write the number `n`, which fits a long. */
  ghost predicate Numeral(s: string, n: nat) {
    s != "" && (forall x :: 0 <= x < |s| ==> Digit(s[x])) && Value(s, 0, |s|) == n && n <= LONG_MAX
  }

  lemma {:induction false} DecimalValue(n: nat)
    ensures Value(Decimal(n), 0, |Decimal(n)|) == n
  {
    var s := Decimal(n);
    assert DigitValue(s[|s| - 1]) == n % 10;
    if n >= 10 {
      DecimalValue(n / 10);
      ValueMoved(s, 0, Decimal(n / 10), |s| - 1);
    }
  }

  /** The value depends on the digits alone. */
  lemma {:induction false} ValueMoved(t: string, i: nat, s: string, k: nat)
    requires k <= |s| && i + k <= |t| && forall x :: 0 <= x < k ==> t[i + x] == s[x]
    ensures Value(t, i, i + k) == Value(s, 0, k)
    decreases k
  {
    if k > 0 {
      ValueMoved(t, i, s, k - 1);
      assert t[i + (k - 1)] == s[k - 1];
    }
  }

  lemma DecimalIsNumeral(n: nat)
    requires n <= LONG_MAX
    ensures Numeral(Decimal(n), n)
  {
    DecimalValue(n);
  }

  lemma {:induction false} DigitsStop(t: string, i: nat, k: nat)
    requires i + k <= |t| && (forall x :: i <= x < i + k ==> Digit(t[x])) && !Digit(At(t, i + k))
    ensures DigitsEnd(t, i) == i + k
    decreases k
  {
    if k > 0 { DigitsStop(t, i + 1, k - 1); }
  }

  /** strtol reads a number back. */
  lemma StrtolNumeral(t: string, i: nat, s: string, n: nat)
    requires Holds(t, i, s) && Numeral(s, n) && !Digit(At(t, i + |s|))
    ensures Strtol(t, i) == (n as int, i + |s|)
  {
    forall x | i <= x < i + |s| ensures Digit(t[x]) {
      assert t[i + (x - i)] == s[x - i];
    }
    DigitsStop(t, i, |s|);
    ValueMoved(t, i, s, |s|);
    assert t[i + 0] == s[0];
  }
}
