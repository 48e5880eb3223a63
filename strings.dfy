/**
 * The few operations on Python `str` values that the extractor and the
 * paginator rely on: `strip()`, `lstrip(c)`, `rfind`, `join`, `isdigit()`
 * and `int()` on a string of digits.
 */
module Strings {

  /** Python's `str.isspace()` for one character: exactly the characters that
      `str.strip()` with no argument removes. */
  predicate IsSpace(c: char)
  {
    c == ' ' || ('\t' <= c <= '\r') || ('\U{1c}' <= c <= '\U{1f}') ||
    c == '\U{85}' || c == '\U{a0}' || c == '\U{1680}' ||
    ('\U{2000}' <= c <= '\U{200a}') || c == '\U{2028}' || c == '\U{2029}' ||
    c == '\U{202f}' || c == '\U{205f}' || c == '\U{3000}'
  }

  /** `s.lstrip()`: drops a prefix, and what is left does not start with
      whitespace. */
  function TrimLeft(s: string): (r: string)
    ensures |r| <= |s| && r == s[|s| - |r|..]
    ensures r != [] ==> !IsSpace(r[0])
  {
    if s != [] && IsSpace(s[0]) then TrimLeft(s[1..]) else s
  }

  /** What `lstrip` drops is whitespace, and only that. */
  lemma {:induction false} TrimLeftDropsSpaces(s: string)
    ensures forall k :: 0 <= k < |s| - |TrimLeft(s)| ==> IsSpace(s[k])
  {
    if s != [] && IsSpace(s[0]) {
      TrimLeftDropsSpaces(s[1..]);
      assert forall k :: 1 <= k < |s| ==> s[k] == s[1..][k - 1];
    }
  }

  /** `s.rstrip()`: drops a suffix, and what is left does not end with
      whitespace. */
  function TrimRight(s: string): (r: string)
    ensures |r| <= |s| && r == s[..|r|]
    ensures r != [] ==> !IsSpace(r[|r| - 1])
  {
    if s != [] && IsSpace(s[|s| - 1]) then TrimRight(s[..|s| - 1]) else s
  }

  /** What `rstrip` drops is whitespace, and only that. */
  lemma {:induction false} TrimRightDropsSpaces(s: string)
    ensures forall k :: |TrimRight(s)| <= k < |s| ==> IsSpace(s[k])
  {
    if s != [] && IsSpace(s[|s| - 1]) {
      TrimRightDropsSpaces(s[..|s| - 1]);
    }
  }

  /** `s.strip()`: a factor of `s` that neither starts nor ends with
      whitespace. */
  function Strip(s: string): (r: string)
    ensures |r| <= |s|
    ensures r != [] ==> !IsSpace(r[0]) && !IsSpace(r[|r| - 1])
  {
    TrimRight(TrimLeft(s))
  }

  /** `s.strip()` is empty exactly when `s` is all whitespace: it removes
      whitespace and nothing else. */
  lemma StripEmpty(s: string)
    ensures Strip(s) == [] <==> forall k :: 0 <= k < |s| ==> IsSpace(s[k])
  {
    var l := TrimLeft(s);
    TrimLeftDropsSpaces(s);
    TrimRightDropsSpaces(l);
    assert forall k :: |s| - |l| <= k < |s| ==> s[k] == l[k - (|s| - |l|)];
  }

  /** Stripping a string that neither starts nor ends with whitespace
      changes nothing. */
  lemma StripStripped(s: string)
    requires s != [] ==> !IsSpace(s[0]) && !IsSpace(s[|s| - 1])
    ensures Strip(s) == s
  {
  }

  /** `s.lstrip(c)`: drops every leading copy of `c` (not just one). */
  function LStripChar(s: string, c: char): (r: string)
    ensures |r| <= |s| && r == s[|s| - |r|..]
    ensures forall k :: 0 <= k < |s| - |r| ==> s[k] == c
    ensures r != [] ==> r[0] != c
  {
    if s != [] && s[0] == c then LStripChar(s[1..], c) else s
  }

  /** `s.rfind(c, lo, hi)` on a one-character needle with `lo <= hi`: the
      last index k with lo <= k < hi and s[k] == c, or -1 if there is none. */
  function RFind(s: string, c: char, lo: nat, hi: nat): (r: int)
    requires lo <= hi <= |s|
    ensures r == -1 <==> forall k :: lo <= k < hi ==> s[k] != c
    ensures r != -1 ==> lo <= r < hi && s[r] == c
    ensures r != -1 ==> forall k :: r < k < hi ==> s[k] != c
    decreases hi
  {
    if hi == lo then -1
    else if s[hi - 1] == c then hi - 1
    else RFind(s, c, lo, hi - 1)
  }

  /** `"".join(parts)`. */
  function Concat(parts: seq<string>): string
  {
    if parts == [] then "" else Concat(parts[..|parts| - 1]) + parts[|parts| - 1]
  }

  /** Concatenation distributes over appending lists of parts. */
  lemma {:induction false} ConcatAppend(a: seq<string>, b: seq<string>)
    ensures Concat(a + b) == Concat(a) + Concat(b)
    decreases |b|
  {
    if b == [] {
      assert a + b == a;
    } else {
      var b' := b[..|b| - 1];
      var last := b[|b| - 1];
      assert (a + b)[..|a + b| - 1] == a + b' && (a + b)[|a + b| - 1] == last;
      assert Concat(a + b) == Concat(a + b') + last;
      ConcatAppend(a, b');
      assert Concat(b) == Concat(b') + last;
      assert (Concat(a) + Concat(b')) + last == Concat(a) + (Concat(b') + last);
    }
  }

  lemma ConcatSingle(t: string)
    ensures Concat([t]) == t
  {
    assert [t][..0] == [];
  }

  /** The parts of a list that are not the empty string, in order
      (the `p for p in parts if p` of a generator expression). */
  function NonEmptyOnly(parts: seq<string>): (r: seq<string>)
    ensures |r| <= |parts|
    ensures forall t :: t in r ==> t != "" && t in parts
    ensures forall t :: t in parts && t != "" ==> t in r
  {
    if parts == [] then []
    else
      var last := parts[|parts| - 1];
      NonEmptyOnly(parts[..|parts| - 1]) + (if last == "" then [] else [last])
  }

  /** Dropping empty parts does not change their concatenation. */
  lemma {:induction false} ConcatNonEmptyOnly(parts: seq<string>)
    ensures Concat(NonEmptyOnly(parts)) == Concat(parts)
  {
    if parts != [] {
      var init := parts[..|parts| - 1];
      var last := parts[|parts| - 1];
      ConcatNonEmptyOnly(init);
      ConcatAppend(NonEmptyOnly(init), if last == "" then [] else [last]);
    }
  }

  /** `sep.join(parts)`: the parts in order with one `sep` between neighbours. */
  function Join(sep: string, parts: seq<string>): (r: string)
    ensures parts == [] ==> r == ""
    ensures parts != [] ==> |r| >= |parts[0]| && r[..|parts[0]|] == parts[0]
    ensures parts != [] ==> |r| >= |parts[|parts| - 1]| && r[|r| - |parts[|parts| - 1]|..] == parts[|parts| - 1]
  {
    if parts == [] then ""
    else if |parts| == 1 then parts[0]
    else
      var init := Join(sep, parts[..|parts| - 1]);
      assert init[..|parts[0]|] == (init + sep + parts[|parts| - 1])[..|parts[0]|];
      init + sep + parts[|parts| - 1]
  }

  /** Two non-empty parts are joined with one separator between them. */
  lemma JoinTwo(a: string, b: string)
    requires a != "" && b != ""
    ensures Join(" ", NonEmptyOnly([a, b])) == a + " " + b
  {
    assert [a, b][..1] == [a] && [a][..0] == [];
    assert NonEmptyOnly([a]) == [a];
    assert NonEmptyOnly([a, b]) == [a, b];
  }

  /** `s.isdigit()` restricted to the ASCII digits `0`..`9`. */
  predicate IsDigits(s: string)
    ensures IsDigits(s) ==> s != [] && forall k :: 0 <= k < |s| ==> !IsSpace(s[k])
  {
    s != [] && forall k :: 0 <= k < |s| ==> '0' <= s[k] <= '9'
  }

  /** `int(s)` for a string of ASCII digits. */
  function DecimalValue(s: string): (n: nat)
    requires forall k :: 0 <= k < |s| ==> '0' <= s[k] <= '9'
    ensures n < Pow10(|s|)
  {
    if s == [] then 0
    else 10 * DecimalValue(s[..|s| - 1]) + (s[|s| - 1] as int - '0' as int)
  }

  function Pow10(e: nat): (p: nat)
    ensures p >= 1
  {
    if e == 0 then 1 else 10 * Pow10(e - 1)
  }

  /** `str(n)` for a natural number: its decimal digits, most significant
      first, with no leading zero. */
  function DecimalString(n: nat): (s: string)
    ensures IsDigits(s)
    ensures s[0] != '0' || n == 0
    decreases n
  {
    if n < 10 then ['0' + n as char]
    else DecimalString(n / 10) + ['0' + (n % 10) as char]
  }

  /** `int(str(n)) == n`: parsing the decimal form gives the number back. */
  lemma {:induction false} DecimalRoundTrip(n: nat)
    ensures DecimalValue(DecimalString(n)) == n
    decreases n
  {
    if n >= 10 {
      var s := DecimalString(n);
      DecimalRoundTrip(n / 10);
      assert s[..|s| - 1] == DecimalString(n / 10);
    }
  }
}
