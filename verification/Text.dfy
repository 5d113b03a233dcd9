/**
 Sequence helpers shared by the models: substring search, joining and splitting,
 and the lexicographic order that JavaScript uses on strings.
 */
module Text {

  /** A value that may be missing; None also stands for a thrown error. */
  datatype Option<+T> = None | Some(value: T)
  {
    predicate IsFailure() { None? }

    function PropagateFailure<U>(): Option<U>
      requires None?
    {
      None
    }

    function Extract(): T
      requires Some?
    {
      value
    }
  }

  /** Pattern `p` occurs in `s` at position `k`. */
  predicate At(s: string, p: string, k: int) {
    0 <= k && k + |p| <= |s| && s[k..k + |p|] == p
  }

  /** String.prototype.indexOf: the first occurrence at or after `from`, or -1. */
  function IndexOf(s: string, p: string, from: nat): (r: int)
    ensures r == -1 || (from <= r && At(s, p, r))
    ensures forall k :: from <= k && (r < 0 || k < r) ==> !At(s, p, k)
    decreases |s| - from
  {
    if from + |p| > |s| then -1
    else if At(s, p, from) then from
    else if from == |s| then -1
    else IndexOf(s, p, from + 1)
  }

  /** A search result stays the answer for every later start it does not precede. */
  lemma IndexOfLater(s: string, p: string, from: nat, later: nat)
    requires from <= later
    requires IndexOf(s, p, from) < 0 || later <= IndexOf(s, p, from)
    ensures IndexOf(s, p, later) == IndexOf(s, p, from)
  {
    var a, b := IndexOf(s, p, from), IndexOf(s, p, later);
    if b >= 0 { assert At(s, p, b); }
    if a >= 0 { assert At(s, p, a); }
  }

  // ----- scanning -----

  /** The ECMAScript `\s` class. */
  predicate IsWhitespace(c: char) {
    var u := c as int;
    || 9 <= u <= 13 || u == 0x20 || u == 0xA0 || u == 0x1680 || 0x2000 <= u <= 0x200A
    || u == 0x2028 || u == 0x2029 || u == 0x202F || u == 0x205F || u == 0x3000 || u == 0xFEFF
  }

  /** `while (i < limit && p(value[i])) i += 1`. */
  function SkipWhile(value: string, i: nat, limit: nat, p: char -> bool): (j: nat)
    requires limit <= |value|
    ensures i <= j && (i <= limit ==> j <= limit) && (i >= limit ==> j == i)
    ensures forall k :: i <= k < j ==> p(value[k])
    ensures j < limit ==> !p(value[j])
    decreases limit - i
  {
    if i < limit && p(value[i]) then SkipWhile(value, i + 1, limit, p) else i
  }

  /** `while (i > low && p(value[i - 1])) i -= 1`. */
  function SkipBack(value: string, i: nat, low: nat, p: char -> bool): (j: nat)
    requires low <= i <= |value|
    ensures low <= j <= i
    ensures forall k :: j <= k < i ==> p(value[k])
    ensures j > low ==> !p(value[j - 1])
    decreases i
  {
    if i > low && p(value[i - 1]) then SkipBack(value, i - 1, low, p) else i
  }

  lemma {:induction false} SkipExact(value: string, i: nat, limit: nat, p: char -> bool, j: nat)
    requires i <= j <= limit <= |value|
    requires forall k :: i <= k < j ==> p(value[k])
    requires j == limit || !p(value[j])
    ensures SkipWhile(value, i, limit, p) == j
    decreases j - i
  {
    if i < j { SkipExact(value, i + 1, limit, p, j); }
  }

  /** String.prototype.trim. */
  function Trim(s: string): string {
    var from := SkipWhile(s, 0, |s|, IsWhitespace);
    s[from..SkipBack(s, |s|, from, IsWhitespace)]
  }

  predicate IsInk(c: char) { !IsWhitespace(c) }

  lemma TrimmedStays(s: string)
    requires s == "" || (IsInk(s[0]) && IsInk(s[|s| - 1]))
    ensures Trim(s) == s
  {
    assert SkipWhile(s, 0, |s|, IsWhitespace) == 0;
    assert SkipBack(s, |s|, 0, IsWhitespace) == |s|;
  }

  /** Trimmed text starts and ends with ink. */
  lemma TrimEnds(s: string)
    ensures Trim(s) != "" ==> IsInk(Trim(s)[0]) && IsInk(Trim(s)[|Trim(s)| - 1])
    ensures forall c :: c in Trim(s) ==> c in s
  {
    var from := SkipWhile(s, 0, |s|, IsWhitespace);
    var to := SkipBack(s, |s|, from, IsWhitespace);
    assert Trim(s) == s[from..to];
    if from < to {
      assert s[from..to][0] == s[from] && s[from..to][to - from - 1] == s[to - 1];
    }
  }

  // ----- join and split -----

  function Join(parts: seq<string>, sep: char): string {
    if parts == [] then ""
    else if |parts| == 1 then parts[0]
    else parts[0] + [sep] + Join(parts[1..], sep)
  }

  /** The first position of `c`, or the length. */
  function Find(s: string, c: char): (k: nat)
    ensures k <= |s| && c !in s[..k] && (k < |s| ==> s[k] == c)
  {
    if s == "" then 0
    else if s[0] == c then 0
    else
      var k := Find(s[1..], c) + 1;
      assert s[..k] == [s[0]] + s[1..][..k - 1];
      k
  }

  /** String.prototype.split with a one-character separator. */
  function Split(s: string, sep: char): (parts: seq<string>)
    ensures parts != []
    ensures forall k :: 0 <= k < |parts| ==> sep !in parts[k]
  {
    var k := Find(s, sep);
    if k == |s| then assert s[..k] == s; [s] else [s[..k]] + Split(s[k + 1..], sep)
  }

  lemma FindIn(a: string, c: char, b: string)
    requires c !in a
    ensures Find(a + [c] + b, c) == |a|
    ensures Find(a, c) == |a|
  {
    if a != "" {
      FindIn(a[1..], c, b);
      assert (a + [c] + b)[1..] == a[1..] + [c] + b;
    }
  }

  lemma {:induction false} SplitOfJoin(parts: seq<string>, sep: char)
    requires parts != [] && forall k :: 0 <= k < |parts| ==> sep !in parts[k]
    ensures Split(Join(parts, sep), sep) == parts
  {
    if |parts| == 1 {
      FindIn(parts[0], sep, "");
    } else {
      var rest := Join(parts[1..], sep);
      FindIn(parts[0], sep, rest);
      SplitOfJoin(parts[1..], sep);
      assert Join(parts, sep)[|parts[0]| + 1..] == rest;
      assert Join(parts, sep)[..|parts[0]|] == parts[0];
    }
  }

  lemma {:induction false} JoinOfSplit(s: string, sep: char)
    ensures Join(Split(s, sep), sep) == s
    decreases |s|
  {
    var k := Find(s, sep);
    if k < |s| {
      var rest := Split(s[k + 1..], sep);
      JoinOfSplit(s[k + 1..], sep);
      JoinCons(s[..k], rest, sep);
      assert s == s[..k] + [sep] + s[k + 1..];
    }
  }

  lemma JoinCons(first: string, rest: seq<string>, sep: char)
    requires rest != []
    ensures Join([first] + rest, sep) == first + [sep] + Join(rest, sep)
  {
    assert ([first] + rest)[1..] == rest;
  }

  // ----- decimal numbers -----

  predicate IsDigit(c: char) { '0' <= c <= '9' }

  predicate IsDigits(s: string) { s != "" && forall k :: 0 <= k < |s| ==> IsDigit(s[k]) }

  function DigitChar(d: nat): (c: char)
    requires d < 10
    ensures IsDigit(c)
  {
    ('0' as int + d) as char
  }

  /** Canonical decimal text. */
  function Decimal(n: nat): (s: string)
    ensures IsDigits(s)
  {
    if n < 10 then [DigitChar(n)] else Decimal(n / 10) + [DigitChar(n % 10)]
  }

  function Pow10(n: nat): nat { if n == 0 then 1 else 10 * Pow10(n - 1) }

  /** The number a digit string denotes; leading zeros are allowed. */
  function DecimalValue(s: string): nat
    requires forall k :: 0 <= k < |s| ==> IsDigit(s[k])
  {
    if s == "" then 0
    else
      assert IsDigit(s[|s| - 1]);
      DecimalValue(s[..|s| - 1]) * 10 + (s[|s| - 1] as int - '0' as int)
  }

  lemma {:induction false} DecimalRoundTrip(n: nat)
    ensures DecimalValue(Decimal(n)) == n
  {
    var s := Decimal(n);
    if n < 10 {
      assert s[..0] == "";
    } else {
      DecimalRoundTrip(n / 10);
      assert s[..|s| - 1] == Decimal(n / 10);
    }
  }
}
