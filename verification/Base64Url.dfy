/**
 * The base64url helpers of the page cursor: the alphabet of section 5 of RFC 4648 without padding, built on the
 * platform's `btoa` and `atob`.
 */
module Base64Url {
  import opened Text

  type Byte = b: int | 0 <= b < 256
  type Sextet = v: int | 0 <= v < 64

  // ----- the alphabet -----

  function Letter(v: Sextet): (c: char)
    ensures !IsWhitespace(c) && c != '=' && c != '-' && c != '_'
  {
    if v < 26 then (v + 65) as char
    else if v < 52 then (v - 26 + 97) as char
    else if v < 62 then (v - 52 + 48) as char
    else if v == 62 then '+' else '/'
  }

  function Value(c: char): Option<Sextet> {
    if 'A' <= c <= 'Z' then Some(c as int - 65)
    else if 'a' <= c <= 'z' then Some(c as int - 97 + 26)
    else if '0' <= c <= '9' then Some(c as int - 48 + 52)
    else if c == '+' then Some(62)
    else if c == '/' then Some(63)
    else None
  }

  lemma LetterValue(v: Sextet)
    ensures Value(Letter(v)) == Some(v)
  {
  }

  function Letters(vs: seq<Sextet>): (s: string)
    ensures |s| == |vs| && forall k :: 0 <= k < |vs| ==> s[k] == Letter(vs[k])
  {
    seq(|vs|, k requires 0 <= k < |vs| => Letter(vs[k]))
  }

  function Values(s: string): (vs: Option<seq<Sextet>>)
    ensures vs.Some? ==> |vs.value| == |s| && forall k :: 0 <= k < |s| ==> Value(s[k]) == Some(vs.value[k])
    ensures vs.None? <==> exists k :: 0 <= k < |s| && Value(s[k]).None?
  {
    if s == "" then Some([])
    else
      var first, rest := Value(s[0]), Values(s[1..]);
      if first.None? then None
      else if rest.None? then
        var k :| 0 <= k < |s[1..]| && Value(s[1..][k]).None?;
        assert Value(s[k + 1]).None?;
        None
      else Some([first.value] + rest.value)
  }

  // ----- bytes in groups of three -----

  /** Three bytes as four groups of six bits. */
  function Group(a: Byte, b: Byte, c: Byte): (g: seq<Sextet>)
    ensures |g| == 4
  {
    [a / 4, a % 4 * 16 + b / 16, b % 16 * 4 + c / 64, c % 64]
  }

  function Pack(b: seq<Byte>): seq<Sextet> {
    if |b| == 0 then []
    else if |b| == 1 then [b[0] / 4, b[0] % 4 * 16]
    else if |b| == 2 then [b[0] / 4, b[0] % 4 * 16 + b[1] / 16, b[1] % 16 * 4]
    else Group(b[0], b[1], b[2]) + Pack(b[3..])
  }

  predicate InSextet(v: int) { 0 <= v < 64 }

  function First(v: int, w: int): Byte
    requires InSextet(v) && InSextet(w)
  {
    v * 4 + w / 16
  }

  function Second(v: int, w: int): Byte
    requires InSextet(v) && InSextet(w)
  {
    v % 16 * 16 + w / 4
  }

  function Third(v: int, w: int): Byte
    requires InSextet(v) && InSextet(w)
  {
    v % 4 * 64 + w
  }

  /** The bits that do not fill a byte are dropped. */
  function Unpack(v: seq<Sextet>): seq<Byte> {
    if |v| <= 1 then []
    else if |v| == 2 then [First(v[0], v[1])]
    else if |v| == 3 then [First(v[0], v[1]), Second(v[1], v[2])]
    else [First(v[0], v[1]), Second(v[1], v[2]), Third(v[2], v[3])] + Unpack(v[4..])
  }

  lemma GroupRoundTrip(a: Byte, b: Byte, c: Byte)
    ensures var g := Group(a, b, c); First(g[0], g[1]) == a && Second(g[1], g[2]) == b && Third(g[2], g[3]) == c
  {
  }

  lemma UnpackGroup(v: seq<Sextet>, rest: seq<Sextet>)
    requires |v| == 4
    ensures Unpack(v + rest) == [First(v[0], v[1]), Second(v[1], v[2]), Third(v[2], v[3])] + Unpack(rest)
  {
    hide First, Second, Third;
    assert (v + rest)[4..] == rest;
  }

  lemma UnpackShort(b: seq<Byte>)
    requires |b| < 3
    ensures Unpack(Pack(b)) == b && |Pack(b)| % 4 != 1
  {
    if |b| == 1 { GroupRoundTrip(b[0], 0, 0); }
    if |b| == 2 { GroupRoundTrip(b[0], b[1], 0); }
  }

  lemma {:induction false} UnpackPack(b: seq<Byte>)
    ensures Unpack(Pack(b)) == b && |Pack(b)| % 4 != 1
  {
    if |b| < 3 {
      UnpackShort(b);
    } else {
      hide First, Second, Third, Unpack, Group;
      UnpackPack(b[3..]);
      GroupRoundTrip(b[0], b[1], b[2]);
      UnpackGroup(Group(b[0], b[1], b[2]), Pack(b[3..]));
      assert b == [b[0], b[1], b[2]] + b[3..];
    }
  }

  // ----- btoa and atob -----

  function Padding(n: nat): string { if n % 4 == 2 then "==" else if n % 4 == 3 then "=" else "" }

  /** `btoa` on the characters of the given codes. */
  function Btoa(b: seq<Byte>): string { var s := Letters(Pack(b)); s + Padding(|s|) }

  predicate IsAsciiSpace(c: char) { c == '\t' || c == '\n' || c == '\U{c}' || c == '\r' || c == ' ' }

  function DropSpaces(s: string): string {
    if s == "" then "" else if IsAsciiSpace(s[0]) then DropSpaces(s[1..]) else [s[0]] + DropSpaces(s[1..])
  }

  function DropPadding(s: string): string {
    if |s| % 4 != 0 || s == "" || s[|s| - 1] != '=' then s
    else if s[|s| - 2] == '=' then s[..|s| - 2] else s[..|s| - 1]
  }

  /** `atob`, the forgiving decoder of the Infra standard; None when it throws. */
  function Atob(s: string): Option<seq<Byte>> {
    var data := DropPadding(DropSpaces(s));
    if |data| % 4 == 1 then None
    else
      var vs :- Values(data);
      Some(Unpack(vs))
  }

  // ----- the url alphabet -----

  function ToUrl(c: char): char { if c == '+' then '-' else if c == '/' then '_' else c }

  function FromUrl(c: char): char { if c == '-' then '+' else if c == '_' then '/' else c }

  function Map(f: char -> char, s: string): (t: string)
    ensures |t| == |s| && forall k :: 0 <= k < |s| ==> t[k] == f(s[k])
  {
    seq(|s|, k requires 0 <= k < |s| => f(s[k]))
  }

  function StripPadding(s: string): string { if s == "" || s[|s| - 1] != '=' then s else StripPadding(s[..|s| - 1]) }

  function Encode(b: seq<Byte>): string { StripPadding(Map(ToUrl, Btoa(b))) }

  function Decode(s: string): Option<seq<Byte>> { Atob(Map(FromUrl, s)) }

  predicate IsUrlSafe(c: char) { 'A' <= c <= 'Z' || 'a' <= c <= 'z' || '0' <= c <= '9' || c == '-' || c == '_' }

  lemma {:induction false} StripAll(s: string, pad: string)
    requires s == "" || s[|s| - 1] != '='
    requires forall k :: 0 <= k < |pad| ==> pad[k] == '='
    ensures StripPadding(s + pad) == s
  {
    if pad == "" {
      assert s + pad == s;
    } else {
      var t := s + pad;
      assert t[|t| - 1] == pad[|pad| - 1] && t[..|t| - 1] == s + pad[..|pad| - 1];
      StripAll(s, pad[..|pad| - 1]);
    }
  }

  lemma EncodeIs(b: seq<Byte>)
    ensures Encode(b) == Map(ToUrl, Letters(Pack(b)))
  {
    hide Pack;
    var s := Letters(Pack(b));
    var body, pad := Map(ToUrl, s), Map(ToUrl, Padding(|s|));
    assert Map(ToUrl, Btoa(b)) == body + pad;
    assert s != "" ==> body[|s| - 1] == ToUrl(s[|s| - 1]);
    StripAll(body, pad);
  }

  lemma {:induction false} NoSpaces(s: string)
    requires forall k :: 0 <= k < |s| ==> !IsAsciiSpace(s[k])
    ensures DropSpaces(s) == s
  {
    if s != "" { NoSpaces(s[1..]); }
  }

  lemma ValuesOfLetters(vs: seq<Sextet>)
    ensures Values(Letters(vs)) == Some(vs)
  {
    hide Letter, Value, Values;
    var s := Letters(vs);
    forall k | 0 <= k < |s| ensures Value(s[k]) == Some(vs[k]) { LetterValue(vs[k]); }
    assert Values(s).Some?;
    assert Values(s).value == vs;
  }

  /** Section 5 of RFC 4648: what is encoded decodes to itself, for every byte string. */
  lemma RoundTrip(b: seq<Byte>)
    ensures Decode(Encode(b)) == Some(b)
  {
    hide Pack, Unpack, Letter;
    EncodeIs(b);
    UnpackPack(b);
    var s := Letters(Pack(b));
    assert Map(FromUrl, Encode(b)) == s;
    forall k | 0 <= k < |s| ensures !IsAsciiSpace(s[k]) {
      assert s[k] == Letter(Pack(b)[k]);
    }
    NoSpaces(s);
    assert s != "" ==> s[|s| - 1] != '=';
    ValuesOfLetters(Pack(b));
  }

  /** A token needs no escaping in a query string. */
  lemma EncodeIsUrlSafe(b: seq<Byte>)
    ensures forall k :: 0 <= k < |Encode(b)| ==> IsUrlSafe(Encode(b)[k])
    ensures b != [] ==> Encode(b) != ""
  {
    hide Pack;
    EncodeIs(b);
    UnpackPack(b);
    var vs := Pack(b);
    forall k | 0 <= k < |Encode(b)| ensures IsUrlSafe(Encode(b)[k]) { assert Encode(b)[k] == ToUrl(Letter(vs[k])); }
    assert vs == [] ==> Unpack(vs) == [];
  }

  // ----- the helpers -----

  function Latin(b: seq<Byte>): (s: string)
    ensures |s| == |b| && forall k :: 0 <= k < |b| ==> s[k] as int == b[k]
  {
    seq(|b|, k requires 0 <= k < |b| => b[k] as char)
  }

  function Codes(s: string): (b: seq<Byte>)
    requires forall k :: 0 <= k < |s| ==> s[k] as int < 256
    ensures |b| == |s| && forall k :: 0 <= k < |s| ==> b[k] == s[k] as int
  {
    seq(|s|, k requires 0 <= k < |s| => s[k] as int)
  }

  /** `base64UrlEncode`. */
  method Base64UrlEncode(bytes: array<Byte>) returns (token: string)
    ensures token == Encode(bytes[..])
  {
    hide Btoa, StripPadding;
    var binary := "";
    for i := 0 to bytes.Length
      invariant |binary| == i && forall k :: 0 <= k < i ==> binary[k] as int == bytes[k]
    {
      binary := binary + [bytes[i] as char];
    }
    assert Codes(binary) == bytes[..];
    token := StripPadding(Map(ToUrl, Btoa(Codes(binary))));
  }

  /** `base64UrlDecode`; `ok` is false when `atob` throws. */
  method Base64UrlDecode(token: string) returns (ok: bool, bytes: array<Byte>)
    ensures Decode(token) == if ok then Some(bytes[..]) else None
  {
    hide Atob;
    var decoded := Atob(Map(FromUrl, token));
    if decoded.None? {
      bytes := new Byte[0];
      return false, bytes;
    }
    var binary := Latin(decoded.value);
    bytes := new Byte[|binary|](_ => 0);
    for i := 0 to |binary|
      invariant forall k :: 0 <= k < i ==> bytes[k] == binary[k] as int
    {
      bytes[i] := binary[i] as int;
    }
    assert bytes[..] == decoded.value;
    ok := true;
  }
}
