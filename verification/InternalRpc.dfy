/**
 The canonical strings of the signed internal envelopes (contract/internal-rpc.ts, contract/internal-api.ts,
 contract/internal-crypto.ts).
 */
module InternalRpc {
  import opened Text
  import opened Order

  /** An actor context as the codec carries it. */
  datatype Actor = Actor(requestId: string, profile: string)

  /** Cryptography, codecs and date parsing, taken as functions. */
  datatype Crypto = Crypto(
    hmac: (string, string) -> string,
    digest: string -> string,
    upper: string -> string,
    encodeActor: Actor -> string,
    decodeActor: string -> Option<Actor>,
    parseDate: string -> Option<int>)

  const NEWLINE: char := '\n'

  // ----- capabilities and paths -----

  function TrimAll(list: seq<string>): (r: seq<string>)
    ensures forall y :: y in r ==> y != "" && Trim(y) == y && exists x :: x in list && y == Trim(x)
    ensures forall x :: x in list && Trim(x) != "" ==> Trim(x) in r
  {
    if list == [] then []
    else
      var rest := TrimAll(list[1..]);
      assert list == [list[0]] + list[1..];
      TrimEnds(list[0]);
      TrimmedStays(Trim(list[0]));
      if Trim(list[0]) == "" then rest else [Trim(list[0])] + rest
  }

  /** `normalizeCapabilities`. */
  function NormalizeCapabilities(list: seq<string>): (r: seq<string>)
    ensures Sorted(r)
    ensures forall y :: y in r ==> y != "" && Trim(y) == y
    ensures forall y :: y in r <==> y != "" && exists x :: x in list && y == Trim(x)
  {
    SortUnique(TrimAll(list))
  }

  /** The set that a capability list stands for. */
  ghost function CapabilitySet(list: seq<string>): set<string> { set y | y in NormalizeCapabilities(list) }

  predicate CommaFree(list: seq<string>) { forall k :: 0 <= k < |list| ==> ',' !in list[k] }

  /** `parseCapabilities` of the header text. */
  function ParseCapabilities(header: string): seq<string> { TrimAll(Split(header, ',')) }

  function PathWithQuery(path: string, query: Option<string>): string {
    if query.None? || query.value == "" then path
    else
      var bare := if query.value[0] == '?' then query.value[1..] else query.value;
      if '?' !in path then path + "?" + bare else path + "&" + bare
  }

  lemma NormalizeMembers(list: seq<string>)
    requires Sorted(list) && forall y :: y in list ==> y != "" && Trim(y) == y
    ensures NormalizeCapabilities(list) == list
  {
    var r := NormalizeCapabilities(list);
    forall y ensures y in r <==> y in list {
      if y in list { assert Trim(y) in TrimAll(list); }
    }
    SortedByMembers(r, list);
  }

  lemma NormalizedCommaFree(list: seq<string>)
    requires CommaFree(list)
    ensures CommaFree(NormalizeCapabilities(list))
  {
    var r := NormalizeCapabilities(list);
    forall k | 0 <= k < |r| ensures ',' !in r[k] {
      assert r[k] in r && r[k] in TrimAll(list);
      var x :| x in list && r[k] == Trim(x);
      TrimEnds(x);
    }
  }

  /** Reading back the joined capabilities gives the same normalized list. */
  lemma CapabilitiesRoundTrip(list: seq<string>)
    requires CommaFree(list)
    ensures NormalizeCapabilities(ParseCapabilities(Join(NormalizeCapabilities(list), ',')))
            == NormalizeCapabilities(list)
  {
    var norm := NormalizeCapabilities(list);
    var header := Join(norm, ',');
    NormalizedCommaFree(list);
    if norm == [] {
      SplitOfJoin([""], ',');
      assert Split("", ',') == [""];
      TrimmedStays("");
      assert TrimAll([""]) == [];
    } else {
      SplitOfJoin(norm, ',');
      forall y ensures y in TrimAll(norm) <==> y in norm {
        if y in norm { assert Trim(y) in TrimAll(norm); }
      }
    }
    var again := NormalizeCapabilities(ParseCapabilities(header));
    SameMembersNormalize(norm, ParseCapabilities(header));
  }

  /** Without commas is exactly when the capabilities are read back as they were sent. */
  lemma ReadBackIffCommaFree(list: seq<string>)
    ensures NormalizeCapabilities(ParseCapabilities(Join(NormalizeCapabilities(list), ',')))
            == NormalizeCapabilities(list)
            <==> CommaFree(list)
  {
    hide NormalizeCapabilities, ParseCapabilities, Join;
    var norm := NormalizeCapabilities(list);
    if CommaFree(list) {
      CapabilitiesRoundTrip(list);
    } else {
      var k :| 0 <= k < |list| && ',' in list[k];
      TrimKeepsComma(list[k]);
      assert list[k] in list && Trim(list[k]) in norm;
      var j :| 0 <= j < |norm| && norm[j] == Trim(list[k]);
      ParsedAreCommaFree(Join(norm, ','));
    }
  }

  lemma TrimKeepsComma(s: string)
    requires ',' in s
    ensures ',' in Trim(s)
  {
    var k :| 0 <= k < |s| && s[k] == ',';
    var from := SkipWhile(s, 0, |s|, IsWhitespace);
    var till := SkipBack(s, |s|, from, IsWhitespace);
    assert !IsWhitespace(s[k]);
    assert from <= k < till;
    assert s[from..till][k - from] == ',';
  }

  lemma ParsedAreCommaFree(header: string)
    ensures CommaFree(NormalizeCapabilities(ParseCapabilities(header)))
  {
    var parts := Split(header, ',');
    var parsed := ParseCapabilities(header);
    forall k | 0 <= k < |parsed| ensures ',' !in parsed[k] {
      assert parsed[k] in parsed;
      var x :| x in parts && parsed[k] == Trim(x);
      TrimEnds(x);
    }
    NormalizedCommaFree(parsed);
  }

  lemma SameMembersNormalize(norm: seq<string>, list: seq<string>)
    requires Sorted(norm) && forall y :: y in norm ==> y != "" && Trim(y) == y
    requires forall y :: y in list <==> y in norm
    ensures NormalizeCapabilities(list) == norm
  {
    var r := NormalizeCapabilities(list);
    forall y ensures y in r <==> y in norm {
      if y in norm { assert Trim(y) in TrimAll(list); }
    }
    SortedByMembers(r, norm);
  }

  /** Joined capability lists without commas are equal exactly when the lists are. */
  lemma JoinedCapabilities(a: seq<string>, b: seq<string>)
    requires CommaFree(a) && CommaFree(b)
    requires forall y :: y in a ==> y != ""
    requires forall y :: y in b ==> y != ""
    ensures Join(a, ',') == Join(b, ',') <==> a == b
  {
    if a != [] { SplitOfJoin(a, ','); assert a[0] in a; }
    if b != [] { SplitOfJoin(b, ','); assert b[0] in b; }
    JoinedNonEmpty(a);
    JoinedNonEmpty(b);
  }

  lemma JoinedNonEmpty(a: seq<string>)
    requires forall y :: y in a ==> y != ""
    ensures a != [] ==> Join(a, ',') != ""
  {
    if a != [] { assert a[0] in a; }
  }

  // ----- canonical strings -----

  predicate LineFree(s: string) { '\n' !in s && '\r' !in s }

  predicate AllLineFree(fields: seq<string>) { forall k :: 0 <= k < |fields| ==> LineFree(fields[k]) }

  /** `assertNoCanonicalDelimiter` as the loop it is. */
  method NoCanonicalDelimiter(fields: seq<string>) returns (ok: bool)
    ensures ok <==> AllLineFree(fields)
  {
    for k := 0 to |fields|
      invariant forall j :: 0 <= j < k ==> LineFree(fields[j])
    {
      if '\n' in fields[k] || '\r' in fields[k] { return false; }
    }
    ok := true;
  }

  const RPC_VERSION := "takosumi-internal"
  const RESPONSE_VERSION := "takosumi-internal-response-v1"

  datatype Request = Request(
    verb: string, path: string, query: Option<string>, bodyDigest: string, actorHeader: string,
    caller: string, audience: string, capabilities: seq<string>, requestId: string, nonce: string, timestamp: string)

  function RequestFields(c: Crypto, r: Request): seq<string> {
    [RPC_VERSION, c.upper(r.verb), PathWithQuery(r.path, r.query), r.timestamp, r.requestId, r.nonce,
     r.caller, r.audience, Join(NormalizeCapabilities(r.capabilities), ','), r.bodyDigest, r.actorHeader]
  }

  /** `canonicalTakosumiInternalRequest`; None is the TypeError for a newline in a field. */
  function CanonicalRequest(c: Crypto, r: Request): Option<string> {
    if AllLineFree(RequestFields(c, r)) then Some(Join(RequestFields(c, r), NEWLINE)) else None
  }

  /** What a canonical request binds. */
  datatype Bound = Bound(verb: string, target: string, timestamp: string, requestId: string, nonce: string,
                         caller: string, audience: string, capabilities: set<string>, bodyDigest: string,
                           actorHeader: string)

  ghost function BoundOf(c: Crypto, r: Request): Bound {
    Bound(c.upper(r.verb), PathWithQuery(r.path, r.query), r.timestamp, r.requestId, r.nonce,
          r.caller, r.audience, CapabilitySet(r.capabilities), r.bodyDigest, r.actorHeader)
  }

  lemma FieldsOfCanonical(fields: seq<string>)
    requires fields != [] && AllLineFree(fields)
    ensures Split(Join(fields, NEWLINE), NEWLINE) == fields
  {
    SplitOfJoin(fields, NEWLINE);
  }

  /**
   Canonical requests are equal exactly when they bind the same values and the same joined capabilities; without commas
   inside them the joined capabilities are the capability set.
   */
  lemma CanonicalRequestInjective(c: Crypto, a: Request, b: Request)
    requires CanonicalRequest(c, a).Some? && CanonicalRequest(c, b).Some?
    ensures CanonicalRequest(c, a) == CanonicalRequest(c, b) <==>
              && BoundOf(c, a).(capabilities := {}) == BoundOf(c, b).(capabilities := {})
              && Join(NormalizeCapabilities(a.capabilities), ',') == Join(NormalizeCapabilities(b.capabilities), ',')
    ensures CommaFree(a.capabilities) && CommaFree(b.capabilities) ==>
              (CanonicalRequest(c, a) == CanonicalRequest(c, b) <==> BoundOf(c, a) == BoundOf(c, b))
  {
    hide Join, Split, NormalizeCapabilities, PathWithQuery, CapabilitySet, CommaFree;
    var fa, fb := RequestFields(c, a), RequestFields(c, b);
    FieldsOfCanonical(fa);
    FieldsOfCanonical(fb);
    assert CanonicalRequest(c, a) == CanonicalRequest(c, b) <==> fa == fb;
    assert fa == fb <==> forall k :: 0 <= k < 11 ==> fa[k] == fb[k];
    if CommaFree(a.capabilities) && CommaFree(b.capabilities) {
      NormalizedCommaFree(a.capabilities);
      NormalizedCommaFree(b.capabilities);
      JoinedCapabilities(NormalizeCapabilities(a.capabilities), NormalizeCapabilities(b.capabilities));
      CapabilitySetsEqual(a.capabilities, b.capabilities);
    }
  }

  lemma CapabilitySetsEqual(a: seq<string>, b: seq<string>)
    ensures CapabilitySet(a) == CapabilitySet(b) <==> NormalizeCapabilities(a) == NormalizeCapabilities(b)
  {
    hide NormalizeCapabilities;
    if CapabilitySet(a) == CapabilitySet(b) {
      forall y ensures y in NormalizeCapabilities(a) <==> y in NormalizeCapabilities(b) {
        assert y in CapabilitySet(a) <==> y in NormalizeCapabilities(a);
        assert y in CapabilitySet(b) <==> y in NormalizeCapabilities(b);
      }
      SortedByMembers(NormalizeCapabilities(a), NormalizeCapabilities(b));
    }
  }

  /** A comma inside a capability makes two different capability sets sign alike. */
  lemma CommaCollides(c: Crypto, r: Request)
    ensures var one, two := r.(capabilities := ["a,b"]), r.(capabilities := ["a", "b"]);
            && CanonicalRequest(c, one) == CanonicalRequest(c, two)
            && (CanonicalRequest(c, r).Some? ==> CanonicalRequest(c, one).Some?)
            && CapabilitySet(one.capabilities) != CapabilitySet(two.capabilities)
  {
    hide Join, NormalizeCapabilities, PathWithQuery, AllLineFree;
    ExampleCapabilities();
    var one, two := r.(capabilities := ["a,b"]), r.(capabilities := ["a", "b"]);
    assert RequestFields(c, one) == RequestFields(c, two);
    OtherCapabilitiesLineFree(c, r, one);
    assert "a" in CapabilitySet(["a", "b"]) && "a" !in CapabilitySet(["a,b"]) by { DifferentSets(); }
  }

  lemma OtherCapabilitiesLineFree(c: Crypto, r: Request, s: Request)
    requires s == r.(capabilities := s.capabilities) && LineFree(Join(NormalizeCapabilities(s.capabilities), ','))
    ensures CanonicalRequest(c, r).Some? ==> CanonicalRequest(c, s).Some?
  {
    hide Join, NormalizeCapabilities, PathWithQuery, LineFree;
    assert forall k :: 0 <= k < 11 && k != 8 ==> RequestFields(c, s)[k] == RequestFields(c, r)[k];
  }

  lemma DifferentSets()
    ensures "a" in CapabilitySet(["a", "b"]) && "a" !in CapabilitySet(["a,b"])
  {
    hide NormalizeCapabilities;
    ExampleCapabilities();
    assert |"a"| != |"a,b"|;
  }

  lemma ExampleCapabilities()
    ensures NormalizeCapabilities(["a,b"]) == ["a,b"] && NormalizeCapabilities(["a", "b"]) == ["a", "b"]
    ensures Join(["a", "b"], ',') == "a,b" && Join(["a,b"], ',') == "a,b"
  {
    TrimmedStays("a,b");
    TrimmedStays("a");
    TrimmedStays("b");
    assert TrimAll(["a,b"]) == ["a,b"] by { assert ["a,b"][1..] == []; }
    assert TrimAll(["a", "b"]) == ["a", "b"] by { assert ["a", "b"][1..] == ["b"] && ["b"][1..] == []; }
    assert SortUnique(["b"]) == ["b"] by { assert ["b"][1..] == []; }
    assert SortUnique(["a", "b"]) == ["a", "b"] by { assert ["a", "b"][1..] == ["b"]; }
    assert SortUnique(["a,b"]) == ["a,b"] by { assert ["a,b"][1..] == []; }
    assert Join(["a", "b"], ',') == "a,b" by { assert ["a", "b"][1..] == ["b"]; }
  }

  datatype Response = Response(verb: string, path: string, status: nat, timestamp: string, requestId: string,
                               body: string)

  function ResponsePrefix(c: Crypto, r: Response): seq<string> {
    [RESPONSE_VERSION, c.upper(r.verb), r.path, Decimal(r.status), r.timestamp, r.requestId]
  }

  /** `canonicalInternalResponse`: only the prefix is guarded, the body may hold newlines. */
  function CanonicalResponse(c: Crypto, r: Response): Option<string> {
    if AllLineFree(ResponsePrefix(c, r)) then Some(Join(ResponsePrefix(c, r) + [r.body], NEWLINE)) else None
  }

  /** Cutting at the first newline is unambiguous. */
  lemma CutFirst(a: string, x: string, b: string, y: string)
    requires NEWLINE !in a && NEWLINE !in b && a + [NEWLINE] + x == b + [NEWLINE] + y
    ensures a == b && x == y
  {
    FindIn(a, NEWLINE, x);
    FindIn(b, NEWLINE, y);
    var s := a + [NEWLINE] + x;
    assert s[..|a|] == a && s[|a| + 1..] == x;
    assert s[..|b|] == b && s[|b| + 1..] == y;
  }

  /** A guarded prefix of known length and an arbitrary last field are recovered from the joined string. */
  lemma {:induction false} PrefixInjective(a: seq<string>, x: string, b: seq<string>, y: string)
    requires |a| == |b| && AllLineFree(a) && AllLineFree(b)
    requires Join(a + [x], NEWLINE) == Join(b + [y], NEWLINE)
    ensures a == b && x == y
    decreases |a|
  {
    if a == [] {
      assert a + [x] == [x] && b + [y] == [y];
    } else {
      assert a + [x] == [a[0]] + (a[1..] + [x]) && b + [y] == [b[0]] + (b[1..] + [y]);
      JoinCons(a[0], a[1..] + [x], NEWLINE);
      JoinCons(b[0], b[1..] + [y], NEWLINE);
      assert LineFree(a[0]) && LineFree(b[0]);
      CutFirst(a[0], Join(a[1..] + [x], NEWLINE), b[0], Join(b[1..] + [y], NEWLINE));
      PrefixInjective(a[1..], x, b[1..], y);
      assert a == [a[0]] + a[1..] && b == [b[0]] + b[1..];
    }
  }

  lemma CanonicalResponseInjective(c: Crypto, a: Response, b: Response)
    requires CanonicalResponse(c, a).Some? && CanonicalResponse(c, a) == CanonicalResponse(c, b)
    ensures c.upper(a.verb) == c.upper(b.verb) && a.(verb := b.verb) == b
  {
    hide Join, Decimal;
    PrefixInjective(ResponsePrefix(c, a), a.body, ResponsePrefix(c, b), b.body);
    var pa, pb := ResponsePrefix(c, a), ResponsePrefix(c, b);
    assert pa[1] == pb[1] && pa[2] == pb[2] && pa[3] == pb[3] && pa[4] == pb[4] && pa[5] == pb[5];
    DecimalRoundTrip(a.status);
    DecimalRoundTrip(b.status);
  }

  /** A signed request string is never a signed response string. */
  lemma RequestIsNotResponse(c: Crypto, a: Request, b: Response)
    requires CanonicalRequest(c, a).Some? && CanonicalResponse(c, b).Some?
    ensures CanonicalRequest(c, a) != CanonicalResponse(c, b)
  {
    hide Join, PathWithQuery, NormalizeCapabilities, Decimal;
    var fa, fb := RequestFields(c, a), ResponsePrefix(c, b) + [b.body];
    assert fa == [RPC_VERSION] + fa[1..] && fb == [RESPONSE_VERSION] + fb[1..];
    JoinCons(RPC_VERSION, fa[1..], NEWLINE);
    JoinCons(RESPONSE_VERSION, fb[1..], NEWLINE);
    var s, t := Join(fa, NEWLINE), Join(fb, NEWLINE);
    assert |RPC_VERSION| == 17 && s[17] == NEWLINE;
    assert RESPONSE_VERSION[17] == '-' && t[17] == '-';
  }
}
