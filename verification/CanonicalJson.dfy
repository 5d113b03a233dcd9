/**
 Canonical JSON (`stableJson` of contract/background-events.ts): a text that depends only on the
 JSON data a value denotes, and that determines it.
 */
module CanonicalJson {
  import opened Text
  import opened Order

  // ----- JSON data -----

  /** JSON data; the members of an object are listed by key. Numbers are identified by their JSON text. */
  datatype Json =
    | JNull
    | JBool(truth: bool)
    | JNumber(digits: string)
    | JString(chars: string)
    | JArray(items: seq<Json>)
    | JObject(members: seq<Entry<Json>>)

  datatype Entry<T> = Entry(key: string, value: T)

  predicate IsNumberChar(c: char) { IsDigit(c) || c == '-' || c == '+' || c == '.' || c == 'e' || c == 'E' }

  /** The shape of every finite number's JSON text. */
  predicate IsNumberText(s: string) {
    s != "" && (IsDigit(s[0]) || s[0] == '-') && forall k :: 0 <= k < |s| ==> IsNumberChar(s[k])
  }

  /** Every number in the data has the shape of a number. */
  predicate Lexical(j: Json)
    decreases j, 1
  {
    match j
    case JNumber(s) => IsNumberText(s)
    case JArray(items) => LexicalItems(items)
    case JObject(members) => LexicalMembers(members)
    case _ => true
  }

  predicate LexicalItems(items: seq<Json>)
    decreases items, 0
  {
    items == [] || (Lexical(items[0]) && LexicalItems(items[1..]))
  }

  predicate LexicalMembers(members: seq<Entry<Json>>)
    decreases members, 0
  {
    members == [] || (Lexical(members[0].value) && LexicalMembers(members[1..]))
  }

  // ----- rendering -----

  function HexDigit(d: nat): char
    requires d < 16
  {
    if d < 10 then ('0' as int + d) as char else ('a' as int + d - 10) as char
  }

  /** One character inside a JSON string. */
  function Escape(c: char): (s: string)
    ensures s != "" && s[0] != '"'
  {
    if c == '"' then "\\\"" else if c == '\\' then "\\\\"
    else if c as int == 8 then "\\b" else if c as int == 12 then "\\f"
    else if c == '\n' then "\\n" else if c == '\r' then "\\r" else if c == '\t' then "\\t"
    else if c as int < 32 then "\\u00" + [HexDigit(c as int / 16), HexDigit(c as int % 16)]
    else [c]
  }

  function EscapeAll(s: string): string { if s == "" then "" else Escape(s[0]) + EscapeAll(s[1..]) }

  /** JSON.stringify of a string. */
  function Quote(s: string): string { "\"" + EscapeAll(s) + "\"" }

  function Render(j: Json): string
    decreases j, 1
  {
    match j
    case JNull => "null"
    case JBool(b) => if b then "true" else "false"
    case JNumber(s) => s
    case JString(s) => Quote(s)
    case JArray(items) => if items == [] then "[]" else "[" + Render(items[0]) + RenderItems(items[1..]) + "]"
    case JObject(members) => if members == [] then "{}"
      else "{" + RenderMember(members[0]) + RenderMembers(members[1..]) + "}"
  }

  function RenderItems(items: seq<Json>): string
    decreases items, 0
  {
    if items == [] then "" else "," + Render(items[0]) + RenderItems(items[1..])
  }

  function RenderMember(m: Entry<Json>): string
    decreases m, 2
  {
    Quote(m.key) + ":" + Render(m.value)
  }

  function RenderMembers(members: seq<Entry<Json>>): string
    decreases members, 0
  {
    if members == [] then "" else "," + RenderMember(members[0]) + RenderMembers(members[1..])
  }

  // ----- rendering is injective -----

  /** What may follow a value: nothing, or a character that ends it. */
  predicate Stops(x: string) { x == "" || x[0] == ',' || x[0] == ']' || x[0] == '}' }

  lemma EscapeCut(a: char, p: string, b: char, q: string)
    requires Escape(a) + p == Escape(b) + q
    ensures a == b && p == q
  {
    var s := Escape(a) + p;
    assert s[0] == Escape(a)[0] == Escape(b)[0];
    if s[0] == '\\' {
      assert s[1] == Escape(a)[1] == Escape(b)[1];
      if s[1] == 'u' {
        assert s[4] == Escape(a)[4] == Escape(b)[4] && s[5] == Escape(a)[5] == Escape(b)[5];
        assert a as int / 16 == b as int / 16 && a as int % 16 == b as int % 16;
      }
    }
    assert a == b;
    assert s[|Escape(a)|..] == p && s[|Escape(b)|..] == q;
  }

  lemma EscapedHead(t: string, y: string)
    ensures (EscapeAll(t) + "\"" + y)[0] == '"' <==> t == ""
  {
    hide Escape;
    if t != "" { assert (EscapeAll(t) + "\"" + y)[0] == Escape(t[0])[0]; }
  }

  lemma {:induction false} EscapedCut(s: string, x: string, t: string, y: string)
    requires EscapeAll(s) + "\"" + x == EscapeAll(t) + "\"" + y
    ensures s == t && x == y
    decreases |s|
  {
    hide Escape;
    var all := EscapeAll(s) + "\"" + x;
    EscapedHead(s, x);
    EscapedHead(t, y);
    if s == "" {
      assert all[1..] == x && all[1..] == y;
    } else {
      assert all == Escape(s[0]) + (EscapeAll(s[1..]) + "\"" + x);
      assert all == Escape(t[0]) + (EscapeAll(t[1..]) + "\"" + y);
      EscapeCut(s[0], EscapeAll(s[1..]) + "\"" + x, t[0], EscapeAll(t[1..]) + "\"" + y);
      EscapedCut(s[1..], x, t[1..], y);
      assert s == [s[0]] + s[1..] && t == [t[0]] + t[1..];
    }
  }

  lemma QuoteCut(s: string, x: string, t: string, y: string)
    requires Quote(s) + x == Quote(t) + y
    ensures s == t && x == y
  {
    hide EscapeAll;
    assert (Quote(s) + x)[1..] == EscapeAll(s) + "\"" + x;
    assert (Quote(t) + y)[1..] == EscapeAll(t) + "\"" + y;
    EscapedCut(s, x, t, y);
  }

  lemma NumberSpan(s: string, x: string)
    requires Stops(x) && forall k :: 0 <= k < |s| ==> IsNumberChar(s[k])
    ensures SkipWhile(s + x, 0, |s + x|, IsNumberChar) == |s|
    ensures (s + x)[..|s|] == s && (s + x)[|s|..] == x
  {
    SkipExact(s + x, 0, |s + x|, IsNumberChar, |s|);
  }

  lemma NumberCut(s: string, x: string, t: string, y: string)
    requires IsNumberText(s) && IsNumberText(t)
    requires Stops(x) && Stops(y) && s + x == t + y
    ensures s == t && x == y
  {
    NumberSpan(s, x);
    NumberSpan(t, y);
  }

  /** The first character of a rendered value tells its kind and never ends one. */
  predicate HeadFits(j: Json, c: char) {
    match j
    case JNull => c == 'n'
    case JBool(b) => c == if b then 't' else 'f'
    case JNumber(_) => IsDigit(c) || c == '-'
    case JString(_) => c == '"'
    case JArray(_) => c == '['
    case JObject(_) => c == '{'
  }

  lemma RenderHead(j: Json, x: string)
    requires Lexical(j)
    ensures Render(j) != "" && HeadFits(j, (Render(j) + x)[0])
  {
    hide Quote, RenderItems, RenderMember, RenderMembers;
    match j
    case JString(s) => assert Quote(s)[0] == '"' by { QuoteHead(s); }
    case _ =>
  }

  lemma QuoteHead(s: string)
    ensures Quote(s) != "" && Quote(s)[0] == '"'
  {
  }

  /** Equal texts that end alike come from equal data and leave equal rests. */
  lemma {:induction false} RenderCut(a: Json, x: string, b: Json, y: string)
    requires Lexical(a) && Lexical(b) && Stops(x) && Stops(y)
    requires Render(a) + x == Render(b) + y
    ensures a == b && x == y
    decreases a, 1
  {
    hide Quote, IsNumberText, RenderMember, RenderMembers, RenderItems;
    RenderHead(a, x);
    RenderHead(b, y);
    match a
    case JNull => DropHead("null", x, y);
    case JBool(t) => DropHead(if t then "true" else "false", x, y);
    case JNumber(s) => NumberCut(s, x, b.digits, y);
    case JString(s) => QuoteCut(s, x, b.chars, y);
    case JArray(items) => ArrayCut(items, x, b.items, y);
    case JObject(members) => ObjectCut(members, x, b.members, y);
  }

  lemma DropHead(h: string, x: string, y: string)
    requires h + x == h + y
    ensures x == y
  {
    assert x == (h + x)[|h|..] && y == (h + y)[|h|..];
  }

  /** An array's text without its opening bracket. */
  function ArrayBody(items: seq<Json>, x: string): string
    decreases items, 2
  {
    if items == [] then "]" + x else Render(items[0]) + (RenderItems(items[1..]) + ("]" + x))
  }

  lemma ArrayBodyIs(items: seq<Json>, x: string)
    ensures Render(JArray(items)) + x == "[" + ArrayBody(items, x)
    ensures items == [] ==> ArrayBody(items, x) == "]" + x
    ensures items != [] ==> ArrayBody(items, x) == Render(items[0]) + (RenderItems(items[1..]) + ("]" + x))
  {
    hide RenderItems;
    if items != [] { Regroup4("[", Render(items[0]), RenderItems(items[1..]), "]", x); }
  }

  lemma Regroup4(a: string, b: string, c: string, d: string, e: string)
    ensures a + b + c + d + e == a + (b + (c + (d + e)))
    ensures a + b + c + d == a + (b + (c + d))
    ensures a + b + c == a + (b + c)
  {
  }

  lemma {:induction false} ArrayCut(a: seq<Json>, x: string, b: seq<Json>, y: string)
    requires LexicalItems(a) && LexicalItems(b) && Stops(x) && Stops(y)
    requires Render(JArray(a)) + x == Render(JArray(b)) + y
    ensures a == b && x == y
    decreases a, 0
  {
    hide RenderItems, Render, ArrayBody;
    ArrayBodyIs(a, x);
    ArrayBodyIs(b, y);
    DropHead("[", ArrayBody(a, x), ArrayBody(b, y));
    if a != [] { RenderHead(a[0], RenderItems(a[1..]) + ("]" + x)); }
    if b != [] { RenderHead(b[0], RenderItems(b[1..]) + ("]" + y)); }
    if a == [] {
      DropHead("]", x, y);
    } else {
      ItemsStop(a[1..], x);
      ItemsStop(b[1..], y);
      RenderCut(a[0], RenderItems(a[1..]) + ("]" + x), b[0], RenderItems(b[1..]) + ("]" + y));
      ItemsCut(a[1..], x, b[1..], y);
      assert a == [a[0]] + a[1..] && b == [b[0]] + b[1..];
    }
  }

  lemma ItemsStop(items: seq<Json>, x: string)
    ensures var s := RenderItems(items) + ("]" + x); Stops(s) && (items == [] <==> s[0] == ']')
    ensures items == [] ==> RenderItems(items) + ("]" + x) == "]" + x
    ensures items != [] ==>
              RenderItems(items) + ("]" + x) == "," + (Render(items[0]) + (RenderItems(items[1..]) + ("]" + x)))
  {
    hide Render;
    if items != [] { Regroup4(",", Render(items[0]), RenderItems(items[1..]), "]" + x, ""); }
  }

  lemma {:induction false} ItemsCut(a: seq<Json>, x: string, b: seq<Json>, y: string)
    requires LexicalItems(a) && LexicalItems(b) && Stops(x) && Stops(y)
    requires RenderItems(a) + ("]" + x) == RenderItems(b) + ("]" + y)
    ensures a == b && x == y
    decreases a, 0
  {
    hide RenderItems, Render;
    ItemsStop(a, x);
    ItemsStop(b, y);
    if a == [] {
      DropHead("]", x, y);
    } else {
      var p, q := RenderItems(a[1..]) + ("]" + x), RenderItems(b[1..]) + ("]" + y);
      DropHead(",", Render(a[0]) + p, Render(b[0]) + q);
      ItemsStop(a[1..], x);
      ItemsStop(b[1..], y);
      RenderCut(a[0], p, b[0], q);
      ItemsCut(a[1..], x, b[1..], y);
      assert a == [a[0]] + a[1..] && b == [b[0]] + b[1..];
    }
  }

  lemma MembersStop(members: seq<Entry<Json>>, x: string)
    ensures var s := RenderMembers(members) + ("}" + x); Stops(s) && (members == [] <==> s[0] == '}')
    ensures members == [] ==> RenderMembers(members) + ("}" + x) == "}" + x
    ensures members != [] ==>
              RenderMembers(members) + ("}" + x)
                == "," + (RenderMember(members[0]) + (RenderMembers(members[1..]) + ("}" + x)))
  {
    hide RenderMember;
    if members != [] { Regroup4(",", RenderMember(members[0]), RenderMembers(members[1..]), "}" + x, ""); }
  }

  lemma {:induction false} MemberCut(a: Entry<Json>, x: string, b: Entry<Json>, y: string)
    requires Lexical(a.value) && Lexical(b.value) && Stops(x) && Stops(y)
    requires RenderMember(a) + x == RenderMember(b) + y
    ensures a == b && x == y
    decreases a, 2
  {
    hide Quote, Render;
    Regroup4(Quote(a.key), ":", Render(a.value), x, "");
    Regroup4(Quote(b.key), ":", Render(b.value), y, "");
    QuoteCut(a.key, ":" + (Render(a.value) + x), b.key, ":" + (Render(b.value) + y));
    DropHead(":", Render(a.value) + x, Render(b.value) + y);
    RenderCut(a.value, x, b.value, y);
  }

  lemma {:induction false} MembersCut(a: seq<Entry<Json>>, x: string, b: seq<Entry<Json>>, y: string)
    requires LexicalMembers(a) && LexicalMembers(b) && Stops(x) && Stops(y)
    requires RenderMembers(a) + ("}" + x) == RenderMembers(b) + ("}" + y)
    ensures a == b && x == y
    decreases a, 0
  {
    hide RenderMembers, RenderMember;
    MembersStop(a, x);
    MembersStop(b, y);
    if a == [] {
      DropHead("}", x, y);
    } else {
      var p, q := RenderMembers(a[1..]) + ("}" + x), RenderMembers(b[1..]) + ("}" + y);
      DropHead(",", RenderMember(a[0]) + p, RenderMember(b[0]) + q);
      MembersStop(a[1..], x);
      MembersStop(b[1..], y);
      MemberCut(a[0], p, b[0], q);
      MembersCut(a[1..], x, b[1..], y);
      assert a == [a[0]] + a[1..] && b == [b[0]] + b[1..];
    }
  }

  /** An object's text without its opening brace. */
  function ObjectBody(members: seq<Entry<Json>>, x: string): string {
    if members == [] then "}" + x else RenderMember(members[0]) + (RenderMembers(members[1..]) + ("}" + x))
  }

  lemma ObjectBodyIs(members: seq<Entry<Json>>, x: string)
    ensures Render(JObject(members)) + x == "{" + ObjectBody(members, x)
    ensures ObjectBody(members, x)[0] == '}' <==> members == []
    ensures members == [] ==> ObjectBody(members, x) == "}" + x
    ensures members != []
            ==> ObjectBody(members, x) == RenderMember(members[0]) + (RenderMembers(members[1..]) + ("}" + x))
  {
    hide RenderMember, RenderMembers;
    if members != [] {
      Regroup4("{", RenderMember(members[0]), RenderMembers(members[1..]), "}", x);
      MemberHead(members[0]);
    }
  }

  lemma MemberHead(m: Entry<Json>)
    ensures RenderMember(m) != "" && RenderMember(m)[0] == '"'
  {
    hide Quote, Render;
    QuoteHead(m.key);
  }

  lemma {:induction false} ObjectCut(a: seq<Entry<Json>>, x: string, b: seq<Entry<Json>>, y: string)
    requires LexicalMembers(a) && LexicalMembers(b) && Stops(x) && Stops(y)
    requires Render(JObject(a)) + x == Render(JObject(b)) + y
    ensures a == b && x == y
    decreases a, 0
  {
    hide RenderMembers, RenderMember, Render, ObjectBody;
    ObjectBodyIs(a, x);
    ObjectBodyIs(b, y);
    DropHead("{", ObjectBody(a, x), ObjectBody(b, y));
    if a == [] {
      DropHead("}", x, y);
    } else {
      var p, q := RenderMembers(a[1..]) + ("}" + x), RenderMembers(b[1..]) + ("}" + y);
      MembersStop(a[1..], x);
      MembersStop(b[1..], y);
      MemberCut(a[0], p, b[0], q);
      MembersCut(a[1..], x, b[1..], y);
      assert a == [a[0]] + a[1..] && b == [b[0]] + b[1..];
    }
  }

  /** Different data never renders to the same text. */
  lemma RenderInjective(a: Json, b: Json)
    requires Lexical(a) && Lexical(b) && Render(a) == Render(b)
    ensures a == b
  {
    hide Render;
    assert Render(a) + "" == Render(a) && Render(b) + "" == Render(b);
    RenderCut(a, "", b, "");
  }

  // ----- JavaScript values -----

  /** A value as `stableJson` meets it; Opaque is a function, a symbol or a big integer. */
  datatype Value =
    | Undefined
    | Opaque
    | Null
    | Bool(truth: bool)
    | Finite(digits: string)
    | NonFinite
    | Str(chars: string)
    | Arr(items: seq<Value>)
    | Obj(props: seq<Entry<Value>>)

  function Keys<T>(es: seq<Entry<T>>): (r: seq<string>)
    ensures |r| == |es| && forall k :: 0 <= k < |r| ==> r[k] == es[k].key
  {
    seq(|es|, k requires 0 <= k < |es| => es[k].key)
  }

  predicate Distinct<T>(es: seq<Entry<T>>) { forall j, k :: 0 <= j < k < |es| ==> es[j].key != es[k].key }

  predicate SortedEntries<T>(es: seq<Entry<T>>) { forall j, k :: 0 <= j < k < |es| ==> Less(es[j].key, es[k].key) }

  function InsertEntry<T(!new)>(e: Entry<T>, es: seq<Entry<T>>): (r: seq<Entry<T>>)
    ensures forall x :: x in r <==> x == e || x in es
  {
    if es == [] then [e]
    else
      assert es == [es[0]] + es[1..];
      if Less(e.key, es[0].key) then [e] + es else [es[0]] + InsertEntry(e, es[1..])
  }

  /** Entries in key order, as sorting the keys and looking each one up gives them. */
  function SortEntries<T(!new)>(es: seq<Entry<T>>): (r: seq<Entry<T>>)
    ensures forall x :: x in r <==> x in es
  {
    if es == [] then []
    else
      assert es == [es[0]] + es[1..];
      InsertEntry(es[0], SortEntries(es[1..]))
  }

  lemma {:induction false} InsertKeepsSorted<T(!new)>(e: Entry<T>, es: seq<Entry<T>>)
    requires SortedEntries(es) && forall x :: x in es ==> x.key != e.key
    ensures SortedEntries(InsertEntry(e, es))
  {
    if es != [] {
      LessTotal(e.key, es[0].key);
      assert es[0] in es;
      if Less(e.key, es[0].key) {
        forall k | 0 < k < |es| ensures Less(e.key, es[k].key) { LessTransitive(e.key, es[0].key, es[k].key); }
      } else {
        var rest := InsertEntry(e, es[1..]);
        assert forall x :: x in es[1..] ==> x in es;
        InsertKeepsSorted(e, es[1..]);
        forall k | 0 <= k < |rest| ensures Less(es[0].key, rest[k].key) {
          assert rest[k] in rest;
          if rest[k] != e {
            var j :| 0 <= j < |es[1..]| && es[1..][j] == rest[k];
            assert es[j + 1] == rest[k];
          }
        }
      }
    }
  }

  lemma {:induction false} SortIsSorted<T(!new)>(es: seq<Entry<T>>)
    requires Distinct(es)
    ensures SortedEntries(SortEntries(es))
  {
    if es != [] {
      SortIsSorted(es[1..]);
      forall x | x in SortEntries(es[1..]) ensures x.key != es[0].key {
        var k :| 0 <= k < |es[1..]| && es[1..][k] == x;
        assert es[k + 1] == x;
      }
      InsertKeepsSorted(es[0], SortEntries(es[1..]));
    }
  }

  /** Entries sorted by key are determined by their members. */
  lemma EntriesByMembers<T(!new)>(a: seq<Entry<T>>, b: seq<Entry<T>>)
    requires SortedEntries(a) && SortedEntries(b) && forall x :: x in a <==> x in b
    ensures a == b
  {
    forall y ensures y in Keys(a) <==> y in Keys(b) {
      KeyMember(a, y);
      KeyMember(b, y);
    }
    SortedByMembers(Keys(a), Keys(b));
    forall k | 0 <= k < |a| ensures a[k] == b[k] {
      assert a[k] in b;
      var j :| 0 <= j < |b| && b[j] == a[k];
      assert Keys(a)[k] == Keys(b)[k] == b[k].key;
      LessIrreflexive(b[k].key);
      assert j == k;
    }
  }

  lemma KeyMember<T(!new)>(es: seq<Entry<T>>, y: string)
    ensures y in Keys(es) <==> exists x :: x in es && x.key == y
  {
    if y in Keys(es) {
      var k :| 0 <= k < |es| && Keys(es)[k] == y;
      assert es[k] in es;
    }
    if x :| x in es && x.key == y {
      var k :| 0 <= k < |es| && es[k] == x;
      assert Keys(es)[k] == y;
    }
  }

  // ----- stableJson -----

  function MemberText(e: Entry<string>): string { Quote(e.key) + ":" + e.value }

  function MemberTexts(es: seq<Entry<string>>): (r: seq<string>)
    ensures |r| == |es| && forall k :: 0 <= k < |r| ==> r[k] == MemberText(es[k])
  {
    seq(|es|, k requires 0 <= k < |es| => MemberText(es[k]))
  }

  /** `stableJson`; None is the TypeError for a value JSON cannot carry. */
  function Stable(v: Value): Option<string>
    decreases v, 1
  {
    match v
    case Undefined => None
    case Opaque => None
    case Null => Some("null")
    case NonFinite => Some("null")
    case Bool(b) => Some(if b then "true" else "false")
    case Finite(s) => Some(s)
    case Str(s) => Some(Quote(s))
    case Arr(items) =>
      var texts := StableItems(items);
      if texts.None? then None else Some("[" + Join(texts.value, ',') + "]")
    case Obj(props) =>
      var texts := StableProps(props);
      if texts.None? then None else Some("{" + Join(MemberTexts(SortEntries(texts.value)), ',') + "}")
  }

  function StableItems(items: seq<Value>): Option<seq<string>>
    decreases items, 0
  {
    if items == [] then Some([])
    else
      var first, rest := Stable(items[0]), StableItems(items[1..]);
      if first.None? || rest.None? then None else Some([first.value] + rest.value)
  }

  /** Undefined properties are skipped. */
  function StableProps(props: seq<Entry<Value>>): Option<seq<Entry<string>>>
    decreases props, 0
  {
    if props == [] then Some([])
    else
      var rest := StableProps(props[1..]);
      if props[0].value == Undefined then rest
      else
        var first := Stable(props[0].value);
        if first.None? || rest.None? then None else Some([Entry(props[0].key, first.value)] + rest.value)
  }

  // ----- the data a value denotes -----

  function Denote(v: Value): Option<Json>
    decreases v, 1
  {
    match v
    case Undefined => None
    case Opaque => None
    case Null => Some(JNull)
    case NonFinite => Some(JNull)
    case Bool(b) => Some(JBool(b))
    case Finite(s) => Some(JNumber(s))
    case Str(s) => Some(JString(s))
    case Arr(items) =>
      var js := DenoteItems(items);
      if js.None? then None else Some(JArray(js.value))
    case Obj(props) =>
      var js := DenoteProps(props);
      if js.None? then None else Some(JObject(SortEntries(js.value)))
  }

  function DenoteItems(items: seq<Value>): Option<seq<Json>>
    decreases items, 0
  {
    if items == [] then Some([])
    else
      var first, rest := Denote(items[0]), DenoteItems(items[1..]);
      if first.None? || rest.None? then None else Some([first.value] + rest.value)
  }

  function DenoteProps(props: seq<Entry<Value>>): Option<seq<Entry<Json>>>
    decreases props, 0
  {
    if props == [] then Some([])
    else
      var rest := DenoteProps(props[1..]);
      if props[0].value == Undefined then rest
      else
        var first := Denote(props[0].value);
        if first.None? || rest.None? then None else Some([Entry(props[0].key, first.value)] + rest.value)
  }

  // ----- stableJson renders the denoted data -----

  function RenderList(items: seq<Json>): (r: seq<string>)
    ensures |r| == |items| && forall k :: 0 <= k < |r| ==> r[k] == Render(items[k])
  {
    seq(|items|, k requires 0 <= k < |items| => Render(items[k]))
  }

  function RenderEntries(es: seq<Entry<Json>>): (r: seq<Entry<string>>)
    ensures |r| == |es| && forall k :: 0 <= k < |r| ==> r[k] == Entry(es[k].key, Render(es[k].value))
  {
    seq(|es|, k requires 0 <= k < |es| => Entry(es[k].key, Render(es[k].value)))
  }

  lemma {:induction false} JoinOfItems(items: seq<Json>)
    requires items != []
    ensures Join(RenderList(items), ',') == Render(items[0]) + RenderItems(items[1..])
  {
    hide Render;
    if |items| > 1 {
      JoinOfItems(items[1..]);
      assert RenderList(items) == [Render(items[0])] + RenderList(items[1..]);
      JoinCons(Render(items[0]), RenderList(items[1..]), ',');
      Regroup4(Render(items[0]), ",", Render(items[1]), RenderItems(items[2..]), "");
      assert items[1..][1..] == items[2..];
    }
  }

  lemma {:induction false} JoinOfMembers(members: seq<Entry<Json>>)
    requires members != []
    ensures Join(MemberTexts(RenderEntries(members)), ',') == RenderMember(members[0]) + RenderMembers(members[1..])
  {
    hide Render, Quote;
    var texts := MemberTexts(RenderEntries(members));
    assert texts[0] == RenderMember(members[0]);
    if |members| > 1 {
      JoinOfMembers(members[1..]);
      assert texts == [texts[0]] + MemberTexts(RenderEntries(members[1..]));
      JoinCons(texts[0], MemberTexts(RenderEntries(members[1..])), ',');
      Regroup4(RenderMember(members[0]), ",", RenderMember(members[1]), RenderMembers(members[2..]), "");
      assert members[1..][1..] == members[2..];
    }
  }

  lemma {:induction false} InsertRendered(e: Entry<Json>, es: seq<Entry<Json>>)
    ensures InsertEntry(Entry(e.key, Render(e.value)), RenderEntries(es)) == RenderEntries(InsertEntry(e, es))
  {
    hide Render, RenderEntries, Less;
    if es == [] {
      assert RenderEntries([]) == [];
      assert RenderEntries([e]) == [Entry(e.key, Render(e.value))];
    } else {
      var r := RenderEntries(es);
      assert r[0] == Entry(es[0].key, Render(es[0].value)) && r[1..] == RenderEntries(es[1..]);
      InsertRendered(e, es[1..]);
      assert RenderEntries([e] + es) == [Entry(e.key, Render(e.value))] + r;
      assert RenderEntries([es[0]] + InsertEntry(e, es[1..])) == [r[0]] + RenderEntries(InsertEntry(e, es[1..]));
    }
  }

  lemma {:induction false} SortRendered(es: seq<Entry<Json>>)
    ensures SortEntries(RenderEntries(es)) == RenderEntries(SortEntries(es))
  {
    hide Render, RenderEntries, InsertEntry;
    if es == [] {
      assert RenderEntries([]) == [];
    } else {
      SortRendered(es[1..]);
      InsertRendered(es[0], SortEntries(es[1..]));
      assert RenderEntries(es)[0] == Entry(es[0].key, Render(es[0].value));
      assert RenderEntries(es)[1..] == RenderEntries(es[1..]);
    }
  }

  /** The text of a value is the rendering of its data; values without data have no text. */
  lemma {:induction false} StableIsRender(v: Value)
    ensures Stable(v) == match Denote(v) case None => None case Some(j) => Some(Render(j))
    decreases v, 1
  {
    hide Quote, RenderItems, RenderMember, RenderMembers, Join, SortEntries;
    match v
    case Arr(items) =>
      StableItemsRender(items);
      var js := DenoteItems(items);
      if js.Some? && js.value != [] {
        JoinOfItems(js.value);
        Regroup4("[", Render(js.value[0]), RenderItems(js.value[1..]), "]", "");
      } else if js.Some? {
        JoinNothing();
      }
    case Obj(props) =>
      StablePropsRender(props);
      var js := DenoteProps(props);
      if js.Some? {
        SortRendered(js.value);
        var sorted := SortEntries(js.value);
        if sorted != [] {
          JoinOfMembers(sorted);
          Regroup4("{", RenderMember(sorted[0]), RenderMembers(sorted[1..]), "}", "");
        } else {
          JoinNothing();
        }
      }
    case _ =>
  }

  lemma JoinNothing()
    ensures Join([], ',') == "" && "[" + "" + "]" == "[]" && "{" + "" + "}" == "{}"
  {
  }

  lemma {:induction false} StableItemsRender(items: seq<Value>)
    ensures StableItems(items) == match DenoteItems(items) case None => None case Some(js) => Some(RenderList(js))
    decreases items, 0
  {
    hide Stable, Denote, Render;
    if items != [] {
      StableIsRender(items[0]);
      StableItemsRender(items[1..]);
      var rest := DenoteItems(items[1..]);
      if DenoteItems(items).Some? {
        assert RenderList([Denote(items[0]).value] + rest.value) == [Render(Denote(items[0]).value)]
          + RenderList(rest.value);
      }
    }
  }

  lemma {:induction false} StablePropsRender(props: seq<Entry<Value>>)
    ensures StableProps(props) == match DenoteProps(props) case None => None case Some(js) => Some(RenderEntries(js))
    decreases props, 0
  {
    hide Stable, Denote, Render;
    if props != [] {
      StablePropsRender(props[1..]);
      var rest := DenoteProps(props[1..]);
      if props[0].value != Undefined {
        StableIsRender(props[0].value);
        if DenoteProps(props).Some? {
          var e := Entry(props[0].key, Denote(props[0].value).value);
          assert RenderEntries([e] + rest.value) == [Entry(e.key, Render(e.value))] + RenderEntries(rest.value);
        }
      }
    }
  }

  /** Finite numbers carry the text JSON gives them. */
  predicate Numeric(v: Value)
    decreases v, 1
  {
    match v
    case Finite(s) => IsNumberText(s)
    case Arr(items) => NumericItems(items)
    case Obj(props) => NumericProps(props)
    case _ => true
  }

  predicate NumericItems(items: seq<Value>)
    decreases items, 0
  {
    items == [] || (Numeric(items[0]) && NumericItems(items[1..]))
  }

  predicate NumericProps(props: seq<Entry<Value>>)
    decreases props, 0
  {
    props == [] || (Numeric(props[0].value) && NumericProps(props[1..]))
  }

  lemma {:induction false} LexicalByMembers(members: seq<Entry<Json>>)
    ensures LexicalMembers(members) <==> forall m :: m in members ==> Lexical(m.value)
  {
    hide Lexical;
    if members != [] {
      assert members == [members[0]] + members[1..];
      LexicalByMembers(members[1..]);
    }
  }

  lemma {:induction false} DenotesLexical(v: Value)
    requires Numeric(v) && Denote(v).Some?
    ensures Lexical(Denote(v).value)
    decreases v, 1
  {
    hide SortEntries, LexicalMembers, DenoteProps;
    match v
    case Arr(items) => DenotesLexicalItems(items);
    case Obj(props) =>
      DenotesLexicalProps(props);
      LexicalByMembers(DenoteProps(props).value);
      LexicalByMembers(SortEntries(DenoteProps(props).value));
    case _ =>
  }

  lemma {:induction false} DenotesLexicalItems(items: seq<Value>)
    requires NumericItems(items) && DenoteItems(items).Some?
    ensures LexicalItems(DenoteItems(items).value)
    decreases items, 0
  {
    hide Denote, Lexical;
    if items != [] {
      DenotesLexical(items[0]);
      DenotesLexicalItems(items[1..]);
    }
  }

  lemma {:induction false} DenotesLexicalProps(props: seq<Entry<Value>>)
    requires NumericProps(props) && DenoteProps(props).Some?
    ensures LexicalMembers(DenoteProps(props).value)
    decreases props, 0
  {
    hide Denote, Lexical;
    if props != [] {
      DenotesLexicalProps(props[1..]);
      if props[0].value != Undefined { DenotesLexical(props[0].value); }
    }
  }

  /** Canonical: two values have the same text exactly when they denote the same data. */
  lemma StableIffSameData(v: Value, w: Value)
    requires Numeric(v) && Numeric(w) && Denote(v).Some? && Denote(w).Some?
    ensures Stable(v) == Stable(w) <==> Denote(v) == Denote(w)
  {
    hide Stable, Denote, Render, Lexical;
    StableIsRender(v);
    StableIsRender(w);
    DenotesLexical(v);
    DenotesLexical(w);
    if Stable(v) == Stable(w) { RenderInjective(Denote(v).value, Denote(w).value); }
  }

  // ----- key order and undefined keys -----

  /** Some property has the member's key and denotes its value. */
  ghost predicate Defines(props: seq<Entry<Value>>, e: Entry<Json>) {
    exists p :: p in props && p.value != Undefined && Denote(p.value) == Some(e.value) && p.key == e.key
  }

  lemma {:induction false} DenotePropsMembers(props: seq<Entry<Value>>)
    ensures DenoteProps(props).None? <==> exists p :: p in props && p.value != Undefined && Denote(p.value).None?
    ensures DenoteProps(props).Some? ==> forall e :: (e in DenoteProps(props).value <==> Defines(props, e))
    ensures DenoteProps(props).Some? ==> |DenoteProps(props).value| <= |props|
  {
    hide Denote;
    if props != [] {
      DenotePropsMembers(props[1..]);
      assert props == [props[0]] + props[1..];
    }
  }

  lemma {:induction false} DenotePropsDistinct(props: seq<Entry<Value>>)
    requires Distinct(props) && DenoteProps(props).Some?
    ensures Distinct(DenoteProps(props).value)
  {
    hide Denote;
    if props != [] {
      var tail := DenoteProps(props[1..]);
      DenotePropsDistinct(props[1..]);
      DenotePropsMembers(props[1..]);
      if props[0].value != Undefined {
        forall k | 0 <= k < |tail.value| ensures tail.value[k].key != props[0].key {
          assert tail.value[k] in tail.value;
          var p :| p in props[1..] && p.key == tail.value[k].key;
          var j :| 0 <= j < |props[1..]| && props[1..][j] == p;
          assert props[j + 1] == p;
        }
      }
    }
  }

  /** The properties of one object all have an alike counterpart in another. */
  ghost predicate CoveredBy(a: seq<Entry<Value>>, b: seq<Entry<Value>>)
    decreases a, 0
  {
    forall k :: 0 <= k < |a| && a[k].value != Undefined ==> HasAlike(a[k], b)
  }

  ghost predicate HasAlike(p: Entry<Value>, b: seq<Entry<Value>>)
    decreases p, 0
  {
    exists j :: 0 <= j < |b| && b[j].key == p.key && b[j].value != Undefined && Alike(p.value, b[j].value)
  }

  /** Every defined key of the second object is a defined key of the first. */
  ghost predicate KeysWithin(b: seq<Entry<Value>>, a: seq<Entry<Value>>) {
    forall j :: 0 <= j < |b| && b[j].value != Undefined ==>
      exists k :: 0 <= k < |a| && a[k].key == b[j].key && a[k].value != Undefined
  }

  /**
   Equal up to the order of keys and undefined-valued keys, at every depth; a number that is not finite is null.
   */
  ghost predicate Alike(v: Value, w: Value)
    decreases v, 1
  {
    || v == w
    || (v in {Null, NonFinite} && w in {Null, NonFinite})
    || (v.Arr? && w.Arr? && |v.items| == |w.items| && forall k :: 0 <= k < |v.items| ==> Alike(v.items[k], w.items[k]))
    || (&& v.Obj? && w.Obj? && Distinct(v.props) && Distinct(w.props)
        && CoveredBy(v.props, w.props) && KeysWithin(w.props, v.props))
  }

  /** Values that are alike denote the same data, or neither denotes any. */
  lemma {:induction false} AlikeSameData(v: Value, w: Value)
    requires Alike(v, w)
    ensures Denote(v) == Denote(w)
    decreases v
  {
    if v != w && v.Arr? && w.Arr? {
      forall k | 0 <= k < |v.items| ensures Denote(v.items[k]) == Denote(w.items[k]) {
        AlikeSameData(v.items[k], w.items[k]);
      }
      ItemsSameData(v.items, w.items);
    } else if v != w && v.Obj? && w.Obj? {
      var a, b := v.props, w.props;
      forall k | 0 <= k < |a| && a[k].value != Undefined
        ensures exists j :: 0 <= j < |b| && b[j].key == a[k].key && b[j].value != Undefined
                  && Denote(a[k].value) == Denote(b[j].value)
      {
        assert HasAlike(a[k], b);
        var j :| 0 <= j < |b| && b[j].key == a[k].key && b[j].value != Undefined && Alike(a[k].value, b[j].value);
        AlikeSameData(a[k].value, b[j].value);
      }
      MatchedSameData(a, b);
    }
  }

  lemma {:induction false} ItemsSameData(a: seq<Value>, b: seq<Value>)
    requires |a| == |b| && forall k :: 0 <= k < |a| ==> Denote(a[k]) == Denote(b[k])
    ensures DenoteItems(a) == DenoteItems(b)
  {
    hide Denote;
    if a != [] { ItemsSameData(a[1..], b[1..]); }
  }

  /** Every defined property of the first object has a counterpart of the same key and data in the second. */
  ghost predicate Matched(a: seq<Entry<Value>>, b: seq<Entry<Value>>) {
    forall k :: 0 <= k < |a| && a[k].value != Undefined ==>
      exists j :: 0 <= j < |b| && b[j].key == a[k].key && b[j].value != Undefined
        && Denote(a[k].value) == Denote(b[j].value)
  }

  lemma MatchedDefines(a: seq<Entry<Value>>, b: seq<Entry<Value>>, e: Entry<Json>)
    requires Matched(a, b) && Defines(a, e)
    ensures Defines(b, e)
  {
    hide Denote;
    var p :| p in a && p.value != Undefined && Denote(p.value) == Some(e.value) && p.key == e.key;
    var k :| 0 <= k < |a| && a[k] == p;
    var j :| 0 <= j < |b| && b[j].key == a[k].key && b[j].value != Undefined
      && Denote(a[k].value) == Denote(b[j].value);
    assert b[j] in b;
  }

  /** With distinct keys, the counterpart relation is symmetric. */
  lemma MatchedBack(a: seq<Entry<Value>>, b: seq<Entry<Value>>)
    requires Distinct(b) && Matched(a, b) && KeysWithin(b, a)
    ensures Matched(b, a)
  {
    hide Denote;
    forall j | 0 <= j < |b| && b[j].value != Undefined
      ensures exists k :: 0 <= k < |a| && a[k].key == b[j].key && a[k].value != Undefined
                && Denote(b[j].value) == Denote(a[k].value)
    {
      var k :| 0 <= k < |a| && a[k].key == b[j].key && a[k].value != Undefined;
      var i :| 0 <= i < |b| && b[i].key == a[k].key && b[i].value != Undefined
        && Denote(a[k].value) == Denote(b[i].value);
      assert i == j;
    }
  }

  lemma MatchedData(a: seq<Entry<Value>>, b: seq<Entry<Value>>)
    requires Matched(a, b) && DenoteProps(b).Some?
    ensures DenoteProps(a).Some?
  {
    hide Denote, DenoteProps;
    DenotePropsMembers(a);
    DenotePropsMembers(b);
    forall p | p in a && p.value != Undefined ensures Denote(p.value).Some? {
      var k :| 0 <= k < |a| && a[k] == p;
      var j :| 0 <= j < |b| && b[j].key == a[k].key && b[j].value != Undefined
        && Denote(a[k].value) == Denote(b[j].value);
      assert b[j] in b;
    }
  }

  lemma MatchedSameData(a: seq<Entry<Value>>, b: seq<Entry<Value>>)
    requires Distinct(a) && Distinct(b) && Matched(a, b) && KeysWithin(b, a)
    ensures Denote(Obj(a)) == Denote(Obj(b))
  {
    hide DenoteProps, SortEntries, Matched;
    MatchedBack(a, b);
    if DenoteProps(a).Some? { MatchedData(b, a); }
    if DenoteProps(b).Some? { MatchedData(a, b); }
    if DenoteProps(a).Some? {
      var x, y := DenoteProps(a).value, DenoteProps(b).value;
      DenotePropsMembers(a);
      DenotePropsMembers(b);
      forall e ensures e in x <==> e in y {
        if Defines(a, e) { MatchedDefines(a, b, e); }
        if Defines(b, e) { MatchedDefines(b, a, e); }
      }
      DenotePropsDistinct(a);
      DenotePropsDistinct(b);
      SortIsSorted(x);
      SortIsSorted(y);
      EntriesByMembers(SortEntries(x), SortEntries(y));
    }
  }

  /** Neither the order of the keys nor undefined-valued keys, at any depth, change the data or the text. */
  lemma KeyOrderIsIrrelevant(v: Value, w: Value)
    requires Alike(v, w)
    ensures Denote(v) == Denote(w) && Stable(v) == Stable(w)
  {
    hide Alike, Denote, Stable, Render;
    AlikeSameData(v, w);
    StableIsRender(v);
    StableIsRender(w);
  }

  // ----- and nothing else is irrelevant -----

  /** Every object inside the value lists each key once, as JavaScript objects do. */
  ghost predicate Tidy(v: Value)
    decreases v
  {
    match v
    case Arr(items) => forall k :: 0 <= k < |items| ==> Tidy(items[k])
    case Obj(props) => Distinct(props) && forall k :: 0 <= k < |props| ==> Tidy(props[k].value)
    case _ => true
  }

  lemma {:induction false} ItemsOfData(items: seq<Value>, k: nat)
    requires DenoteItems(items).Some? && k < |items|
    ensures |DenoteItems(items).value| == |items| && Denote(items[k]) == Some(DenoteItems(items).value[k])
  {
    hide Denote;
    if k > 0 {
      ItemsOfData(items[1..], k - 1);
    } else if |items| > 1 {
      ItemsOfData(items[1..], 0);
    }
  }

  /** A defined property of an object with data has a counterpart in every object with the same data. */
  lemma Counterpart(a: seq<Entry<Value>>, b: seq<Entry<Value>>, k: nat) returns (j: nat)
    requires k < |a| && a[k].value != Undefined && Denote(Obj(a)).Some? && Denote(Obj(a)) == Denote(Obj(b))
    ensures j < |b| && b[j].key == a[k].key && b[j].value != Undefined
    ensures Denote(a[k].value).Some? && Denote(b[j].value) == Denote(a[k].value)
  {
    hide DenoteProps, SortEntries;
    DenotePropsMembers(a);
    DenotePropsMembers(b);
    assert a[k] in a;
    var e := Entry(a[k].key, Denote(a[k].value).value);
    assert Defines(a, e);
    var x, y := DenoteProps(a).value, DenoteProps(b).value;
    assert e in x;
    assert e in SortEntries(x) && SortEntries(x) == SortEntries(y);
    assert e in y;
    var p :| p in b && p.value != Undefined && Denote(p.value) == Some(e.value) && p.key == e.key;
    j :| 0 <= j < |b| && b[j] == p;
  }

  lemma {:induction false} SameDataAlike(v: Value, w: Value)
    requires Tidy(v) && Tidy(w) && Denote(v).Some? && Denote(v) == Denote(w)
    ensures Alike(v, w)
    decreases v
  {
    match v
    case Arr(items) =>
      if items != [] { ItemsOfData(items, 0); }
      if w.items != [] { ItemsOfData(w.items, 0); }
      forall k | 0 <= k < |items| ensures Alike(items[k], w.items[k]) {
        ItemsOfData(items, k);
        ItemsOfData(w.items, k);
        SameDataAlike(items[k], w.items[k]);
      }
    case Obj(a) =>
      var b := w.props;
      forall k | 0 <= k < |a| && a[k].value != Undefined ensures HasAlike(a[k], b) {
        var j := Counterpart(a, b, k);
        SameDataAlike(a[k].value, b[j].value);
      }
      forall j | 0 <= j < |b| && b[j].value != Undefined
        ensures exists k :: 0 <= k < |a| && a[k].key == b[j].key && a[k].value != Undefined
      {
        var k := Counterpart(b, a, j);
      }
      assert CoveredBy(a, b) && KeysWithin(b, a);
    case _ =>
  }

  /** Two values have the same text exactly when they are equal up to key order and undefined-valued keys. */
  lemma SameTextIffAlike(v: Value, w: Value)
    requires Tidy(v) && Tidy(w) && Numeric(v) && Numeric(w) && Denote(v).Some? && Denote(w).Some?
    ensures Stable(v) == Stable(w) <==> Alike(v, w)
  {
    hide Alike, Denote, Stable, Tidy, Numeric;
    StableIffSameData(v, w);
    if Alike(v, w) { AlikeSameData(v, w); }
    if Denote(v) == Denote(w) { SameDataAlike(v, w); }
  }
}
