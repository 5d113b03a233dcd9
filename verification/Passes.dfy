/**
 The scanner passes of contract/redaction.ts. Every pass is a loop over the text that
 pushes chunks and edits; its specification is the list of edits it must find.
 */
module Passes {
  import opened Text
  import opened SpanTrace
  import opened Brackets
  import opened ValueEnds

  /** One match of a global regular expression. */
  datatype Match = Match(index: nat, length: nat)
  {
    function End(): nat { index + length }
  }

  /** A match of `scheme` whitespace token; `scheme` is the length of the scheme name. */
  datatype SchemeMatch = SchemeMatch(index: nat, scheme: nat, length: nat)
  {
    function End(): nat { index + length }
  }

  /** The regular-expression tables of the source, taken as functions of the text. */
  datatype Policy = Policy(
    isSecretKey: string -> bool,
    normalizeKey: string -> string,
    jsonKey: string -> Option<string>,
    authorizationFields: string -> seq<Match>,
    digestFields: string -> seq<Match>,
    httpSchemes: string -> seq<SchemeMatch>,
    tokenSchemes: string -> seq<SchemeMatch>,
    secretValues: seq<string -> seq<Match>>)

  predicate Ordered(ms: seq<Match>, from: nat, n: nat) {
    ms == [] || (from <= ms[0].index && 0 < ms[0].length && ms[0].End() <= n && Ordered(ms[1..], ms[0].End(), n))
  }

  /** Header matches end in the colon or in blanks after it. */
  predicate FieldMatches(value: string, ms: seq<Match>) {
    && Ordered(ms, 0, |value|)
    && forall k :: 0 <= k < |ms| ==>
         0 < ms[k].End() <= |value| && (IsBlank(value[ms[k].End() - 1]) || value[ms[k].End() - 1] == ':')
  }

  predicate OrderedSchemes(ms: seq<SchemeMatch>, from: nat, n: nat) {
    ms == [] || (&& from <= ms[0].index && 0 < ms[0].scheme <= ms[0].length && ms[0].End() <= n
                 && OrderedSchemes(ms[1..], ms[0].End(), n))
  }

  /** What a regular-expression engine guarantees of the tables. */
  ghost predicate Lawful(p: Policy) {
    && (forall v :: FieldMatches(v, p.authorizationFields(v)))
    && (forall v :: FieldMatches(v, p.digestFields(v)))
    && (forall v :: OrderedSchemes(p.httpSchemes(v), 0, |v|))
    && (forall v :: OrderedSchemes(p.tokenSchemes(v), 0, |v|))
    && (forall k, v :: 0 <= k < |p.secretValues| ==> Ordered(p.secretValues[k](v), 0, |v|))
  }

  // ----- emitting chunks and edits -----

  function Mask(start: nat, end: nat, replacement: string): Edit {
    Edit(start, end, replacement, None, None)
  }

  /** Every edit reports the whole range it replaces. */
  predicate Unmasked(edits: seq<Edit>) {
    forall k :: 0 <= k < |edits| ==> edits[k].maskStart.None? && edits[k].maskEnd.None?
  }

  /** The text produced once the scan has copied everything up to `cursor`. */
  function Produced(value: string, edits: seq<Edit>, from: nat, cursor: nat): string
    requires from <= cursor <= |value| && WellFormed(edits, from, cursor)
  {
    if edits == [] then value[from..cursor]
    else value[from..edits[0].start] + edits[0].replacement + Produced(value, edits[1..], edits[0].end, cursor)
  }

  lemma {:induction false} WellFormedWiden(edits: seq<Edit>, from: int, n: int, from': int, n': int)
    requires WellFormed(edits, from, n) && from' <= from && n <= n'
    ensures WellFormed(edits, from', n')
  {
    if edits != [] { WellFormedWiden(edits[1..], edits[0].end, n, edits[0].end, n'); }
  }

  lemma NothingFits(from: int, n: int)
    ensures WellFormed([], from, n) && Unmasked([])
  {
  }

  lemma MaskThenRest(start: nat, end: nat, replacement: string, rest: seq<Edit>, from: int, n: int)
    requires from <= start <= end <= n && WellFormed(rest, end, n) && Unmasked(rest)
    ensures WellFormed([Mask(start, end, replacement)] + rest, from, n)
    ensures Unmasked([Mask(start, end, replacement)] + rest)
  {
    assert ([Mask(start, end, replacement)] + rest)[1..] == rest;
  }

  lemma {:induction false} ProducedCopies(value: string, edits: seq<Edit>, from: nat, cursor: nat, later: nat)
    requires from <= cursor <= later <= |value| && WellFormed(edits, from, cursor)
    ensures WellFormed(edits, from, later)
    ensures Produced(value, edits, from, later) == Produced(value, edits, from, cursor) + value[cursor..later]
    decreases edits
  {
    WellFormedWiden(edits, from, cursor, from, later);
    if edits != [] {
      ProducedCopies(value, edits[1..], edits[0].end, cursor, later);
    }
  }

  lemma {:induction false} ProducedEdit(value: string, edits: seq<Edit>, from: nat, cursor: nat, e: Edit)
    requires from <= cursor <= e.start <= e.end <= |value| && WellFormed(edits, from, cursor)
    requires EditFits(e, cursor, |value|)
    ensures WellFormed(edits + [e], from, e.end)
    ensures Produced(value, edits + [e], from, e.end)
            == Produced(value, edits, from, cursor) + value[cursor..e.start] + e.replacement
    decreases edits
  {
    if edits == [] {
      assert edits + [e] == [e];
      assert value[from..e.start] == value[from..cursor] + value[cursor..e.start];
    } else {
      var first := edits[0];
      assert (edits + [e])[1..] == edits[1..] + [e];
      ProducedEdit(value, edits[1..], first.end, cursor, e);
      Regroup(value[from..first.start] + first.replacement, Produced(value, edits[1..], first.end, cursor),
              value[cursor..e.start], e.replacement);
    }
  }

  lemma {:induction false} ProducedAll(value: string, edits: seq<Edit>, from: nat)
    requires from <= |value| && WellFormed(edits, from, |value|)
    ensures Produced(value, edits, from, |value|) == Splice(value, edits, from)
    decreases edits
  {
    if edits != [] { ProducedAll(value, edits[1..], edits[0].end); }
  }

  /** The pass has produced `chunks` and `edits` and has copied the text up to `cursor`. */
  ghost predicate Emitted(value: string, chunks: seq<string>, edits: seq<Edit>, cursor: nat) {
    && cursor <= |value| && WellFormed(edits, 0, cursor)
    && Concat(chunks) == Produced(value, edits, 0, cursor)
    && (cursor == 0 || chunks == [] ==> cursor == 0 && edits == [])
  }

  lemma EmittedStart(value: string)
    ensures Emitted(value, [], [], 0)
  {
  }

  /** `chunks.push(value.slice(cursor, start), replacement); edits.push(...)`. */
  method Emit(value: string, chunks: seq<string>, edits: seq<Edit>, cursor: nat, e: Edit)
    returns (chunks': seq<string>, edits': seq<Edit>, cursor': nat)
    requires Emitted(value, chunks, edits, cursor) && EditFits(e, cursor, |value|) && e.end > 0
    ensures chunks' == chunks + [value[cursor..e.start], e.replacement]
    ensures edits' == edits + [e] && cursor' == e.end
    ensures Emitted(value, chunks', edits', cursor')
  {
    ProducedEdit(value, edits, 0, cursor, e);
    ConcatTwo(chunks, value[cursor..e.start], e.replacement);
    chunks' := chunks + [value[cursor..e.start], e.replacement];
    edits' := edits + [e];
    cursor' := e.end;
  }

  /** `chunks.push(value.slice(cursor)); return chunks.join("")`, or the value itself. */
  method Finish(value: string, chunks: seq<string>, edits: seq<Edit>, cursor: nat) returns (text: string)
    requires Emitted(value, chunks, edits, cursor)
    ensures WellFormed(edits, 0, |value|) && text == Splice(value, edits, 0)
  {
    ProducedCopies(value, edits, 0, cursor, |value|);
    ProducedAll(value, edits, 0);
    if cursor == 0 { return value; }
    var all := chunks + [value[cursor..]];
    assert all[..|chunks|] == chunks;
    text := Concat(all);
  }

  lemma Shift<T>(done: seq<T>, x: T, rest: seq<T>)
    ensures done + ([x] + rest) == (done + [x]) + rest
  {
  }

  lemma SliceJoin(value: string, a: nat, b: nat, c: nat)
    requires a <= b <= c <= |value|
    ensures value[a..b] + value[b..c] == value[a..c]
  {
  }

  // ----- user:password@ in URLs -----

  predicate IsSchemeChar(c: char) { IsLetter(c) || IsDigit(c) || c == '+' || c == '.' || c == '-' }

  predicate IsWordChar(c: char) { IsLetter(c) || IsDigit(c) || c == '_' }

  predicate IsUriPasswordChar(c: char) { c !in "/?#@" && !IsWhitespace(c) }

  predicate IsUriUserChar(c: char) { c != ':' && IsUriPasswordChar(c) }

  function SchemeStart(value: string, i: nat, delimiter: nat): nat
    requires delimiter <= |value|
    decreases delimiter - i
  {
    if i < delimiter && (!IsLetter(value[i]) || (i > 0 && IsWordChar(value[i - 1])))
    then SchemeStart(value, i + 1, delimiter) else i
  }

  /** The password range after the `://` at `delimiter`, if there is one. */
  function UrlPassword(value: string, cursor: nat, delimiter: nat): (r: Option<(nat, nat)>)
    requires cursor <= delimiter && delimiter + 3 <= |value|
    ensures r.Some? ==> delimiter + 3 < r.value.0 < r.value.1 < |value|
  {
    var segment := SkipBack(value, delimiter, cursor, IsSchemeChar);
    if SchemeStart(value, segment, delimiter) == delimiter then None
    else
      var user := SkipWhile(value, delimiter + 3, |value|, IsUriUserChar);
      if user == delimiter + 3 || !Is(value, user, ':') then None
      else
        var index := SkipWhile(value, user + 1, |value|, IsUriPasswordChar);
        if index == user + 1 || !Is(value, index, '@') then None else Some((user + 1, index))
  }

  function UrlEdits(value: string, replacement: string, cursor: nat, search: nat): (edits: seq<Edit>)
    requires cursor <= search
    ensures WellFormed(edits, cursor, |value|)
    ensures Unmasked(edits)
    decreases |value| - search
  {
    var delimiter := IndexOf(value, "://", search);
    if delimiter < 0 then []
    else match UrlPassword(value, cursor, delimiter)
      case None => UrlEdits(value, replacement, cursor, delimiter + 3)
      case Some((start, end)) =>
        [Mask(start, end, replacement)] + UrlEdits(value, replacement, end, end + 1)
  }

  method RedactUrlCredentials(value: string, replacement: string) returns (text: string, edits: seq<Edit>)
    ensures edits == UrlEdits(value, replacement, 0, 0)
    ensures WellFormed(edits, 0, |value|) && text == Splice(value, edits, 0)
  {
    hide *;
    EmittedStart(value);
    var chunks: seq<string>, cursor, search := [], 0, 0;
    edits := [];
    while search < |value|
      invariant 0 <= cursor <= search <= |value| && Emitted(value, chunks, edits, cursor)
      invariant edits + UrlEdits(value, replacement, cursor, search) == UrlEdits(value, replacement, 0, 0)
    {
      UrlStep(value, replacement, edits, cursor, search);
      var delimiter := IndexOf(value, "://", search);
      if delimiter < 0 { break; }
      search := delimiter + 3;
      var found := UrlPassword(value, cursor, delimiter);
      if found.None? { continue; }
      var (start, end) := found.value;
      chunks, edits, cursor := Emit(value, chunks, edits, cursor, Mask(start, end, replacement));
      search := end + 1;
    }
    UrlStep(value, replacement, edits, cursor, search);
    text := Finish(value, chunks, edits, cursor);
  }

  /** One round of the specification. */
  lemma UrlStep(value: string, replacement: string, done: seq<Edit>, cursor: nat, search: nat)
    requires cursor <= search <= |value|
    ensures var delimiter, rest := IndexOf(value, "://", search), UrlEdits(value, replacement, cursor, search);
            if delimiter < 0 then done + rest == done
            else search <= delimiter <= |value| - 3 && match UrlPassword(value, cursor, delimiter)
              case None => rest == UrlEdits(value, replacement, cursor, delimiter + 3)
              case Some((start, end)) =>
                var e := Mask(start, end, replacement);
                && EditFits(e, cursor, |value|) && e.end == end
                && done + rest == done + [e] + UrlEdits(value, replacement, end, end + 1)
    ensures search == |value| ==> IndexOf(value, "://", search) < 0
  {
    hide UrlPassword, WellFormed, IndexOf;
    var delimiter := IndexOf(value, "://", search);
    if delimiter >= 0 {
      var found := UrlPassword(value, cursor, delimiter);
      if found.Some? {
        Shift(done, Mask(found.value.0, found.value.1, replacement),
              UrlEdits(value, replacement, found.value.1, found.value.1 + 1));
      }
    }
  }

  // ----- Authorization and Digest fields -----

  function FieldEdit(value: string, m: Match, replacement: string): Edit
    requires 0 < m.End() <= |value|
  {
    Mask(m.End(), CredentialFieldEnd(value, m.End()),
         if IsBlank(value[m.End() - 1]) then replacement else " " + replacement)
  }

  function FieldEdits(value: string, replacement: string, ms: seq<Match>, cursor: nat): (edits: seq<Edit>)
    requires FieldMatches(value, ms)
    ensures WellFormed(edits, cursor, |value|)
    ensures Unmasked(edits)
    decreases ms
  {
    if ms == [] then []
    else
      FieldMatchesTail(value, ms);
      if ms[0].index < cursor then FieldEdits(value, replacement, ms[1..], cursor)
      else
        var e := FieldEdit(value, ms[0], replacement);
        [e] + FieldEdits(value, replacement, ms[1..], e.end)
  }

  lemma FieldMatchesTail(value: string, ms: seq<Match>)
    requires FieldMatches(value, ms) && ms != []
    ensures FieldMatches(value, ms[1..])
  {
    OrderedFromZero(ms[1..], ms[0].End(), |value|);
  }

  lemma {:induction false} OrderedFromZero(ms: seq<Match>, from: nat, n: nat)
    requires Ordered(ms, from, n)
    ensures Ordered(ms, 0, n)
  {
  }

  lemma FieldMatchesDrop(value: string, ms: seq<Match>, k: nat)
    requires FieldMatches(value, ms) && k <= |ms|
    ensures FieldMatches(value, ms[k..])
  {
    if k == 0 { assert ms[0..] == ms; }
    else {
      FieldMatchesDrop(value, ms, k - 1);
      FieldMatchesTail(value, ms[k - 1..]);
      assert ms[k - 1..][1..] == ms[k..];
    }
  }

  method RedactCredentialFields(value: string, replacement: string, ms: seq<Match>)
    returns (text: string, edits: seq<Edit>)
    requires FieldMatches(value, ms)
    ensures edits == FieldEdits(value, replacement, ms, 0)
    ensures WellFormed(edits, 0, |value|) && text == Splice(value, edits, 0)
  {
    hide CredentialFieldEnd;
    var chunks: seq<string>, cursor := [], 0;
    edits := [];
    for k := 0 to |ms|
      invariant 0 <= cursor && Emitted(value, chunks, edits, cursor)
      invariant FieldMatches(value, ms[k..])
      invariant edits + FieldEdits(value, replacement, ms[k..], cursor) == FieldEdits(value, replacement, ms, 0)
    {
      var m := ms[k];
      assert ms[k..][0] == m && ms[k..][1..] == ms[k + 1..];
      FieldMatchesTail(value, ms[k..]);
      if m.index < cursor { continue; }
      var end := FindCredentialFieldEnd(value, m.End());
      var e := Mask(m.End(), end, if IsBlank(value[m.End() - 1]) then replacement else " " + replacement);
      Shift(edits, e, FieldEdits(value, replacement, ms[k + 1..], e.end));
      chunks, edits, cursor := Emit(value, chunks, edits, cursor, e);
    }
    text := Finish(value, chunks, edits, cursor);
  }

  // ----- scheme-prefixed tokens and secret values -----

  /** The mask leaves out the blanks between the scheme and the token. */
  function SchemeEdit(value: string, m: SchemeMatch, replacement: string): Edit
    requires m.scheme <= m.length && m.End() <= |value|
  {
    Edit(m.index + m.scheme, m.End(), " " + replacement,
         Some(SkipWhile(value, m.index + m.scheme, m.End(), IsWhitespace)), None)
  }

  function SchemeEdits(value: string, replacement: string, ms: seq<SchemeMatch>, cursor: nat): (edits: seq<Edit>)
    requires OrderedSchemes(ms, cursor, |value|)
    ensures WellFormed(edits, cursor, |value|)
    decreases ms
  {
    if ms == [] then []
    else [SchemeEdit(value, ms[0], replacement)] + SchemeEdits(value, replacement, ms[1..], ms[0].End())
  }

  /** `text.replace(pattern, callback)`: the callback keeps the scheme and pushes the edit. */
  method ReplaceSchemes(value: string, replacement: string, ms: seq<SchemeMatch>)
    returns (text: string, edits: seq<Edit>)
    requires OrderedSchemes(ms, 0, |value|)
    ensures edits == SchemeEdits(value, replacement, ms, 0)
    ensures WellFormed(edits, 0, |value|) && text == Splice(value, edits, 0)
  {
    hide *;
    EmittedStart(value);
    var chunks: seq<string>, cursor := [], 0;
    edits := [];
    assert ms[0..] == ms;
    for k := 0 to |ms|
      invariant 0 <= cursor <= |value| && OrderedSchemes(ms[k..], cursor, |value|)
      invariant Emitted(value, chunks, edits, cursor)
      invariant edits + SchemeEdits(value, replacement, ms[k..], cursor) == SchemeEdits(value, replacement, ms, 0)
    {
      SchemeStep(value, replacement, ms, k, edits, cursor);
      var m := ms[k];
      var kept := value[cursor..m.index] + value[m.index..m.index + m.scheme];
      var result := " " + replacement;
      ghost var before := chunks;
      chunks, edits, cursor := Emit(value, chunks, edits, cursor, SchemeEdit(value, m, replacement));
      assert chunks == before + [kept, result];
    }
    SchemeEnd(value, replacement, ms, edits, cursor);
    text := Finish(value, chunks, edits, cursor);
  }

  lemma SchemeStep(value: string, replacement: string, ms: seq<SchemeMatch>, k: nat, done: seq<Edit>, cursor: nat)
    requires k < |ms| && OrderedSchemes(ms[k..], cursor, |value|)
    ensures var m := ms[k];
            && cursor <= m.index && m.scheme <= m.length && m.End() <= |value|
            && OrderedSchemes(ms[k + 1..], m.End(), |value|)
            && var e := SchemeEdit(value, m, replacement);
               && EditFits(e, cursor, |value|) && 0 < e.end == m.End()
               && e.start == m.index + m.scheme && e.replacement == " " + replacement
               && value[cursor..m.index] + value[m.index..e.start] == value[cursor..e.start]
               && done + SchemeEdits(value, replacement, ms[k..], cursor)
                  == done + [e] + SchemeEdits(value, replacement, ms[k + 1..], m.End())
  {
    var m := ms[k];
    assert ms[k..][0] == m && ms[k..][1..] == ms[k + 1..];
    Shift(done, SchemeEdit(value, m, replacement), SchemeEdits(value, replacement, ms[k + 1..], m.End()));
    SliceJoin(value, cursor, m.index, m.index + m.scheme);
  }

  lemma SchemeEnd(value: string, replacement: string, ms: seq<SchemeMatch>, done: seq<Edit>, cursor: nat)
    requires OrderedSchemes(ms[|ms|..], cursor, |value|)
    ensures done + SchemeEdits(value, replacement, ms[|ms|..], cursor) == done
  {
  }

  function ValueEdits(replacement: string, ms: seq<Match>, cursor: nat, n: nat): (edits: seq<Edit>)
    requires Ordered(ms, cursor, n)
    ensures WellFormed(edits, cursor, n)
    ensures Unmasked(edits)
    decreases ms
  {
    if ms == [] then []
    else [Mask(ms[0].index, ms[0].End(), replacement)] + ValueEdits(replacement, ms[1..], ms[0].End(), n)
  }

  /** `text.replace(pattern, callback)` with a callback that returns the replacement. */
  method ReplaceValues(value: string, replacement: string, ms: seq<Match>)
    returns (text: string, edits: seq<Edit>)
    requires Ordered(ms, 0, |value|)
    ensures edits == ValueEdits(replacement, ms, 0, |value|)
    ensures WellFormed(edits, 0, |value|) && text == Splice(value, edits, 0)
  {
    hide *;
    EmittedStart(value);
    var chunks: seq<string>, cursor := [], 0;
    edits := [];
    assert ms[0..] == ms;
    for k := 0 to |ms|
      invariant 0 <= cursor <= |value| && Ordered(ms[k..], cursor, |value|) && Emitted(value, chunks, edits, cursor)
      invariant edits + ValueEdits(replacement, ms[k..], cursor, |value|) == ValueEdits(replacement, ms, 0, |value|)
    {
      ValueStep(replacement, ms, k, edits, cursor, |value|);
      chunks, edits, cursor := Emit(value, chunks, edits, cursor, Mask(ms[k].index, ms[k].End(), replacement));
    }
    ValueStop(replacement, ms, edits, cursor, |value|);
    text := Finish(value, chunks, edits, cursor);
  }

  lemma ValueStep(replacement: string, ms: seq<Match>, k: nat, done: seq<Edit>, cursor: nat, n: nat)
    requires k < |ms| && Ordered(ms[k..], cursor, n)
    ensures var m := ms[k];
            && m.End() <= n && Ordered(ms[k + 1..], m.End(), n)
            && var e := Mask(m.index, m.End(), replacement);
               && EditFits(e, cursor, n) && 0 < e.end == m.End()
               && done + ValueEdits(replacement, ms[k..], cursor, n)
                  == done + [e] + ValueEdits(replacement, ms[k + 1..], m.End(), n)
  {
    hide WellFormed;
    var m := ms[k];
    assert ms[k..][0] == m && ms[k..][1..] == ms[k + 1..];
    Shift(done, Mask(m.index, m.End(), replacement), ValueEdits(replacement, ms[k + 1..], m.End(), n));
  }

  lemma ValueStop(replacement: string, ms: seq<Match>, done: seq<Edit>, cursor: nat, n: nat)
    requires Ordered(ms[|ms|..], cursor, n)
    ensures done + ValueEdits(replacement, ms[|ms|..], cursor, n) == done
  {
  }

  // ----- PEM private keys -----

  predicate IsUpperDigitSpace(c: char) { 'A' <= c <= 'Z' || IsDigit(c) || c == ' ' }

  const PEM_BEGIN := "-----BEGIN "
  const PEM_KEY := "PRIVATE KEY-----"

  /** `/^-----BEGIN [A-Z0-9 ]*PRIVATE KEY-----$/`. */
  predicate IsPrivateKeyHeader(header: string) {
    && |PEM_BEGIN| + |PEM_KEY| <= |header|
    && PEM_BEGIN <= header && header[|header| - |PEM_KEY|..] == PEM_KEY
    && forall k :: |PEM_BEGIN| <= k < |header| - |PEM_KEY| ==> IsUpperDigitSpace(header[k])
  }

  /** `header.replace("BEGIN", "END")`. */
  function EndHeader(header: string): string
    requires |PEM_BEGIN| <= |header|
  {
    "-----END " + header[|PEM_BEGIN|..]
  }

  datatype KeyBlock = Malformed(resume: nat) | NotKey(resume: nat) | Key(end: nat)

  /** What the loop does at an opening marker. */
  function KeyBlockAt(value: string, begin: nat): (r: KeyBlock)
    requires At(value, PEM_BEGIN, begin)
    ensures r.Key? ==> begin < r.end <= |value|
    ensures !r.Key? ==> begin < r.resume <= |value|
  {
    var delimiter := IndexOf(value[begin + 11..Min(|value|, begin + 81)], "-----", 0);
    if delimiter < 0 then Malformed(begin + 11)
    else
      var headerEnd := begin + 11 + delimiter + 5;
      var header := value[begin..headerEnd];
      if !IsPrivateKeyHeader(header) then NotKey(begin + 1)
      else
        var endHeader := EndHeader(header);
        var endStart := IndexOf(value, endHeader, headerEnd);
        Key(if endStart < 0 then |value| else endStart + |endHeader|)
  }

  function KeyBlockEdits(value: string, replacement: string, cursor: nat): (edits: seq<Edit>)
    ensures WellFormed(edits, cursor, |value|)
    ensures Unmasked(edits)
    decreases |value| - cursor
  {
    var begin := IndexOf(value, PEM_BEGIN, cursor);
    if begin < 0 then []
    else match KeyBlockAt(value, begin)
      case Key(end) => [Mask(begin, end, replacement)] + KeyBlockEdits(value, replacement, end)
      case r =>
        var rest := KeyBlockEdits(value, replacement, r.resume);
        WellFormedWiden(rest, r.resume, |value|, cursor, |value|);
        rest
  }

  method RedactPrivateKeyBlocks(value: string, replacement: string) returns (text: string, edits: seq<Edit>)
    ensures edits == KeyBlockEdits(value, replacement, 0)
    ensures WellFormed(edits, 0, |value|) && text == Splice(value, edits, 0)
  {
    var chunks: seq<string>, cursor := [], 0;
    edits := [];
    while cursor < |value|
      invariant Emitted(value, chunks, edits, cursor)
      invariant edits + KeyBlockEdits(value, replacement, cursor) == KeyBlockEdits(value, replacement, 0)
      decreases |value| - cursor
    {
      var begin := IndexOf(value, PEM_BEGIN, cursor);
      if begin < 0 { break; }
      var block := KeyBlockAt(value, begin);
      if !block.Key? {
        var resume := block.resume;
        ProducedCopies(value, edits, 0, cursor, resume);
        assert (chunks + [value[cursor..resume]])[..|chunks|] == chunks;
        chunks := chunks + [value[cursor..resume]];
        cursor := resume;
        continue;
      }
      Shift(edits, Mask(begin, block.end, replacement), KeyBlockEdits(value, replacement, block.end));
      chunks, edits, cursor := Emit(value, chunks, edits, cursor, Mask(begin, block.end, replacement));
    }
    text := Finish(value, chunks, edits, cursor);
  }
}
