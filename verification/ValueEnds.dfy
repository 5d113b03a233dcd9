/**
 Where a secret value ends (contract/redaction.ts): header fields, YAML blocks, shell
 continuations with their cached newline, and plain assignment values.
 */
module ValueEnds {
  import opened Text
  import opened Brackets

  const MAX_CREDENTIAL_FIELD_CODE_UNITS := 1_048_576
  const MAX_MULTILINE_SECRET_CODE_UNITS := 1_048_576

  // ----- character classes -----

  predicate IsLetter(c: char) { 'A' <= c <= 'Z' || 'a' <= c <= 'z' }

  predicate IsBlank(c: char) { c == ' ' || c == '\t' }

  predicate IsNewline(c: char) { c == '\n' || c == '\r' }

  predicate NotNewline(c: char) { !IsNewline(c) }

  predicate IsSpace(c: char) { c == ' ' }

  predicate IsTokenChar(c: char) { IsLetter(c) || IsDigit(c) || c in "!#$%&'*+.^_`|~-" }

  predicate IsNameChar(c: char) { IsLetter(c) || IsDigit(c) || c == '_' || c == '.' || c == '-' }

  predicate IsTagChar(c: char) { IsNameChar(c) || c == '!' }

  predicate IsBlockStart(c: char) { c == '|' || c == '>' || c == '&' || c == '!' }

  predicate NotAngle(c: char) { c != '>' }

  predicate IsHeaderChar(c: char) { IsLetter(c) || IsDigit(c) || c == '-' }

  predicate IsAtomChar(c: char) { !IsWhitespace(c) && c != ',' && c != '&' }

  predicate IsStructuredOpening(value: string, i: int) {
    0 <= i < |value| && (IsQuote(value[i]) || IsOpener(value[i]))
  }

  // ----- scanning -----

  /** The loop form of `SkipWhile`, as the scanners write it. */
  method ScanForward(value: string, i: nat, limit: nat, p: char -> bool) returns (j: nat)
    requires limit <= |value|
    ensures j == SkipWhile(value, i, limit, p)
  {
    j := i;
    while j < limit && p(value[j])
      invariant SkipWhile(value, i, limit, p) == SkipWhile(value, j, limit, p)
    {
      j := j + 1;
    }
  }

  /** The loop form of `SkipBack`. */
  method ScanBack(value: string, i: nat, low: nat, p: char -> bool) returns (j: nat)
    requires low <= i <= |value|
    ensures j == SkipBack(value, i, low, p)
  {
    j := i;
    while j > low && p(value[j - 1])
      invariant low <= j <= i
      invariant SkipBack(value, i, low, p) == SkipBack(value, j, low, p)
    {
      j := j - 1;
    }
  }

  datatype Line = Line(end: nat, next: nat)

  /** The position after the line break at `at`; CRLF is one break. */
  function BreakEnd(value: string, at: nat): (next: nat)
    requires at <= |value|
    ensures at <= next <= |value|
  {
    if at == |value| || !IsNewline(value[at]) then at
    else if value[at] == '\r' && Is(value, at + 1, '\n') then at + 2 else at + 1
  }

  /** `boundedLine`: the line from `start`, or None when the limit cuts it. */
  function BoundedLine(value: string, start: nat, limit: nat): (line: Option<Line>)
    requires start <= |value| && limit <= |value|
    ensures line.Some? ==>
              && start <= line.value.end <= line.value.next <= |value|
              && (forall k :: start <= k < line.value.end ==> !IsNewline(value[k]))
              && (line.value.end < limit ==> line.value.end < line.value.next)
              && (line.value.end < line.value.next ==> IsNewline(value[line.value.end]))
              && line.value.next == BreakEnd(value, line.value.end)
    ensures line.None? <==> limit < |value| && forall k :: start <= k < limit ==> !IsNewline(value[k])
  {
    var end := SkipWhile(value, start, limit, NotNewline);
    if end < limit then
      Some(Line(end, BreakEnd(value, end)))
    else if limit == |value| then Some(Line(limit, limit))
    else None
  }

  function Lower(s: string): string
    ensures |Lower(s)| == |s|
  {
    seq(|s|, i requires 0 <= i < |s| => if 'A' <= s[i] <= 'Z' then (s[i] as int + 32) as char else s[i])
  }

  // ----- header fields -----

  predicate IsClearHeaderLine(value: string, start: nat)
    requires start < |value|
  {
    IsLetter(value[start]) &&
    Is(value, SkipWhile(value, start + 1, Min(|value|, start + 129), IsHeaderChar), ':')
  }

  predicate IsKnownParameterLine(value: string, start: nat)
    requires start < |value|
  {
    var end := SkipWhile(value, start, Min(|value|, start + 64), IsTokenChar);
    Lower(value[start..end]) in {"username", "username*", "realm", "uri", "nonce", "response",
                                 "cnonce", "opaque", "algorithm", "qop", "nc", "userhash"}
  }

  /** The field goes on after the line break: a folded, quoted, listed or known-parameter line. */
  predicate FieldFolds(value: string, newline: nat, quote: Option<char>, lastOutside: Option<char>) {
    && newline + 1 < |value| && !IsClearHeaderLine(value, newline + 1)
    && (IsBlank(value[newline + 1]) || quote.Some? || lastOutside == Some(',')
        || IsKnownParameterLine(value, newline + 1))
  }

  /** `credentialFieldEnd` from `index` on, with the loop's variables as parameters. */
  function FieldEnd(value: string, index: nat, limit: nat, quote: Option<char>, escaped: bool,
                    lastOutside: Option<char>): (end: nat)
    requires limit <= |value|
    ensures end <= |value|
    ensures index <= limit ==>
              index <= end || (index == end + 1 && Is(value, index - 1, '\r') && Is(value, index, '\n'))
    decreases limit - index
  {
    if index >= limit then |value|
    else
      var c := value[index];
      if c == '\n' then
        var boundary := if Is(value, index - 1, '\r') then index - 1 else index;
        if FieldFolds(value, index, quote, lastOutside) then FieldEnd(value, index + 1, limit, quote, escaped, None)
        else boundary
      else if c == '\r' && Is(value, index + 1, '\n') then
        FieldEnd(value, index + 1, limit, quote, escaped, lastOutside)
      else if quote.Some? then
        if escaped then FieldEnd(value, index + 1, limit, quote, false, lastOutside)
        else if c == '\\' then FieldEnd(value, index + 1, limit, quote, true, lastOutside)
        else if c != quote.value then FieldEnd(value, index + 1, limit, quote, false, lastOutside)
        else if c == '\'' && Is(value, index + 1, '\'') then
          if index + 1 >= limit then |value|
          else FieldEnd(value, index + 2, limit, quote, false, lastOutside)
        else FieldEnd(value, index + 1, limit, None, false, Some(c))
      else if IsQuote(c) then FieldEnd(value, index + 1, limit, Some(c), escaped, Some(c))
      else FieldEnd(value, index + 1, limit, None, escaped, if IsBlank(c) then lastOutside else Some(c))
  }

  function CredentialFieldEnd(value: string, start: nat): (end: nat)
    requires start <= |value|
    ensures end <= |value|
    ensures !(Is(value, start - 1, '\r') && Is(value, start, '\n')) ==> start <= end
  {
    FieldEnd(value, start, Min(|value|, start + MAX_CREDENTIAL_FIELD_CODE_UNITS), None, false, None)
  }

  /** `credentialFieldEnd`. */
  method FindCredentialFieldEnd(value: string, start: nat) returns (end: nat)
    requires start <= |value|
    ensures end == CredentialFieldEnd(value, start)
  {
    hide IsClearHeaderLine, IsKnownParameterLine;
    var limit := Min(|value|, start + MAX_CREDENTIAL_FIELD_CODE_UNITS);
    var quote: Option<char>, escaped, lastOutside: Option<char> := None, false, None;
    var index := start;
    while index < limit
      invariant FieldEnd(value, index, limit, quote, escaped, lastOutside) == CredentialFieldEnd(value, start)
    {
      var c := value[index];
      if c == '\n' {
        var boundary := if Is(value, index - 1, '\r') then index - 1 else index;
        if !FieldFolds(value, index, quote, lastOutside) { return boundary; }
        lastOutside := None;
      } else if c == '\r' && Is(value, index + 1, '\n') {
      } else if quote.Some? {
        if escaped {
          escaped := false;
        } else if c == '\\' {
          escaped := true;
        } else if c == quote.value {
          if c == '\'' && Is(value, index + 1, '\'') {
            if index + 1 >= limit { return |value|; }
            index := index + 1;
          } else {
            quote, lastOutside := None, Some(c);
          }
        }
      } else if IsQuote(c) {
        quote, lastOutside := Some(c), Some(c);
      } else if !IsBlank(c) {
        lastOutside := Some(c);
      }
      index := index + 1;
    }
    end := |value|;
  }

  // ----- YAML block scalars -----

  function DashPrefix(value: string, prefix: nat, keyStart: nat): nat
    decreases |value| - prefix
  {
    if Is(value, prefix, '-') && Is(value, prefix + 1, ' ') && prefix < keyStart
    then DashPrefix(value, SkipWhile(value, prefix + 2, |value|, IsSpace), keyStart)
    else prefix
  }

  /** The end of one anchor or tag, which a blank must follow. */
  function PropertyEnd(value: string, index: nat, headerEnd: nat): Option<nat>
    requires headerEnd <= |value|
  {
    var after :=
      if Is(value, index, '!') && Is(value, index + 1, '<') then
        var close := SkipWhile(value, index + 2, headerEnd, NotAngle);
        if close == headerEnd then None else Some(close + 1)
      else
        var token := SkipWhile(value, index + 1, headerEnd, IsTagChar);
        if token == index + 1 then None else Some(token);
    if after.None? then None
    else if !(Is(value, after.value, ' ') || Is(value, after.value, '\t')) then None
    else Some(SkipWhile(value, after.value, |value|, IsBlank))
  }

  /** Anchors and tags before a block header; None seals the value through the end of the text. */
  function YamlProperties(value: string, index: nat, headerEnd: nat, left: nat): Option<nat>
    requires headerEnd <= |value|
    decreases left
  {
    if left == 0 || !(Is(value, index, '&') || Is(value, index, '!')) then Some(index)
    else
      var after := PropertyEnd(value, index, headerEnd);
      if after.None? then None else YamlProperties(value, after.value, headerEnd, left - 1)
  }

  datatype Modifiers = Modifiers(index: nat, indent: Option<nat>, chomping: bool)

  function YamlModifiers(value: string, m: Modifiers, left: nat): Modifiers
    decreases left
  {
    if left == 0 || m.index >= |value| then m
    else
      var c := value[m.index];
      if '1' <= c <= '9' && m.indent.None? then
        YamlModifiers(value, Modifiers(m.index + 1, Some(c as int - '0' as int), m.chomping), left - 1)
      else if (c == '+' || c == '-') && !m.chomping then
        YamlModifiers(value, Modifiers(m.index + 1, m.indent, true), left - 1)
      else m
  }

  predicate IsKeyLine(line: string, from: nat)
    requires from <= |line|
  {
    && from < |line| && (IsLetter(line[from]) || line[from] == '_')
    && var name := SkipWhile(line, from + 1, |line|, IsNameChar);
       Is(line, SkipWhile(line, name, |line|, IsBlank), ':')
  }

  predicate IsClearYamlBoundary(line: string) {
    && |line| <= 256
    && (|| IsKeyLine(line, 0)
        || (Is(line, 0, '-') && Is(line, 1, ' ') && IsKeyLine(line, SkipWhile(line, 1, |line|, IsSpace)))
        || line == "---" || line == "...")
  }

  function PrecedingLineBreak(value: string, lineStart: nat): nat
    requires lineStart >= 2
  {
    if Is(value, lineStart - 2, '\r') then lineStart - 2 else lineStart - 1
  }

  /** The block's lines from `position` on. */
  function YamlBody(value: string, position: nat, limit: nat, keyColumn: nat,
                    contentIndent: Option<nat>, leadingBlank: nat): (end: nat)
    requires 2 <= position <= |value| && limit <= |value|
    ensures position - 2 <= end <= |value|
    decreases |value| - position
  {
    if position == |value| || position >= limit then |value|
    else
      var line := BoundedLine(value, position, limit);
      if line.None? then |value|
      else
        var content := SkipWhile(value, position, line.value.end, IsSpace);
        var indent := content - position;
        var next := line.value.next;
        if content == line.value.end then
          YamlBody(value, next, limit, keyColumn, contentIndent,
                   if contentIndent.None? && indent > leadingBlank then indent else leadingBlank)
        else if value[content] == '\t' then |value|
        else
          var boundary := if indent <= keyColumn && IsClearYamlBoundary(value[content..line.value.end])
                          then PrecedingLineBreak(value, position) else |value|;
          if contentIndent.None? then
            if indent <= keyColumn then boundary
            else if leadingBlank > indent then |value|
            else YamlBody(value, next, limit, keyColumn, Some(indent), leadingBlank)
          else if indent >= contentIndent.value then
            YamlBody(value, next, limit, keyColumn, contentIndent, leadingBlank)
          else boundary
  }

  /** What the line of a key says about its value: no block, a block that cannot be read, or where its lines begin. */
  datatype YamlHeader = NoBlock | Sealed | Block(body: nat, keyColumn: nat, indentation: Option<nat>)

  function LineStart(value: string, keyStart: nat): (at: nat)
    requires keyStart <= |value|
    ensures at <= keyStart
  {
    SkipBack(value, keyStart, if keyStart < 512 then 0 else keyStart - 512, NotNewline)
  }

  function ReadYamlHeader(value: string, start: nat, keyStart: nat): (h: YamlHeader)
    requires keyStart <= start < |value|
    ensures h.Block? ==> start + 2 <= h.body <= |value| && IsNewline(value[h.body - 1])
    ensures h.Block? ==> h.keyColumn == keyStart - LineStart(value, keyStart)
  {
    if !IsBlockStart(value[start]) then NoBlock
    else
      var lineStart := LineStart(value, keyStart);
      if lineStart > 0 && !IsNewline(value[lineStart - 1]) then Sealed
      else
        var prefix := DashPrefix(value, SkipWhile(value, lineStart, |value|, IsSpace), keyStart);
        var header := BoundedLine(value, start, Min(|value|, start + 512));
        if header.None? then Sealed
        else if prefix != keyStart then
          if header.value.next == header.value.end then NoBlock else Sealed
        else ReadYamlProperties(value, start, keyStart - lineStart, header.value)
  }

  lemma HeaderEnds(value: string, start: nat, header: Line)
    requires start < |value| && IsBlockStart(value[start])
    requires BoundedLine(value, start, Min(|value|, start + 512)) == Some(header)
    ensures start <= header.end <= header.next <= |value|
    ensures header.next != header.end ==> start + 2 <= header.next && IsNewline(value[header.next - 1])
  {
  }

  function ReadYamlProperties(value: string, start: nat, keyColumn: nat, header: Line): (h: YamlHeader)
    requires start < |value| && IsBlockStart(value[start])
    requires BoundedLine(value, start, Min(|value|, start + 512)) == Some(header)
    ensures h.Block? ==> start + 2 <= h.body <= |value| && IsNewline(value[h.body - 1]) && h.keyColumn == keyColumn
  {
    hide YamlProperties, YamlModifiers, SkipWhile, BoundedLine, BreakEnd, IsNewline;
    HeaderEnds(value, start, header);
    var index := YamlProperties(value, start, header.end, 8);
    if index.None? then Sealed
    else if !(Is(value, index.value, '|') || Is(value, index.value, '>')) then NoBlock
    else
      var m := YamlModifiers(value, Modifiers(index.value + 1, None, false), 2);
      var after := SkipWhile(value, m.index, |value|, IsBlank);
      if after < header.end && (value[after] != '#' || after == m.index) then Sealed
      else if header.next == header.end then Sealed
      else Block(header.next, keyColumn, if m.indent.None? then None else Some(keyColumn + m.indent.value))
  }

  /** `yamlBlockValueEnd`: None when the value is not a block scalar. */
  function YamlBlockEnd(value: string, start: nat, keyStart: nat): (end: Option<nat>)
    requires keyStart <= start < |value|
    ensures end.Some? ==> start <= end.value <= |value|
  {
    match ReadYamlHeader(value, start, keyStart)
    case NoBlock => None
    case Sealed => Some(|value|)
    case Block(body, keyColumn, indentation) =>
      Some(YamlBody(value, body, BlockLimit(value, start), keyColumn, indentation, 0))
  }

  function BlockLimit(value: string, start: nat): nat { Min(|value|, start + MAX_MULTILINE_SECRET_CODE_UNITS) }

  /** The loop over the lines of a block. */
  method FollowYamlBody(value: string, start: nat, limit: nat, keyColumn: nat, indentation: Option<nat>)
    returns (end: nat)
    requires 2 <= start <= |value| && limit <= |value|
    ensures end == YamlBody(value, start, limit, keyColumn, indentation, 0)
  {
    hide IsClearYamlBoundary, BoundedLine, PrecedingLineBreak, SkipWhile;
    var contentIndent: Option<nat>, leadingBlank: nat, position: nat := indentation, 0, start;
    while position < |value|
      invariant 2 <= position <= |value|
      invariant YamlBody(value, position, limit, keyColumn, contentIndent, leadingBlank)
                == YamlBody(value, start, limit, keyColumn, indentation, 0)
      decreases |value| - position
    {
      if position >= limit { return |value|; }
      var line := BoundedLine(value, position, limit);
      if line.None? { return |value|; }
      var content := ScanForward(value, position, line.value.end, IsSpace);
      var indent := content - position;
      if content == line.value.end {
        if contentIndent.None? && indent > leadingBlank { leadingBlank := indent; }
        position := line.value.next;
        continue;
      }
      if value[content] == '\t' { return |value|; }
      if contentIndent.None? {
        if indent <= keyColumn {
          return if IsClearYamlBoundary(value[content..line.value.end]) then PrecedingLineBreak(value, position)
            else |value|;
        }
        if leadingBlank > indent { return |value|; }
        contentIndent := Some(indent);
      }
      if indent >= contentIndent.value {
        position := line.value.next;
        continue;
      }
      return if indent <= keyColumn && IsClearYamlBoundary(value[content..line.value.end])
        then PrecedingLineBreak(value, position) else |value|;
    }
    end := |value|;
  }

  method SkipDashes(value: string, start: nat, keyStart: nat) returns (prefix: nat)
    ensures prefix == DashPrefix(value, start, keyStart)
  {
    hide SkipWhile;
    prefix := start;
    while Is(value, prefix, '-') && Is(value, prefix + 1, ' ') && prefix < keyStart
      invariant DashPrefix(value, prefix, keyStart) == DashPrefix(value, start, keyStart)
      decreases |value| - prefix
    {
      prefix := ScanForward(value, prefix + 2, |value|, IsSpace);
    }
  }

  method ReadProperty(value: string, start: nat, headerEnd: nat) returns (after: Option<nat>)
    requires headerEnd <= |value|
    ensures after == PropertyEnd(value, start, headerEnd)
  {
    hide SkipWhile;
    var index := start;
    if Is(value, index, '!') && Is(value, index + 1, '<') {
      index := ScanForward(value, index + 2, headerEnd, NotAngle);
      if index == headerEnd { return None; }
      index := index + 1;
    } else {
      index := ScanForward(value, index + 1, headerEnd, IsTagChar);
      if index == start + 1 { return None; }
    }
    if !(Is(value, index, ' ') || Is(value, index, '\t')) { return None; }
    index := ScanForward(value, index, |value|, IsBlank);
    after := Some(index);
  }

  method ReadProperties(value: string, start: nat, headerEnd: nat) returns (after: Option<nat>)
    requires headerEnd <= |value|
    ensures after == YamlProperties(value, start, headerEnd, 8)
  {
    hide PropertyEnd;
    var index, left := start, 8;
    while left > 0 && (Is(value, index, '&') || Is(value, index, '!'))
      invariant YamlProperties(value, index, headerEnd, left) == YamlProperties(value, start, headerEnd, 8)
    {
      var next := ReadProperty(value, index, headerEnd);
      if next.None? { return None; }
      index, left := next.value, left - 1;
    }
    after := Some(index);
  }

  method FindYamlHeader(value: string, start: nat, keyStart: nat) returns (h: YamlHeader)
    requires keyStart <= start < |value|
    ensures h == ReadYamlHeader(value, start, keyStart)
  {
    hide ReadYamlProperties, BoundedLine, DashPrefix, SkipWhile, SkipBack;
    if !IsBlockStart(value[start]) { return NoBlock; }
    var lineStart := ScanBack(value, keyStart, if keyStart < 512 then 0 else keyStart - 512, NotNewline);
    if lineStart > 0 && !IsNewline(value[lineStart - 1]) { return Sealed; }
    var prefix := ScanForward(value, lineStart, |value|, IsSpace);
    prefix := SkipDashes(value, prefix, keyStart);
    var header := BoundedLine(value, start, Min(|value|, start + 512));
    if header.None? { return Sealed; }
    if prefix != keyStart { return if header.value.next == header.value.end then NoBlock else Sealed; }
    h := FindYamlProperties(value, start, keyStart - lineStart, header.value);
  }

  method FindYamlProperties(value: string, start: nat, keyColumn: nat, header: Line) returns (h: YamlHeader)
    requires start < |value| && IsBlockStart(value[start])
    requires BoundedLine(value, start, Min(|value|, start + 512)) == Some(header)
    ensures h == ReadYamlProperties(value, start, keyColumn, header)
  {
    hide YamlProperties, YamlModifiers, SkipWhile;
    var index := ReadProperties(value, start, header.end);
    if index.None? { return Sealed; }
    if !(Is(value, index.value, '|') || Is(value, index.value, '>')) { return NoBlock; }
    var m := YamlModifiers(value, Modifiers(index.value + 1, None, false), 2);
    var after := ScanForward(value, m.index, |value|, IsBlank);
    if after < header.end && (value[after] != '#' || after == m.index) { return Sealed; }
    if header.next == header.end { return Sealed; }
    h := Block(header.next, keyColumn, if m.indent.None? then None else Some(keyColumn + m.indent.value));
  }

  /** `yamlBlockValueEnd`. */
  method FindYamlBlockEnd(value: string, start: nat, keyStart: nat) returns (end: Option<nat>)
    requires keyStart <= start < |value|
    ensures end == YamlBlockEnd(value, start, keyStart)
  {
    hide YamlBody, ReadYamlHeader;
    var h := FindYamlHeader(value, start, keyStart);
    if h.NoBlock? { return None; }
    if h.Sealed? { return Some(|value|); }
    var body := FollowYamlBody(value, h.body, BlockLimit(value, start), h.keyColumn, h.indentation);
    end := Some(body);
  }

  // ----- shell continuations -----

  predicate IsBackslash(c: char) { c == '\\' }

  /** An odd number of backslashes, none before `from`, ends at `at`. */
  predicate OddRun(value: string, from: nat, at: nat)
    requires from <= at <= |value|
  {
    (at - SkipBack(value, at, from, IsBackslash)) % 2 == 1
  }

  predicate HasOddTerminalBackslashes(value: string, lineEnd: nat)
    requires lineEnd <= |value|
  {
    OddRun(value, 0, lineEnd)
  }

  function ShellLimit(value: string, start: nat): nat {
    Min(|value|, start + MAX_MULTILINE_SECRET_CODE_UNITS)
  }

  /** Follows continued lines from a newline that an odd run of backslashes precedes. */
  function ContinuedEnd(value: string, newline: nat, limit: nat): (end: nat)
    requires newline < |value| && limit <= |value|
    ensures newline <= end <= |value|
    decreases |value| - newline
  {
    var nextStart := newline + if value[newline] == '\r' && Is(value, newline + 1, '\n') then 2 else 1;
    if nextStart >= |value| then |value|
    else
      var next := SkipWhile(value, nextStart, limit, NotNewline);
      if (next == limit && limit < |value|) || next >= |value| then |value|
      else if !HasOddTerminalBackslashes(value, next) then next
      else ContinuedEnd(value, next, limit)
  }

  /** `continuedShellValueEnd` with the newline searched afresh every time. */
  function ShellEnd(value: string, start: nat, atomEnd: nat): (end: nat)
    requires start <= atomEnd <= |value|
    ensures atomEnd <= end <= |value|
  {
    if atomEnd == |value| || !(IsBlank(value[atomEnd]) || IsNewline(value[atomEnd])) then atomEnd
    else ShellEndAt(value, start, atomEnd, SkipWhile(value, atomEnd, ShellLimit(value, start), NotNewline))
  }

  function ShellEndAt(value: string, start: nat, atomEnd: nat, newline: nat): (end: nat)
    requires start <= atomEnd <= |value|
    ensures atomEnd <= end <= |value| || newline < atomEnd
  {
    var limit := ShellLimit(value, start);
    if newline == limit && limit < |value| then |value|
    else if newline >= |value| then atomEnd
    else if !HasOddTerminalBackslashes(value, newline) then atomEnd
    else ContinuedEnd(value, newline, limit)
  }

  /** The mutable newline cache that one pass threads through its calls. */
  class ShellLine {
    var newline: int

    constructor ()
      ensures newline == -1
    {
      newline := -1;
    }
  }

  /** The cached newline answers every later search that starts beyond `cursor`. */
  ghost predicate CacheServes(value: string, newline: int, cursor: nat) {
    || newline <= cursor
    || (&& newline <= |value| && newline <= cursor + MAX_MULTILINE_SECRET_CODE_UNITS
        && (forall k :: cursor <= k < newline ==> !IsNewline(value[k]))
        && (newline < |value| ==> IsNewline(value[newline])))
  }

  lemma CacheIsFresh(value: string, newline: int, cursor: nat, start: nat, atomEnd: nat)
    requires cursor < start <= atomEnd <= newline && CacheServes(value, newline, cursor)
    ensures newline == SkipWhile(value, atomEnd, ShellLimit(value, start), NotNewline)
  {
    var first := SkipWhile(value, atomEnd, ShellLimit(value, start), NotNewline);
    assert first < newline ==> NotNewline(value[first]);
    assert newline < first ==> NotNewline(value[newline]);
  }

  lemma FreshServes(value: string, start: nat, atomEnd: nat, end: nat)
    requires start <= atomEnd < |value|
    requires end == ShellEndAt(value, start, atomEnd, SkipWhile(value, atomEnd, ShellLimit(value, start), NotNewline))
    ensures end == |value| || CacheServes(value, SkipWhile(value, atomEnd, ShellLimit(value, start), NotNewline), end)
  {
    var newline := SkipWhile(value, atomEnd, ShellLimit(value, start), NotNewline);
    forall k | end <= k < newline ensures !IsNewline(value[k]) { assert NotNewline(value[k]); }
  }

  /** `continuedShellValueEnd` with its cache agrees with the fresh search, call after call. */
  method ContinuedShellValueEnd(value: string, start: nat, atomEnd: nat, cache: ShellLine, ghost cursor: nat)
    returns (end: nat)
    requires cursor < start <= atomEnd <= |value| && CacheServes(value, cache.newline, cursor)
    modifies cache
    ensures end == ShellEnd(value, start, atomEnd)
    ensures end == |value| || CacheServes(value, cache.newline, end)
  {
    if atomEnd == |value| || !(IsBlank(value[atomEnd]) || IsNewline(value[atomEnd])) {
      return atomEnd;
    }
    var limit := ShellLimit(value, start);
    var newline := cache.newline;
    if newline < atomEnd {
      newline := ScanForward(value, atomEnd, limit, NotNewline);
      cache.newline := newline;
    } else {
      CacheIsFresh(value, newline, cursor, start, atomEnd);
    }
    ghost var answer := ShellEnd(value, start, atomEnd);
    FreshServes(value, start, atomEnd, answer);
    if newline == limit && limit < |value| { return |value|; }
    if newline >= |value| { return atomEnd; }
    if !HasOddTerminalBackslashes(value, newline) { return atomEnd; }
    end := FollowContinuations(value, newline, limit);
  }

  /** The `while (true)` tail of `continuedShellValueEnd`. */
  method FollowContinuations(value: string, start: nat, limit: nat) returns (end: nat)
    requires start < |value| && limit <= |value|
    ensures end == ContinuedEnd(value, start, limit)
  {
    var newline := start;
    while true
      invariant newline < |value| && ContinuedEnd(value, start, limit) == ContinuedEnd(value, newline, limit)
      decreases |value| - newline
    {
      var nextStart := newline + if value[newline] == '\r' && Is(value, newline + 1, '\n') then 2 else 1;
      if nextStart >= |value| { return |value|; }
      newline := ScanForward(value, nextStart, limit, NotNewline);
      if newline == limit && limit < |value| { return |value|; }
      if newline >= |value| { return |value|; }
      if !HasOddTerminalBackslashes(value, newline) { return newline; }
    }
  }

  // ----- assignment values -----

  predicate IsSafeValueBoundary(c: char) { IsWhitespace(c) || c in ",&;}])" }

  ghost function AssignmentValueEnd(value: string, start: nat): (end: nat)
    requires start < |value|
    ensures start <= end <= |value|
  {
    if IsStructuredOpening(value, start) then
      var end := StructuredEnd(value, start);
      if end == |value| || IsSafeValueBoundary(value[end]) then end else |value|
    else
      var atom := SkipWhile(value, start, |value|, IsAtomChar);
      if exists k :: start <= k < atom && IsQuote(value[k]) then |value|
      else ShellEnd(value, start, atom)
  }

  method SecretAssignmentValueEnd(value: string, start: nat, cache: ShellLine, ghost cursor: nat)
    returns (end: nat)
    requires cursor < start < |value| && CacheServes(value, cache.newline, cursor)
    modifies cache
    ensures end == AssignmentValueEnd(value, start)
    ensures end == |value| || CacheServes(value, cache.newline, end)
  {
    if IsStructuredOpening(value, start) {
      if IsQuote(value[start]) { end := QuotedValueEnd(value, start); }
      else { end := BracketedValueEnd(value, start); }
      if end == |value| || IsSafeValueBoundary(value[end]) { return end; }
      return |value|;
    }
    var index, ambiguousQuote := start, false;
    while index < |value| && IsAtomChar(value[index])
      invariant start <= index <= |value|
      invariant SkipWhile(value, start, |value|, IsAtomChar) == SkipWhile(value, index, |value|, IsAtomChar)
      invariant ambiguousQuote <==> exists k :: start <= k < index && IsQuote(value[k])
    {
      if IsQuote(value[index]) { ambiguousQuote := true; }
      index := index + 1;
    }
    if ambiguousQuote { return |value|; }
    end := ContinuedShellValueEnd(value, start, index, cache, cursor);
  }
}
