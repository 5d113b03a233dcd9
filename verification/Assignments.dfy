/**
 Passes of contract/redaction.ts that mask the values of secret assignments: single-quoted
 YAML keys, double-quoted keys, and bare keys before `=` or `:`.
 */
module Assignments {
  import opened Text
  import opened SpanTrace
  import opened Brackets
  import opened ValueEnds
  import opened Passes

  /** What one candidate key leads to: nothing, a masked range, or a mask through the end. */
  datatype Move = Pass | Hide(start: nat, end: nat) | Seal(start: nat)

  /** A move that touches only text after `low`. */
  predicate After(m: Move, low: nat, n: nat) {
    match m
    case Pass => true
    case Hide(start, end) => low < start <= end <= n
    case Seal(start) => low <= start <= n && 0 < n
  }

  function KeyOf(policy: Policy, rawKey: string): string
    requires 2 <= |rawKey|
  {
    match policy.jsonKey(rawKey)
    case Some(key) => key
    case None => rawKey[1..|rawKey| - 1]
  }

  function ValueLimit(value: string, start: nat): nat {
    Min(|value|, start + MAX_MULTILINE_SECRET_CODE_UNITS)
  }

  // ----- single-quoted YAML keys -----

  function YamlKeyEnd(value: string, keyEnd: nat, keyLimit: nat): (end: nat)
    requires keyLimit <= |value|
    ensures keyEnd <= end
    decreases keyLimit - keyEnd
  {
    if keyEnd >= keyLimit || IsNewline(value[keyEnd]) then keyEnd
    else if value[keyEnd] != '\'' then YamlKeyEnd(value, keyEnd + 1, keyLimit)
    else if Is(value, keyEnd + 1, '\'') then YamlKeyEnd(value, keyEnd + 2, keyLimit)
    else keyEnd
  }

  /** `replaceAll("''", "'")`. */
  function Collapse(s: string): string {
    if |s| < 2 then s
    else if s[0] == '\'' && s[1] == '\'' then "'" + Collapse(s[2..])
    else [s[0]] + Collapse(s[1..])
  }

  function YamlMove(policy: Policy, value: string, keyStart: nat): (m: Move)
    requires keyStart < |value|
    ensures After(m, keyStart, |value|)
  {
    var keyLimit := Min(|value|, keyStart + 512);
    var keyEnd := YamlKeyEnd(value, keyStart + 1, keyLimit);
    if keyEnd >= keyLimit || value[keyEnd] != '\'' then Pass
    else if !policy.isSecretKey(Collapse(value[keyStart + 1..keyEnd])) then Pass
    else
      var separator := SkipWhile(value, keyEnd + 1, keyLimit, IsBlank);
      if separator >= keyLimit then Seal(keyStart)
      else if value[separator] != ':' then Pass
      else
        var limit := ValueLimit(value, separator + 1);
        var start := SkipWhile(value, separator + 1, limit, IsBlank);
        if start == limit && limit < |value| then Seal(separator + 1)
        else if start >= |value| then Pass
        else match YamlBlockEnd(value, start, keyStart)
          case None => Pass
          case Some(end) => Hide(start, end)
  }

  function YamlEdits(policy: Policy, value: string, replacement: string, search: nat): (edits: seq<Edit>)
    ensures WellFormed(edits, search, |value|)
    ensures Unmasked(edits)
    decreases |value| - search
  {
    hide YamlMove, IndexOf;
    var keyStart := IndexOf(value, "'", search);
    if keyStart < 0 then []
    else match YamlMove(policy, value, keyStart)
      case Pass =>
        var rest := YamlEdits(policy, value, replacement, keyStart + 1);
        WellFormedWiden(rest, keyStart + 1, |value|, search, |value|);
        rest
      case Hide(start, end) => [Mask(start, end, replacement)] + YamlEdits(policy, value, replacement, end)
      case Seal(start) => [Mask(start, |value|, replacement)]
  }

  method FindYamlKeyEnd(value: string, start: nat, keyLimit: nat) returns (keyEnd: nat)
    requires keyLimit <= |value|
    ensures keyEnd == YamlKeyEnd(value, start, keyLimit)
  {
    keyEnd := start;
    while keyEnd < keyLimit && !IsNewline(value[keyEnd])
      invariant YamlKeyEnd(value, keyEnd, keyLimit) == YamlKeyEnd(value, start, keyLimit)
    {
      if value[keyEnd] != '\'' {
        keyEnd := keyEnd + 1;
      } else if Is(value, keyEnd + 1, '\'') {
        keyEnd := keyEnd + 2;
      } else {
        return;
      }
    }
  }

  /** The body of the loop for one single-quoted key. */
  method YamlCandidate(policy: Policy, value: string, keyStart: nat) returns (m: Move)
    requires keyStart < |value|
    ensures m == YamlMove(policy, value, keyStart)
  {
    hide YamlBlockEnd, YamlKeyEnd, Collapse, SkipWhile, IsBlank;
    var keyLimit := Min(|value|, keyStart + 512);
    var keyEnd := FindYamlKeyEnd(value, keyStart + 1, keyLimit);
    if keyEnd >= keyLimit || value[keyEnd] != '\'' { return Pass; }
    if !policy.isSecretKey(Collapse(value[keyStart + 1..keyEnd])) { return Pass; }
    var separator := ScanForward(value, keyEnd + 1, keyLimit, IsBlank);
    if separator >= keyLimit { return Seal(keyStart); }
    if value[separator] != ':' { return Pass; }
    var limit := ValueLimit(value, separator + 1);
    var start := ScanForward(value, separator + 1, limit, IsBlank);
    if start == limit && limit < |value| { return Seal(separator + 1); }
    if start >= |value| { return Pass; }
    var end := FindYamlBlockEnd(value, start, keyStart);
    m := if end.None? then Pass else Hide(start, end.value);
  }

  method RedactSingleQuotedYaml(policy: Policy, value: string, replacement: string)
    returns (text: string, edits: seq<Edit>)
    ensures edits == YamlEdits(policy, value, replacement, 0)
    ensures WellFormed(edits, 0, |value|) && text == Splice(value, edits, 0)
  {
    hide *;
    EmittedStart(value);
    var chunks: seq<string>, cursor, search := [], 0, 0;
    edits := [];
    while search < |value|
      invariant 0 <= cursor <= search <= |value| && Emitted(value, chunks, edits, cursor)
      invariant edits + YamlEdits(policy, value, replacement, search) == YamlEdits(policy, value, replacement, 0)
    {
      YamlStep(policy, value, replacement, edits, cursor, search);
      var keyStart := IndexOf(value, "'", search);
      if keyStart < 0 { break; }
      search := keyStart + 1;
      var move := YamlCandidate(policy, value, keyStart);
      if move.Pass? { continue; }
      if move.Seal? {
        chunks, edits, cursor := Emit(value, chunks, edits, cursor, Mask(move.start, |value|, replacement));
        text := Finish(value, chunks, edits, cursor);
        return;
      }
      chunks, edits, cursor := Emit(value, chunks, edits, cursor, Mask(move.start, move.end, replacement));
      search := move.end;
    }
    YamlStep(policy, value, replacement, edits, cursor, search);
    text := Finish(value, chunks, edits, cursor);
  }

  lemma YamlStep(policy: Policy, value: string, replacement: string, done: seq<Edit>, cursor: nat, search: nat)
    requires cursor <= search <= |value|
    ensures var keyStart, rest := IndexOf(value, "'", search), YamlEdits(policy, value, replacement, search);
            if keyStart < 0 then done + rest == done
            else
              && search <= keyStart < |value|
              && match YamlMove(policy, value, keyStart)
                 case Pass => rest == YamlEdits(policy, value, replacement, keyStart + 1)
                 case Hide(start, end) =>
                   var e := Mask(start, end, replacement);
                   && EditFits(e, cursor, |value|) && search < e.end == end
                   && done + rest == done + [e] + YamlEdits(policy, value, replacement, end)
                 case Seal(start) =>
                   var e := Mask(start, |value|, replacement);
                   EditFits(e, cursor, |value|) && 0 < e.end && done + rest == done + [e]
    ensures search == |value| ==> IndexOf(value, "'", search) < 0
  {
    hide YamlMove, WellFormed, IndexOf;
    var keyStart := IndexOf(value, "'", search);
    if keyStart >= 0 {
      var m := YamlMove(policy, value, keyStart);
      if m.Hide? { Shift(done, Mask(m.start, m.end, replacement), YamlEdits(policy, value, replacement, m.end)); }
    }
  }

  // ----- double-quoted keys -----

  function QuoteEnd(value: string, index: nat, escaped: bool): (end: int)
    requires index <= |value|
    ensures end == -1 || index < end <= |value|
    decreases |value| - index
  {
    if index == |value| then -1
    else if escaped then QuoteEnd(value, index + 1, false)
    else if value[index] == '\\' then QuoteEnd(value, index + 1, true)
    else if value[index] == '"' then index + 1
    else QuoteEnd(value, index + 1, false)
  }

  /** `doubleQuotedEnd`. */
  method FindQuoteEnd(value: string, start: nat) returns (end: int)
    requires start <= |value|
    ensures end == QuoteEnd(value, start, false)
  {
    var escaped := false;
    for index := start to |value|
      invariant QuoteEnd(value, index, escaped) == QuoteEnd(value, start, false)
    {
      if escaped {
        escaped := false;
      } else if value[index] == '\\' {
        escaped := true;
      } else if value[index] == '"' {
        return index + 1;
      }
    }
    end := -1;
  }

  ghost function QuotedMove(policy: Policy, value: string, structuredOnly: bool, keyStart: nat, keyEnd: nat): (m: Move)
    requires keyStart + 2 <= keyEnd <= |value|
    ensures After(m, keyEnd, |value|)
  {
    var separator := SkipWhile(value, keyEnd, |value|, IsWhitespace);
    if !Is(value, separator, ':') && !Is(value, separator, '=') then Pass
    else if !policy.isSecretKey(KeyOf(policy, value[keyStart..keyEnd])) then Pass
    else
      var limit := ValueLimit(value, separator + 1);
      var start := SkipWhile(value, separator + 1, limit, IsWhitespace);
      if start == limit && limit < |value| then Seal(separator + 1)
      else if start >= |value| || IsStructuredOpening(value, start) != structuredOnly then Pass
      else
        var yamlEnd := if !structuredOnly && value[separator] == ':' then YamlBlockEnd(value, start, keyStart)
          else None;
        Hide(start, if yamlEnd.Some? then yamlEnd.value else AssignmentValueEnd(value, start))
  }

  ghost function QuotedEdits(policy: Policy, value: string, replacement: string, structuredOnly: bool,
                             index: nat): (edits: seq<Edit>)
    ensures WellFormed(edits, index, |value|)
    ensures Unmasked(edits)
    decreases |value| - index
  {
    hide QuotedMove, IndexOf, QuoteEnd;
    var keyStart := IndexOf(value, "\"", index);
    if keyStart < 0 then []
    else
      var keyEnd := QuoteEnd(value, keyStart + 1, false);
      if keyEnd < 0 then []
      else match QuotedMove(policy, value, structuredOnly, keyStart, keyEnd)
        case Pass =>
          var rest := QuotedEdits(policy, value, replacement, structuredOnly, keyEnd);
          WellFormedWiden(rest, keyEnd, |value|, index, |value|);
          rest
        case Hide(start, end) =>
          [Mask(start, end, replacement)] + QuotedEdits(policy, value, replacement, structuredOnly, end)
        case Seal(start) => [Mask(start, |value|, replacement)]
  }

  lemma CacheMoves(value: string, newline: int, cursor: nat, later: nat)
    requires cursor <= later && CacheServes(value, newline, cursor)
    ensures CacheServes(value, newline, later)
  {
  }

  /** The body of the loop for one quoted key, with the shared newline cache. */
  method QuotedCandidate(policy: Policy, value: string, structuredOnly: bool, keyStart: nat, keyEnd: nat,
                         cache: ShellLine, ghost cursor: nat)
    returns (m: Move)
    requires cursor <= keyStart && keyStart + 2 <= keyEnd <= |value| && CacheServes(value, cache.newline, cursor)
    modifies cache
    ensures m == QuotedMove(policy, value, structuredOnly, keyStart, keyEnd)
    ensures m.Pass? ==> cache.newline == old(cache.newline)
    ensures m.Hide? ==> m.end == |value| || CacheServes(value, cache.newline, m.end)
  {
    hide AssignmentValueEnd, CacheServes, YamlBlockEnd, SkipWhile, IsWhitespace;
    var separator := ScanForward(value, keyEnd, |value|, IsWhitespace);
    if !Is(value, separator, ':') && !Is(value, separator, '=') { return Pass; }
    if !policy.isSecretKey(KeyOf(policy, value[keyStart..keyEnd])) { return Pass; }
    var limit := ValueLimit(value, separator + 1);
    var start := ScanForward(value, separator + 1, limit, IsWhitespace);
    if start == limit && limit < |value| { return Seal(separator + 1); }
    if start >= |value| || IsStructuredOpening(value, start) != structuredOnly { return Pass; }
    var yamlEnd: Option<nat> := None;
    if !structuredOnly && value[separator] == ':' { yamlEnd := FindYamlBlockEnd(value, start, keyStart); }
    var end;
    if yamlEnd.Some? {
      end := yamlEnd.value;
      CacheMoves(value, cache.newline, cursor, end);
    } else {
      end := SecretAssignmentValueEnd(value, start, cache, cursor);
    }
    m := Hide(start, end);
  }

  method RedactQuotedAssignments(policy: Policy, value: string, replacement: string, structuredOnly: bool)
    returns (text: string, edits: seq<Edit>)
    ensures edits == QuotedEdits(policy, value, replacement, structuredOnly, 0)
    ensures WellFormed(edits, 0, |value|) && text == Splice(value, edits, 0)
  {
    hide *;
    EmittedStart(value);
    var chunks: seq<string>, cursor, index := [], 0, 0;
    edits := [];
    var shellLine := new ShellLine();
    CacheStart(value);
    while index < |value|
      invariant 0 <= cursor <= index <= |value| && Emitted(value, chunks, edits, cursor)
      invariant index == |value| || CacheServes(value, shellLine.newline, cursor)
      invariant edits + QuotedEdits(policy, value, replacement, structuredOnly, index)
                == QuotedEdits(policy, value, replacement, structuredOnly, 0)
    {
      QuotedStep(policy, value, replacement, structuredOnly, edits, cursor, index);
      var keyStart := IndexOf(value, "\"", index);
      if keyStart < 0 { break; }
      var keyEnd := FindQuoteEnd(value, keyStart + 1);
      if keyEnd < 0 { break; }
      index := keyEnd;
      var move := QuotedCandidate(policy, value, structuredOnly, keyStart, keyEnd, shellLine, cursor);
      if move.Pass? { continue; }
      if move.Seal? {
        chunks, edits, cursor := Emit(value, chunks, edits, cursor, Mask(move.start, |value|, replacement));
        text := Finish(value, chunks, edits, cursor);
        return;
      }
      chunks, edits, cursor := Emit(value, chunks, edits, cursor, Mask(move.start, move.end, replacement));
      index := move.end;
    }
    QuotedStep(policy, value, replacement, structuredOnly, edits, cursor, index);
    text := Finish(value, chunks, edits, cursor);
  }

  lemma CacheStart(value: string)
    ensures CacheServes(value, -1, 0)
  {
  }

  lemma QuotedStep(policy: Policy, value: string, replacement: string, structuredOnly: bool, done: seq<Edit>,
                   cursor: nat, index: nat)
    requires cursor <= index <= |value|
    ensures var keyStart := IndexOf(value, "\"", index);
            var rest := QuotedEdits(policy, value, replacement, structuredOnly, index);
            if keyStart < 0 then done + rest == done
            else
              && index <= keyStart < |value|
              && var keyEnd := QuoteEnd(value, keyStart + 1, false);
                 if keyEnd < 0 then done + rest == done
                 else
                   && keyStart + 2 <= keyEnd <= |value|
                   && match QuotedMove(policy, value, structuredOnly, keyStart, keyEnd)
                      case Pass => rest == QuotedEdits(policy, value, replacement, structuredOnly, keyEnd)
                      case Hide(start, end) =>
                        var e := Mask(start, end, replacement);
                        && EditFits(e, cursor, |value|) && index < e.end == end
                        && done + rest == done + [e] + QuotedEdits(policy, value, replacement, structuredOnly, end)
                      case Seal(start) =>
                        var e := Mask(start, |value|, replacement);
                        EditFits(e, cursor, |value|) && 0 < e.end && done + rest == done + [e]
    ensures index == |value| ==> IndexOf(value, "\"", index) < 0
  {
    hide QuotedMove, WellFormed, IndexOf, QuoteEnd;
    var keyStart := IndexOf(value, "\"", index);
    if keyStart >= 0 {
      var keyEnd := QuoteEnd(value, keyStart + 1, false);
      if keyEnd >= 0 {
        var m := QuotedMove(policy, value, structuredOnly, keyStart, keyEnd);
        if m.Hide? {
          Shift(done, Mask(m.start, m.end, replacement),
                QuotedEdits(policy, value, replacement, structuredOnly, m.end));
        }
      }
    }
  }

  // ----- bare keys -----

  predicate IsSeparator(value: string, i: int) { Is(value, i, '=') || Is(value, i, ':') }

  ghost function UnquotedMove(policy: Policy, value: string, structuredOnly: bool, cursor: nat,
                              separator: nat): (m: Move)
    requires cursor <= separator < |value|
    ensures After(m, separator, |value|)
  {
    var keyEnd := SkipBack(value, separator, cursor, IsWhitespace);
    var keyStart := SkipBack(value, keyEnd, cursor, IsNameChar);
    var key := value[keyStart..keyEnd];
    var normalized := policy.normalizeKey(key);
    if keyStart == keyEnd || !policy.isSecretKey(key) then Pass
    else if !structuredOnly && normalized == "authorization" && value[separator] == ':' then Pass
    else
      var limit := ValueLimit(value, separator + 1);
      var start := SkipWhile(value, separator + 1, limit, IsWhitespace);
      if start == limit && limit < |value| then Seal(separator + 1)
      else if start >= |value| || IsStructuredOpening(value, start) != structuredOnly then Pass
      else
        var yamlEnd := if !structuredOnly && value[separator] == ':' then YamlBlockEnd(value, start, keyStart)
          else None;
        Hide(start,
             if yamlEnd.Some? then yamlEnd.value
             else if !structuredOnly && (normalized == "auth" || normalized == "authorization")
             then ShellEnd(value, start, CredentialFieldEnd(value, start))
             else AssignmentValueEnd(value, start))
  }

  ghost function UnquotedEdits(policy: Policy, value: string, replacement: string, structuredOnly: bool, cursor: nat,
                               at: nat): (edits: seq<Edit>)
    ensures WellFormed(edits, cursor, |value|)
    ensures Unmasked(edits)
    decreases |value| - at
  {
    hide UnquotedMove;
    if at >= |value| then []
    else if !IsSeparator(value, at) || at < cursor then
      UnquotedEdits(policy, value, replacement, structuredOnly, cursor, at + 1)
    else match UnquotedMove(policy, value, structuredOnly, cursor, at)
      case Pass => UnquotedEdits(policy, value, replacement, structuredOnly, cursor, at + 1)
      case Hide(start, end) =>
        [Mask(start, end, replacement)] + UnquotedEdits(policy, value, replacement, structuredOnly, end, at + 1)
      case Seal(start) => [Mask(start, |value|, replacement)]
  }

  /** The body of the loop for one separator, with the shared newline cache. */
  method UnquotedCandidate(policy: Policy, value: string, structuredOnly: bool, cursor: nat, separator: nat,
                           cache: ShellLine)
    returns (m: Move)
    requires cursor <= separator < |value| && CacheServes(value, cache.newline, cursor)
    modifies cache
    ensures m == UnquotedMove(policy, value, structuredOnly, cursor, separator)
    ensures m.Pass? ==> cache.newline == old(cache.newline)
    ensures m.Hide? ==> m.end == |value| || CacheServes(value, cache.newline, m.end)
  {
    hide AssignmentValueEnd, CacheServes, YamlBlockEnd, ShellEnd, CredentialFieldEnd, SkipWhile, SkipBack, IsNameChar;
    var keyEnd := ScanBack(value, separator, cursor, IsWhitespace);
    var keyStart := ScanBack(value, keyEnd, cursor, IsNameChar);
    if keyStart == keyEnd { return Pass; }
    var key := value[keyStart..keyEnd];
    if !policy.isSecretKey(key) { return Pass; }
    var normalized := policy.normalizeKey(key);
    if !structuredOnly && normalized == "authorization" && value[separator] == ':' { return Pass; }
    var limit := ValueLimit(value, separator + 1);
    var start := ScanForward(value, separator + 1, limit, IsWhitespace);
    if start == limit && limit < |value| { return Seal(separator + 1); }
    if start >= |value| || IsStructuredOpening(value, start) != structuredOnly { return Pass; }
    var yamlEnd: Option<nat> := None;
    if !structuredOnly && value[separator] == ':' { yamlEnd := FindYamlBlockEnd(value, start, keyStart); }
    var end;
    if yamlEnd.Some? {
      end := yamlEnd.value;
      CacheMoves(value, cache.newline, cursor, end);
    } else if !structuredOnly && (normalized == "auth" || normalized == "authorization") {
      end := FindCredentialFieldEnd(value, start);
      end := ContinuedShellValueEnd(value, start, end, cache, cursor);
    } else {
      end := SecretAssignmentValueEnd(value, start, cache, cursor);
    }
    m := Hide(start, end);
  }

  method RedactUnquotedAssignments(policy: Policy, value: string, replacement: string, structuredOnly: bool)
    returns (text: string, edits: seq<Edit>)
    ensures edits == UnquotedEdits(policy, value, replacement, structuredOnly, 0, 0)
    ensures WellFormed(edits, 0, |value|) && text == Splice(value, edits, 0)
  {
    hide *;
    EmittedStart(value);
    var chunks: seq<string>, cursor := [], 0;
    edits := [];
    var shellLine := new ShellLine();
    CacheStart(value);
    for separator := 0 to |value|
      invariant 0 <= cursor <= |value| && Emitted(value, chunks, edits, cursor)
      invariant cursor == |value| || CacheServes(value, shellLine.newline, cursor)
      invariant edits + UnquotedEdits(policy, value, replacement, structuredOnly, cursor, separator)
                == UnquotedEdits(policy, value, replacement, structuredOnly, 0, 0)
    {
      UnquotedStep(policy, value, replacement, structuredOnly, edits, cursor, separator);
      if !IsSeparator(value, separator) || separator < cursor { continue; }
      var move := UnquotedCandidate(policy, value, structuredOnly, cursor, separator, shellLine);
      if move.Pass? { continue; }
      if move.Seal? {
        chunks, edits, cursor := Emit(value, chunks, edits, cursor, Mask(move.start, |value|, replacement));
        text := Finish(value, chunks, edits, cursor);
        return;
      }
      chunks, edits, cursor := Emit(value, chunks, edits, cursor, Mask(move.start, move.end, replacement));
    }
    UnquotedStop(policy, value, replacement, structuredOnly, edits, cursor);
    text := Finish(value, chunks, edits, cursor);
  }

  lemma UnquotedStop(policy: Policy, value: string, replacement: string, structuredOnly: bool, done: seq<Edit>,
                     cursor: nat)
    ensures done + UnquotedEdits(policy, value, replacement, structuredOnly, cursor, |value|) == done
  {
  }

  lemma UnquotedStep(policy: Policy, value: string, replacement: string, structuredOnly: bool, done: seq<Edit>,
                     cursor: nat, at: nat)
    requires at < |value|
    ensures var rest := UnquotedEdits(policy, value, replacement, structuredOnly, cursor, at);
            if !IsSeparator(value, at) || at < cursor then
              rest == UnquotedEdits(policy, value, replacement, structuredOnly, cursor, at + 1)
            else match UnquotedMove(policy, value, structuredOnly, cursor, at)
              case Pass => rest == UnquotedEdits(policy, value, replacement, structuredOnly, cursor, at + 1)
              case Hide(start, end) =>
                var e := Mask(start, end, replacement);
                && EditFits(e, cursor, |value|) && 0 < e.end == end
                && done + rest == done + [e] + UnquotedEdits(policy, value, replacement, structuredOnly, end, at + 1)
              case Seal(start) =>
                var e := Mask(start, |value|, replacement);
                EditFits(e, cursor, |value|) && 0 < e.end && done + rest == done + [e]
  {
    hide UnquotedMove, WellFormed;
    if IsSeparator(value, at) && cursor <= at {
      var m := UnquotedMove(policy, value, structuredOnly, cursor, at);
      if m.Hide? {
        Shift(done, Mask(m.start, m.end, replacement),
              UnquotedEdits(policy, value, replacement, structuredOnly, m.end, at + 1));
      }
    }
  }
}
