/**
 When a continued shell value of contract/redaction.ts ends beyond its budget without taking the rest of the text, and
 two assignments at which it does.
 */
module BudgetLaws {
  import opened Text
  import opened SpanTrace
  import opened Brackets
  import opened ValueEnds
  import opened Passes
  import opened Assignments
  import opened ValueEndLaws

  /**
   The first line break from `atomEnd` on, the limit if there is none before it, or `atomEnd` itself beyond the
   limit.
   */
  function FirstBreak(value: string, start: nat, atomEnd: nat): nat
    requires start <= atomEnd <= |value|
  {
    SkipWhile(value, atomEnd, ShellLimit(value, start), NotNewline)
  }

  /** Only after a blank or a break does the code look for lines that continue the value. */
  predicate MayGoOn(value: string, atomEnd: nat) {
    atomEnd < |value| && (IsBlank(value[atomEnd]) || IsNewline(value[atomEnd]))
  }

  /** An atom longer than the budget, except when a backslash and one blank or break after it end the text. */
  ghost predicate LongAtom(value: string, start: nat, atomEnd: nat)
    requires start <= atomEnd <= |value|
  {
    && ShellLimit(value, start) < atomEnd < |value|
    && !(MayGoOn(value, atomEnd) && OddRun(value, 0, atomEnd) && AfterBreak(value, atomEnd) == |value|)
  }

  /** Continued lines inside the budget, the last of them ending in a CRLF that the budget cuts in two. */
  ghost predicate CutBreak(value: string, start: nat, atomEnd: nat)
    requires start <= atomEnd <= |value|
  {
    var newline, limit := FirstBreak(value, start, atomEnd), ShellLimit(value, start);
    && MayGoOn(value, atomEnd) && newline < limit && OddRun(value, 0, newline)
    && var at := AfterBreak(value, newline);
       var rows := Rows(value, at, limit);
       && AllWithin(value, rows) && AllContinued(value, rows)
       && RowsEnd(rows, at) == limit + 1 < |value| && value[limit - 1] == '\r' && value[limit] == '\n'
  }

  /**
   A value ends beyond its budget, but before the end of the text, exactly when its first atom is longer than the budget
   or the budget cuts a CRLF in two.
   */
  lemma ShellEndOverrunsIff(value: string, start: nat, atomEnd: nat)
    requires start <= atomEnd <= |value|
    ensures ShellLimit(value, start) < ShellEnd(value, start, atomEnd) < |value| <==>
              LongAtom(value, start, atomEnd) || CutBreak(value, start, atomEnd)
  {
    hide ContinuedEnd, Rows, OddRun, SkipWhile;
    var limit, newline := ShellLimit(value, start), FirstBreak(value, start, atomEnd);
    if !MayGoOn(value, atomEnd) {
    } else if atomEnd >= limit {
      BeyondLimit(value, limit, atomEnd);
    } else if newline < limit && OddRun(value, 0, newline) {
      ContinuationOverrunsIff(value, newline, limit);
      PastLimitIs(value, newline, limit);
    }
  }

  /** Beyond the limit no line is scanned. */
  lemma BeyondLimit(value: string, limit: nat, at: nat)
    requires limit <= at < |value| && !IsBackslash(value[at])
    ensures SkipWhile(value, at, limit, NotNewline) == at
    ensures ContinuedEnd(value, at, limit) == AfterBreak(value, at)
  {
    var next := AfterBreak(value, at);
    assert SkipWhile(value, next, limit, NotNewline) == next;
    NoRunHere(value, next);
  }

  /** Lines that begin inside the limit go past it only over a CRLF. */
  lemma PastLimitIs(value: string, newline: nat, limit: nat)
    requires newline < limit <= |value| && IsNewline(value[newline])
    ensures var at := AfterBreak(value, newline);
            PastLimit(value, Rows(value, at, limit), at, limit) <==>
              RowsEnd(Rows(value, at, limit), at) == limit + 1 < |value| && value[limit - 1] == '\r'
                && value[limit] == '\n'
  {
    hide Rows, IsRow, AreLines;
    var at := AfterBreak(value, newline);
    var rows := Rows(value, at, limit);
    RowsAreLines(value, at, limit);
    if rows != [] {
      var k := |rows| - 1;
      RowsEndInside(value, rows, at, limit, k);
      LastBreak(value, rows, at, limit);
    }
  }

  lemma LastBreak(value: string, rows: seq<Row>, position: nat, limit: nat)
    requires AreLines(value, rows, position, limit) && rows != [] && limit <= |value|
    requires rows[|rows| - 1].end < limit || rows[|rows| - 1].end == limit == |value|
    ensures var last := rows[|rows| - 1];
            limit < last.next ==> last.next == limit + 1 && value[limit - 1] == '\r' && value[limit] == '\n'
  {
    var last := rows[|rows| - 1];
    assert IsRow(value, last);
  }

  // ----- two assignments -----

  const KEY := "token="

  /** A secret key that names no authorization field. */
  ghost predicate IsPlainSecret(policy: Policy) {
    && policy.isSecretKey("token") && policy.normalizeKey("token") != "auth"
    && policy.normalizeKey("token") != "authorization"
  }

  ghost predicate IsTokenText(value: string) {
    && 6 < |value| && value[..6] == KEY && (forall k :: 6 <= k < |value| ==> value[k] != '=' && value[k] != ':')
    && !IsWhitespace(value[6]) && !IsStructuredOpening(value, 6)
  }

  lemma {:induction false} NoMoreEdits(policy: Policy, value: string, replacement: string, cursor: nat, at: nat)
    requires forall k :: at <= k < |value| ==> value[k] != '=' && value[k] != ':'
    ensures UnquotedEdits(policy, value, replacement, false, cursor, at) == []
    decreases |value| - at
  {
    if at < |value| { NoMoreEdits(policy, value, replacement, cursor, at + 1); }
  }

  lemma {:induction false} SkipToSeparator(policy: Policy, value: string, replacement: string, at: nat)
    requires IsTokenText(value) && at <= 5
    ensures UnquotedEdits(policy, value, replacement, false, 0, at)
            == UnquotedEdits(policy, value, replacement, false, 0, 5)
    decreases 5 - at
  {
    hide UnquotedMove;
    if at < 5 {
      assert value[at] == value[..6][at] == KEY[at];
      SkipToSeparator(policy, value, replacement, at + 1);
    }
  }

  lemma TokenMove(policy: Policy, value: string)
    requires IsTokenText(value) && IsPlainSecret(policy)
    ensures UnquotedMove(policy, value, false, 0, 5) == Hide(6, AssignmentValueEnd(value, 6))
  {
    hide AssignmentValueEnd, SkipWhile, SkipBack;
    assert forall k :: 0 <= k < 6 ==> value[k] == value[..6][k] == KEY[k];
    assert !IsWhitespace(value[4]);
    assert SkipBack(value, 5, 0, IsWhitespace) == 5;
    var keyStart := SkipBack(value, 5, 0, IsNameChar);
    assert forall k :: 0 <= k < 5 ==> IsNameChar(value[k]);
    assert keyStart == 0;
    assert value[0..5] == "token";
    assert SkipWhile(value, 6, ValueLimit(value, 6), IsWhitespace) == 6;
  }

  /** The only edit in `token=...` is the value's. */
  lemma TokenEdit(policy: Policy, value: string, replacement: string)
    requires IsTokenText(value) && IsPlainSecret(policy)
    ensures UnquotedEdits(policy, value, replacement, false, 0, 0)
            == [Mask(6, AssignmentValueEnd(value, 6), replacement)]
  {
    hide UnquotedMove, AssignmentValueEnd;
    SkipToSeparator(policy, value, replacement, 0);
    TokenMove(policy, value);
    assert value[5] == value[..6][5] == KEY[5];
    NoMoreEdits(policy, value, replacement, AssignmentValueEnd(value, 6), 6);
  }

  const LIMIT := 6 + MAX_MULTILINE_SECRET_CODE_UNITS

  /** A letter and blanks, continued by a backslash before a CRLF that the budget cuts in two, and one more letter. */
  function CutBreakText(): (value: string)
    ensures |value| == LIMIT + 2
  {
    seq(LIMIT + 2, k requires 0 <= k => if k < 6 then KEY[k] else if k == 6 || k == LIMIT + 1 then 'a'
                                        else if k == LIMIT - 2 then '\\' else if k == LIMIT - 1 then '\r'
                                        else if k == LIMIT then '\n' else ' ')
  }

  /** Letters beyond the budget, then a backslash, a break and four more letters. */
  function LongAtomText(): (value: string)
    ensures |value| == LIMIT + 10
  {
    seq(LIMIT + 10, k requires 0 <= k => if k < 6 then KEY[k] else if k == LIMIT + 4 then '\\'
                                         else if k == LIMIT + 5 then '\n' else 'a')
  }

  lemma OneBackslash(value: string, at: nat)
    requires 2 <= at <= |value| && value[at - 1] == '\\' && value[at - 2] != '\\'
    ensures OddRun(value, 0, at)
  {
    assert SkipBack(value, at, 0, IsBackslash) == at - 1;
  }

  lemma CutBreakEnds()
    ensures AssignmentValueEnd(CutBreakText(), 6) == LIMIT + 1
  {
    hide SkipWhile, SkipBack, OddRun, ContinuedEnd;
    var value := CutBreakText();
    SkipExact(value, 6, |value|, IsAtomChar, 7);
    SkipExact(value, 7, LIMIT, NotNewline, LIMIT - 1);
    OneBackslash(value, LIMIT - 1);
    CutBreakContinues(value);
  }

  lemma CutBreakContinues(value: string)
    requires |value| == LIMIT + 2 && value[LIMIT - 1] == '\r' && value[LIMIT] == '\n'
    ensures ContinuedEnd(value, LIMIT - 1, LIMIT) == LIMIT + 1
  {
    hide SkipWhile;
    NoRunHere(value, LIMIT + 1);
    assert SkipWhile(value, LIMIT + 1, LIMIT, NotNewline) == LIMIT + 1;
  }

  lemma LongAtomEnds()
    ensures AssignmentValueEnd(LongAtomText(), 6) == LIMIT + 6
  {
    hide SkipWhile, SkipBack, OddRun, ContinuedEnd;
    var value := LongAtomText();
    assert forall k :: 6 <= k < LIMIT + 5 ==> IsAtomChar(value[k]) && !IsQuote(value[k]);
    SkipExact(value, 6, |value|, IsAtomChar, LIMIT + 5);
    BeyondLimit(value, LIMIT, LIMIT + 5);
    OneBackslash(value, LIMIT + 5);
  }

  /** The value ends after the line break; the letter on the next line stays. */
  lemma CutBreakAssignment(policy: Policy, replacement: string)
    requires IsPlainSecret(policy)
    ensures UnquotedEdits(policy, CutBreakText(), replacement, false, 0, 0)
            == [Mask(6, |CutBreakText()| - 1, replacement)]
  {
    hide UnquotedEdits, AssignmentValueEnd;
    var value := CutBreakText();
    assert value[..6] == KEY;
    CutBreakEnds();
    TokenEdit(policy, value, replacement);
  }

  /** The value ends after the line break; the letters on the continued line stay. */
  lemma LongAtomAssignment(policy: Policy, replacement: string)
    requires IsPlainSecret(policy)
    ensures UnquotedEdits(policy, LongAtomText(), replacement, false, 0, 0)
            == [Mask(6, |LongAtomText()| - 4, replacement)]
  {
    hide UnquotedEdits, AssignmentValueEnd;
    var value := LongAtomText();
    assert value[..6] == KEY;
    LongAtomEnds();
    TokenEdit(policy, value, replacement);
  }
}
