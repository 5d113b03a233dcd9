/**
 Exactly where the scanners of contract/redaction.ts say that a value ends: header fields, YAML blocks and continued
 shell lines, each stated of the text alone.
 */
module ValueEndLaws {
  import opened Text
  import opened Brackets
  import opened ValueEnds

  // ----- header fields -----

  /**
   Where a left-to-right reading of a field stands. `Closing` is a single quote that closes unless another follows.
   */
  datatype Reading = Outside(last: Option<char>) | Inside(quote: char, escaped: bool) | Closing

  function ReadOutside(last: Option<char>, c: char): Reading {
    if IsQuote(c) then Inside(c, false) else if IsBlank(c) then Outside(last) else Outside(Some(c))
  }

  function ReadChar(r: Reading, c: char): Reading {
    match r
    case Outside(last) => ReadOutside(last, c)
    case Closing => if c == '\'' then Inside(c, false) else ReadOutside(Some('\''), c)
    case Inside(q, escaped) =>
      if escaped then Inside(q, false)
      else if c == '\\' then Inside(q, true)
      else if c != q then r
      else if q == '\'' then Closing else Outside(Some(q))
  }

  /** A line break ends a list but not a quotation. */
  function ReadBreak(r: Reading): Reading { if r.Inside? then r else Outside(None) }

  function DropReturn(text: string): string {
    if text != "" && text[|text| - 1] == '\r' then text[..|text| - 1] else text
  }

  lemma DropReturnShortens(text: string)
    ensures |DropReturn(text)| <= |text|
  {
  }

  /** The reading of the text of a field; CRLF is one break. */
  function FieldReading(text: string): Reading
    decreases |text|
  {
    if text == "" then Outside(None)
    else
      var front, c := text[..|text| - 1], text[|text| - 1];
      DropReturnShortens(front);
      if c == '\n' then ReadBreak(FieldReading(DropReturn(front))) else ReadChar(FieldReading(front), c)
  }

  function QuoteOf(r: Reading): Option<char> { if r.Inside? then Some(r.quote) else None }

  function LastOf(r: Reading): Option<char> {
    match r { case Outside(last) => last case Closing => Some('\'') case _ => None }
  }

  /** The field that begins at `start` does not go on after the line break at `at`. */
  ghost predicate FieldStopsAt(value: string, start: nat, at: nat) {
    start <= at && Is(value, at, '\n')
    && var r := FieldReading(DropReturn(value[start..at])); !FieldFolds(value, at, QuoteOf(r), LastOf(r))
  }

  ghost predicate FieldGoesOn(value: string, start: nat, till: nat) {
    forall k :: start <= k < till ==> !FieldStopsAt(value, start, k)
  }

  /** The least line break inside the limit at which the field stops, or the end of the text. */
  ghost predicate IsFieldEnd(value: string, start: nat, limit: nat, end: nat) {
    || (FieldGoesOn(value, start, limit) && end == |value|)
    || exists at :: FieldEndsAt(value, start, limit, at, end)
  }

  ghost predicate FieldEndsAt(value: string, start: nat, limit: nat, at: nat, end: nat) {
    && start <= at < limit && FieldStopsAt(value, start, at) && FieldGoesOn(value, start, at)
    && end == if Is(value, at - 1, '\r') then at - 1 else at
  }

  lemma FieldEndUnique(value: string, start: nat, limit: nat, a: nat, b: nat)
    requires IsFieldEnd(value, start, limit, a) && IsFieldEnd(value, start, limit, b)
    ensures a == b
  {
    hide FieldStopsAt;
  }

  /** What the scanner has read when it stands at `index`. */
  ghost function Before(value: string, start: nat, index: nat): string
    requires start <= index <= |value|
  {
    if Is(value, index, '\n') then DropReturn(value[start..index]) else value[start..index]
  }

  ghost predicate Stands(value: string, start: nat, index: nat, quote: Option<char>, escaped: bool,
                         lastOutside: Option<char>)
    requires start <= index <= |value|
  {
    match FieldReading(Before(value, start, index))
    case Outside(last) => quote.None? && !escaped && lastOutside == last
    case Inside(q, e) => quote == Some(q) && escaped == e && IsQuote(q)
    case Closing => quote.None? && !escaped && lastOutside == Some('\'') && !Is(value, index, '\'')
  }

  /** Reading one more character that is no part of a line break. */
  lemma ReadOne(value: string, start: nat, index: nat)
    requires start <= index < |value| && value[index] != '\n' && !(value[index] == '\r' && Is(value, index + 1, '\n'))
    ensures FieldReading(Before(value, start, index + 1))
            == ReadChar(FieldReading(Before(value, start, index)), value[index])
  {
    hide ReadChar;
    var longer := value[start..index + 1];
    assert longer[..|longer| - 1] == value[start..index] && longer[|longer| - 1] == value[index];
    assert Before(value, start, index + 1) == longer;
  }

  lemma ReadReturn(value: string, start: nat, index: nat)
    requires start <= index < |value| && value[index] == '\r' && Is(value, index + 1, '\n')
    ensures Before(value, start, index + 1) == Before(value, start, index)
  {
    var longer := value[start..index + 1];
    assert longer[..|longer| - 1] == value[start..index] && longer[|longer| - 1] == value[index];
  }

  lemma ReadNewline(value: string, start: nat, index: nat)
    requires start <= index < |value| && value[index] == '\n'
    ensures FieldReading(Before(value, start, index + 1)) == ReadBreak(FieldReading(Before(value, start, index)))
  {
    hide ReadBreak;
    var longer := value[start..index + 1];
    assert longer[..|longer| - 1] == value[start..index] && longer[|longer| - 1] == value[index];
    assert longer[|longer| - 1] != '\r';
    assert Before(value, start, index + 1) == longer;
  }

  /** Both single quotes of a doubled pair. */
  lemma ReadPair(value: string, start: nat, index: nat)
    requires start <= index && index + 2 <= |value| && value[index] == '\'' && value[index + 1] == '\''
    requires FieldReading(Before(value, start, index)) == Inside('\'', false)
    ensures FieldReading(Before(value, start, index + 2)) == Inside('\'', false)
  {
    hide FieldReading;
    ReadOne(value, start, index);
    ReadOne(value, start, index + 1);
  }

  lemma StopIs(value: string, start: nat, index: nat, quote: Option<char>, escaped: bool, lastOutside: Option<char>)
    requires start <= index < |value| && Stands(value, start, index, quote, escaped, lastOutside)
    ensures FieldStopsAt(value, start, index) <==> value[index] == '\n' && !FieldFolds(value, index, quote, lastOutside)
  {
    hide FieldReading, IsClearHeaderLine, IsKnownParameterLine;
  }

  lemma GoesOnMore(value: string, start: nat, index: nat)
    requires start <= index && FieldGoesOn(value, start, index) && !FieldStopsAt(value, start, index)
    ensures FieldGoesOn(value, start, index + 1)
  {
    hide FieldStopsAt;
  }

  lemma {:induction false} FieldEndFrom(value: string, start: nat, index: nat, limit: nat, quote: Option<char>,
                                        escaped: bool, lastOutside: Option<char>)
    requires start <= index <= |value| && limit <= |value| && FieldGoesOn(value, start, index)
    requires Stands(value, start, index, quote, escaped, lastOutside)
    ensures IsFieldEnd(value, start, limit, FieldEnd(value, index, limit, quote, escaped, lastOutside))
    decreases limit - index
  {
    hide FieldFolds, FieldStopsAt, FieldReading, FieldGoesOn, Before, IsFieldEnd;
    if index >= limit {
      NoStop(value, start, index, limit);
    } else {
      StopIs(value, start, index, quote, escaped, lastOutside);
      var c := value[index];
      if c == '\n' {
        if FieldFolds(value, index, quote, lastOutside) {
          GoesOnMore(value, start, index);
          ReadNewline(value, start, index);
          FieldEndFrom(value, start, index + 1, limit, quote, escaped, None);
        } else {
          StopHere(value, start, limit, index);
        }
      } else {
        GoesOnMore(value, start, index);
        FieldEndInline(value, start, index, limit, quote, escaped, lastOutside);
      }
    }
  }

  /** One character that is not a newline. */
  lemma {:induction false} FieldEndInline(value: string, start: nat, index: nat, limit: nat, quote: Option<char>,
                                          escaped: bool, lastOutside: Option<char>)
    requires start <= index < limit <= |value| && FieldGoesOn(value, start, index + 1) && value[index] != '\n'
    requires Stands(value, start, index, quote, escaped, lastOutside)
    ensures IsFieldEnd(value, start, limit, FieldEnd(value, index, limit, quote, escaped, lastOutside))
    decreases limit - index, 0
  {
    hide FieldFolds, FieldStopsAt, FieldReading, FieldGoesOn, Before, IsFieldEnd;
    var c := value[index];
    if c == '\r' && Is(value, index + 1, '\n') {
      ReadReturn(value, start, index);
      FieldEndFrom(value, start, index + 1, limit, quote, escaped, lastOutside);
    } else {
      ReadOne(value, start, index);
      if quote.Some? && !escaped && c == quote.value == '\'' && Is(value, index + 1, '\'') {
        ReadPair(value, start, index);
        PairGoesOn(value, start, index + 1);
        if index + 1 >= limit { NoStop(value, start, index + 2, limit); }
        else { FieldEndFrom(value, start, index + 2, limit, quote, false, lastOutside); }
      } else if quote.Some? {
        var closes := !escaped && c == quote.value;
        FieldEndFrom(value, start, index + 1, limit, if closes then None else quote, !escaped && c == '\\',
                     if closes then Some(c) else lastOutside);
      } else {
        FieldEndFrom(value, start, index + 1, limit, if IsQuote(c) then Some(c) else None, escaped,
                     if IsBlank(c) then lastOutside else Some(c));
      }
    }
  }

  lemma PairGoesOn(value: string, start: nat, index: nat)
    requires start <= index < |value| && value[index] != '\n' && FieldGoesOn(value, start, index)
    ensures FieldGoesOn(value, start, index + 1)
  {
    hide FieldReading, FieldFolds;
  }

  lemma NoStop(value: string, start: nat, index: nat, limit: nat)
    requires limit <= index && FieldGoesOn(value, start, index)
    ensures IsFieldEnd(value, start, limit, |value|)
  {
    hide FieldStopsAt;
  }

  lemma StopHere(value: string, start: nat, limit: nat, at: nat)
    requires start <= at < limit <= |value| && FieldStopsAt(value, start, at) && FieldGoesOn(value, start, at)
    ensures IsFieldEnd(value, start, limit, if Is(value, at - 1, '\r') then at - 1 else at)
  {
    hide FieldStopsAt, FieldGoesOn;
    assert FieldEndsAt(value, start, limit, at, if Is(value, at - 1, '\r') then at - 1 else at);
  }

  /**
   A credential field ends at the first line break inside the budget after which it does not go on: no folded line, no
   known parameter, no open quotation and no list left open by a comma, or a header line.
   Otherwise it takes all the text.
   */
  lemma CredentialFieldEndExact(value: string, start: nat)
    requires start <= |value|
    ensures IsFieldEnd(value, start, Min(|value|, start + MAX_CREDENTIAL_FIELD_CODE_UNITS),
                       CredentialFieldEnd(value, start))
  {
    hide IsFieldEnd, FieldEnd, FieldStopsAt, FieldFolds;
    assert value[start..start] == "" && DropReturn("") == "";
    assert Before(value, start, start) == "";
    assert FieldReading("") == Outside(None);
    FieldEndFrom(value, start, start, Min(|value|, start + MAX_CREDENTIAL_FIELD_CODE_UNITS), None, false, None);
  }

  // ----- lines -----

  /** A line of the text with the start of the next one. */
  datatype Row = Row(start: nat, end: nat, next: nat)

  /** The lines from `position` on that the limit does not cut. */
  function Rows(value: string, position: nat, limit: nat): seq<Row>
    requires position <= |value| && limit <= |value|
    decreases |value| - position
  {
    if position >= limit then []
    else
      var line := BoundedLine(value, position, limit);
      if line.None? then []
      else [Row(position, line.value.end, line.value.next)] + Rows(value, line.value.next, limit)
  }

  function RowText(value: string, row: Row): string
    requires row.start <= row.end <= |value|
  {
    value[row.start..row.end]
  }

  ghost predicate IsRow(value: string, row: Row) {
    && row.start <= row.end <= |value| && row.start < row.next == BreakEnd(value, row.end)
    && (forall k :: row.start <= k < row.end ==> !IsNewline(value[k]))
    && (row.end == |value| || IsNewline(value[row.end]))
  }

  /** The start of the line after the last row. */
  function RowsEnd(rows: seq<Row>, position: nat): nat { if rows == [] then position else rows[|rows| - 1].next }

  ghost predicate AreLines(value: string, rows: seq<Row>, position: nat, limit: nat) {
    && (forall k :: 0 <= k < |rows| ==> IsRow(value, rows[k]) && position <= rows[k].start < limit)
    && (rows != [] ==> rows[0].start == position)
    && (forall k :: 0 < k < |rows| ==> rows[k].start == rows[k - 1].next)
  }

  lemma AddLine(value: string, row: Row, rest: seq<Row>, limit: nat)
    requires IsRow(value, row) && row.start < limit && AreLines(value, rest, row.next, limit)
    ensures AreLines(value, [row] + rest, row.start, limit)
  {
    hide IsRow;
    assert row.start < row.next by { NextIsLater(value, row); }
    var rows := [row] + rest;
    assert forall k :: 0 < k < |rows| ==> rows[k] == rest[k - 1];
  }

  lemma NextIsLater(value: string, row: Row)
    requires IsRow(value, row)
    ensures row.start < row.next
  {
  }

  /** The rows are lines of the text, one after the other; they go on until the limit, or until it cuts a line. */
  lemma {:induction false} RowsAreLines(value: string, position: nat, limit: nat)
    requires position <= |value| && limit <= |value|
    ensures AreLines(value, Rows(value, position, limit), position, limit)
    ensures var end := RowsEnd(Rows(value, position, limit), position);
            end <= |value| && (end >= limit || BoundedLine(value, end, limit).None?)
    decreases |value| - position
  {
    hide BoundedLine, BreakEnd, AreLines, IsRow;
    if position < limit && BoundedLine(value, position, limit).Some? {
      var line := BoundedLine(value, position, limit).value;
      RowIs(value, position, limit);
      RowsAreLines(value, line.next, limit);
      AddLine(value, Row(position, line.end, line.next), Rows(value, line.next, limit), limit);
    } else {
      NoLines(value, position, limit);
    }
  }

  lemma NoLines(value: string, position: nat, limit: nat)
    ensures AreLines(value, [], position, limit)
  {
  }

  lemma RowIs(value: string, position: nat, limit: nat)
    requires position < limit <= |value| && BoundedLine(value, position, limit).Some?
    ensures var line := BoundedLine(value, position, limit).value; IsRow(value, Row(position, line.end, line.next))
  {
  }

  lemma {:induction false} RowsFrom(value: string, position: nat, limit: nat, k: nat)
    requires position <= |value| && limit <= |value| && k <= |Rows(value, position, limit)|
    ensures var at := RowsEnd(Rows(value, position, limit)[..k], position);
            at <= |value| && Rows(value, at, limit) == Rows(value, position, limit)[k..]
    decreases |value| - position
  {
    hide BoundedLine;
    var rows := Rows(value, position, limit);
    if k == 0 {
      assert rows[..0] == [] && rows[0..] == rows;
    } else {
      RowsFrom(value, rows[0].next, limit, k - 1);
      var rest := rows[1..];
      assert rest == Rows(value, rows[0].next, limit);
      assert rows[..k] == [rows[0]] + rest[..k - 1] && rows[k..] == rest[k - 1..];
    }
  }

  // ----- YAML blocks -----

  function Indent(value: string, row: Row): (n: nat)
    requires row.start <= row.end <= |value|
    ensures row.start + n <= row.end
  {
    SkipWhile(value, row.start, row.end, IsSpace) - row.start
  }

  /** Nothing but spaces. */
  predicate IsBare(value: string, row: Row)
    requires row.start <= row.end <= |value|
  {
    row.start + Indent(value, row) == row.end
  }

  predicate IsTabbed(value: string, row: Row)
    requires row.start <= row.end <= |value|
  {
    !IsBare(value, row) && value[row.start + Indent(value, row)] == '\t'
  }

  /** A line that does not belong to a block of the given depth, or whose depth a tab hides. */
  predicate Leaves(value: string, row: Row, depth: nat)
    requires row.start <= row.end <= |value|
  {
    !IsBare(value, row) && (IsTabbed(value, row) || Indent(value, row) < depth)
  }

  /**
   Where the value ends when the block is left at the row: before the row if it clearly is another key, else nowhere.
   */
  function CutAt(value: string, row: Row, keyColumn: nat): nat
    requires 2 <= row.start <= row.end <= |value|
  {
    if !IsTabbed(value, row) && Indent(value, row) <= keyColumn
       && IsClearYamlBoundary(value[row.start + Indent(value, row)..row.end])
    then PrecedingLineBreak(value, row.start) else |value|
  }

  ghost predicate GoodRows(value: string, rows: seq<Row>) {
    forall k :: 0 <= k < |rows| ==> 2 <= rows[k].start <= rows[k].end <= |value|
  }

  /** The block ends with the first row that leaves it. */
  ghost predicate EndsAtFirst(value: string, rows: seq<Row>, keyColumn: nat, depth: nat, end: nat)
    requires GoodRows(value, rows)
  {
    || ((forall k :: 0 <= k < |rows| ==> !Leaves(value, rows[k], depth)) && end == |value|)
    || exists k :: 0 <= k < |rows| && Leaves(value, rows[k], depth) && end == CutAt(value, rows[k], keyColumn)
                   && forall j :: 0 <= j < k ==> !Leaves(value, rows[j], depth)
  }

  /**
   A block of unknown depth: the first row that is not bare gives the depth, unless it is too shallow, tabbed, or
   shallower than a bare row before it (or than `blank`, the deepest bare row met so far).
   */
  ghost predicate EndsByFirstRow(value: string, rows: seq<Row>, keyColumn: nat, blank: nat, f: nat, end: nat)
    requires GoodRows(value, rows) && f < |rows|
  {
    && !IsBare(value, rows[f]) && (forall j :: 0 <= j < f ==> IsBare(value, rows[j]))
    && if IsTabbed(value, rows[f]) || Indent(value, rows[f]) <= keyColumn then end == CutAt(value, rows[f], keyColumn)
       else if || blank > Indent(value, rows[f])
               || exists j :: 0 <= j < f && Indent(value, rows[j]) > Indent(value, rows[f])
       then end == |value|
       else EndsAtFirst(value, rows, keyColumn, Indent(value, rows[f]), end)
  }

  ghost predicate IsBlockEnd(value: string, rows: seq<Row>, keyColumn: nat, depth: Option<nat>, blank: nat, end: nat)
    requires GoodRows(value, rows)
  {
    match depth
    case Some(d) => EndsAtFirst(value, rows, keyColumn, d, end)
    case None =>
      || ((forall k :: 0 <= k < |rows| ==> IsBare(value, rows[k])) && end == |value|)
      || exists f :: 0 <= f < |rows| && EndsByFirstRow(value, rows, keyColumn, blank, f, end)
  }

  lemma GoodRowsAre(value: string, position: nat, limit: nat)
    requires 2 <= position <= |value| && limit <= |value|
    ensures GoodRows(value, Rows(value, position, limit))
  {
    hide Rows, BreakEnd;
    RowsAreLines(value, position, limit);
  }

  lemma PassRow(value: string, row: Row, rest: seq<Row>, keyColumn: nat, depth: nat, end: nat)
    requires GoodRows(value, rest) && 2 <= row.start <= row.end <= |value| && !Leaves(value, row, depth)
    requires EndsAtFirst(value, rest, keyColumn, depth, end)
    ensures GoodRows(value, [row] + rest) && EndsAtFirst(value, [row] + rest, keyColumn, depth, end)
  {
    hide Leaves, CutAt;
    var rows := [row] + rest;
    if k :| 0 <= k < |rest| && Leaves(value, rest[k], depth) && end == CutAt(value, rest[k], keyColumn)
            && forall j :: 0 <= j < k ==> !Leaves(value, rest[j], depth) {
      assert rows[k + 1] == rest[k];
      assert forall j :: 0 < j < k + 1 ==> rows[j] == rest[j - 1];
    } else {
      assert forall j :: 0 < j < |rows| ==> rows[j] == rest[j - 1];
    }
  }

  lemma LeaveRow(value: string, row: Row, rest: seq<Row>, keyColumn: nat, depth: nat)
    requires GoodRows(value, rest) && 2 <= row.start <= row.end <= |value| && Leaves(value, row, depth)
    ensures GoodRows(value, [row] + rest)
            && EndsAtFirst(value, [row] + rest, keyColumn, depth, CutAt(value, row, keyColumn))
  {
    hide Leaves, CutAt;
    assert ([row] + rest)[0] == row;
  }

  lemma {:induction false} KnownDepth(value: string, position: nat, limit: nat, keyColumn: nat, depth: nat, blank: nat)
    requires 2 <= position <= |value| && limit <= |value|
    ensures GoodRows(value, Rows(value, position, limit))
    ensures EndsAtFirst(value, Rows(value, position, limit), keyColumn, depth,
                        YamlBody(value, position, limit, keyColumn, Some(depth), blank))
    decreases |value| - position
  {
    hide BoundedLine, BreakEnd, IsClearYamlBoundary, PrecedingLineBreak, EndsAtFirst, GoodRows;
    GoodRowsAre(value, position, limit);
    if position >= limit || BoundedLine(value, position, limit).None? {
      NoRows(value, keyColumn, depth);
    } else {
      var line := BoundedLine(value, position, limit).value;
      var row := Row(position, line.end, line.next);
      KnownDepth(value, line.next, limit, keyColumn, depth, blank);
      var rest := Rows(value, line.next, limit);
      if Leaves(value, row, depth) {
        LeaveRow(value, row, rest, keyColumn, depth);
      } else {
        PassRow(value, row, rest, keyColumn, depth, YamlBody(value, line.next, limit, keyColumn, Some(depth), blank));
      }
    }
  }

  lemma NoRows(value: string, keyColumn: nat, depth: nat)
    ensures GoodRows(value, []) && EndsAtFirst(value, [], keyColumn, depth, |value|)
    ensures forall blank: nat :: IsBlockEnd(value, [], keyColumn, None, blank, |value|)
  {
  }

  lemma BareRow(value: string, row: Row, rest: seq<Row>, keyColumn: nat, blank: nat, end: nat)
    requires GoodRows(value, rest) && 2 <= row.start <= row.end <= |value| && IsBare(value, row)
    requires IsBlockEnd(value, rest, keyColumn, None,
                        if Indent(value, row) > blank then Indent(value, row) else blank, end)
    ensures GoodRows(value, [row] + rest) && IsBlockEnd(value, [row] + rest, keyColumn, None, blank, end)
  {
    hide IsBare, IsTabbed, Indent, CutAt, EndsAtFirst;
    var rows, deepest := [row] + rest, if Indent(value, row) > blank then Indent(value, row) else blank;
    if forall k :: 0 <= k < |rest| ==> IsBare(value, rest[k]) {
      assert forall j :: 0 < j < |rows| ==> rows[j] == rest[j - 1];
    }
    if f :| 0 <= f < |rest| && EndsByFirstRow(value, rest, keyColumn, deepest, f, end) {
      BareRowFirst(value, row, rest, keyColumn, blank, f, end);
    }
  }

  lemma BareRowFirst(value: string, row: Row, rest: seq<Row>, keyColumn: nat, blank: nat, f: nat, end: nat)
    requires GoodRows(value, rest) && 2 <= row.start <= row.end <= |value| && IsBare(value, row) && f < |rest|
    requires EndsByFirstRow(value, rest, keyColumn,
                            if Indent(value, row) > blank then Indent(value, row) else blank, f, end)
    ensures GoodRows(value, [row] + rest) && EndsByFirstRow(value, [row] + rest, keyColumn, blank, f + 1, end)
  {
    hide Indent, CutAt, EndsAtFirst, IsTabbed, IsBare;
    var rows, depth := [row] + rest, Indent(value, rest[f]);
    assert rows[0] == row && forall j :: 0 < j < |rows| ==> rows[j] == rest[j - 1];
    assert (exists j :: 0 <= j < f && Indent(value, rest[j]) > depth)
           ==> exists j :: 0 <= j < f + 1 && Indent(value, rows[j]) > depth by {
      if j :| 0 <= j < f && Indent(value, rest[j]) > depth { assert rows[j + 1] == rest[j]; }
    }
    if EndsAtFirst(value, rest, keyColumn, depth, end) {
      BareStays(value, row, depth);
      PassRow(value, row, rest, keyColumn, depth, end);
    }
  }

  lemma BareStays(value: string, row: Row, depth: nat)
    requires row.start <= row.end <= |value| && IsBare(value, row)
    ensures !Leaves(value, row, depth)
  {
  }

  /** The first row that is not bare, and what it decides. */
  lemma InkRow(value: string, row: Row, rest: seq<Row>, keyColumn: nat, blank: nat, end: nat)
    requires GoodRows(value, rest) && 2 <= row.start <= row.end <= |value| && !IsBare(value, row)
    requires if IsTabbed(value, row) || Indent(value, row) <= keyColumn then end == CutAt(value, row, keyColumn)
             else if blank > Indent(value, row) then end == |value|
             else EndsAtFirst(value, rest, keyColumn, Indent(value, row), end)
    ensures GoodRows(value, [row] + rest) && IsBlockEnd(value, [row] + rest, keyColumn, None, blank, end)
  {
    hide Indent, CutAt, EndsAtFirst, IsTabbed, IsBare, Leaves;
    var rows := [row] + rest;
    assert rows[0] == row;
    if !(IsTabbed(value, row) || Indent(value, row) <= keyColumn) && blank <= Indent(value, row) {
      DeepStays(value, row);
      PassRow(value, row, rest, keyColumn, Indent(value, row), end);
    }
    assert EndsByFirstRow(value, rows, keyColumn, blank, 0, end);
  }

  lemma DeepStays(value: string, row: Row)
    requires row.start <= row.end <= |value| && !IsTabbed(value, row)
    ensures !Leaves(value, row, Indent(value, row))
  {
  }

  lemma {:induction false} UnknownDepth(value: string, position: nat, limit: nat, keyColumn: nat, blank: nat)
    requires 2 <= position <= |value| && limit <= |value|
    ensures GoodRows(value, Rows(value, position, limit))
    ensures IsBlockEnd(value, Rows(value, position, limit), keyColumn, None, blank,
                       YamlBody(value, position, limit, keyColumn, None, blank))
    decreases |value| - position
  {
    hide BoundedLine, BreakEnd, IsClearYamlBoundary, PrecedingLineBreak, IsBlockEnd, EndsAtFirst, GoodRows;
    GoodRowsAre(value, position, limit);
    if position >= limit || BoundedLine(value, position, limit).None? {
      NoRows(value, keyColumn, 0);
    } else {
      var line := BoundedLine(value, position, limit).value;
      var row := Row(position, line.end, line.next);
      var rest := Rows(value, line.next, limit);
      var deepest := if Indent(value, row) > blank then Indent(value, row) else blank;
      if IsBare(value, row) {
        UnknownDepth(value, line.next, limit, keyColumn, deepest);
        BareRow(value, row, rest, keyColumn, blank, YamlBody(value, line.next, limit, keyColumn, None, deepest));
      } else {
        KnownDepth(value, line.next, limit, keyColumn, Indent(value, row), blank);
        InkRow(value, row, rest, keyColumn, blank, YamlBody(value, position, limit, keyColumn, None, blank));
      }
    }
  }

  /**
   A block scalar ends before the first line that is neither bare nor deep enough, if that line clearly is another key
   and no deeper than this one, and takes all the text otherwise. Its depth is the one its header gives or that of its
   first line, which has to be deeper than the key and as deep as every bare line before it.
   */
  lemma YamlBlockEndExact(value: string, start: nat, keyStart: nat)
    requires keyStart <= start < |value|
    ensures match ReadYamlHeader(value, start, keyStart)
            case NoBlock => YamlBlockEnd(value, start, keyStart) == None
            case Sealed => YamlBlockEnd(value, start, keyStart) == Some(|value|)
            case Block(body, keyColumn, depth) =>
              && GoodRows(value, Rows(value, body, BlockLimit(value, start)))
              && YamlBlockEnd(value, start, keyStart).Some?
              && IsBlockEnd(value, Rows(value, body, BlockLimit(value, start)), keyColumn, depth, 0,
                            YamlBlockEnd(value, start, keyStart).value)
  {
    hide ReadYamlHeader, YamlBody, Rows, GoodRows, EndsAtFirst, EndsByFirstRow;
    var h := ReadYamlHeader(value, start, keyStart);
    if h.Block? {
      var limit := BlockLimit(value, start);
      GoodRowsAre(value, h.body, limit);
      match h.indentation
      case Some(depth) => KnownDepth(value, h.body, limit, h.keyColumn, depth, 0);
      case None => UnknownDepth(value, h.body, limit, h.keyColumn, 0);
    }
  }

  /** The text alone fixes the end. */
  lemma BlockEndUnique(value: string, rows: seq<Row>, keyColumn: nat, depth: Option<nat>, a: nat, b: nat)
    requires GoodRows(value, rows)
    requires IsBlockEnd(value, rows, keyColumn, depth, 0, a) && IsBlockEnd(value, rows, keyColumn, depth, 0, b)
    ensures a == b
  {
    hide Indent, IsBare, IsTabbed, Leaves, CutAt, EndsAtFirst;
    match depth
    case Some(d) => FirstEndUnique(value, rows, keyColumn, d, a, b);
    case None =>
      if f, g :| 0 <= f < |rows| && 0 <= g < |rows| && EndsByFirstRow(value, rows, keyColumn, 0, f, a)
                 && EndsByFirstRow(value, rows, keyColumn, 0, g, b) {
        assert f == g;
        var d := Indent(value, rows[f]);
        if EndsAtFirst(value, rows, keyColumn, d, a) && EndsAtFirst(value, rows, keyColumn, d, b) {
          FirstEndUnique(value, rows, keyColumn, d, a, b);
        }
      }
  }

  lemma FirstEndUnique(value: string, rows: seq<Row>, keyColumn: nat, depth: nat, a: nat, b: nat)
    requires GoodRows(value, rows)
    requires EndsAtFirst(value, rows, keyColumn, depth, a) && EndsAtFirst(value, rows, keyColumn, depth, b)
    ensures a == b
  {
    hide Leaves, CutAt;
  }

  // ----- continued shell lines -----

  ghost predicate AllWithin(value: string, rows: seq<Row>) { forall k :: 0 <= k < |rows| ==> rows[k].end <= |value| }

  /** The line goes on: an odd run of backslashes ends it. */
  predicate IsContinued(value: string, row: Row)
    requires row.end <= |value|
  {
    OddRun(value, 0, row.end)
  }

  ghost predicate AllContinued(value: string, rows: seq<Row>)
    requires AllWithin(value, rows)
  {
    forall k :: 0 <= k < |rows| ==> IsContinued(value, rows[k])
  }

  /** The lines go on to a place beyond the limit that is not the end of the text. */
  ghost predicate PastLimit(value: string, rows: seq<Row>, position: nat, limit: nat) {
    limit < RowsEnd(rows, position) < |value|
  }

  /**
   The end of the first line from `position` that is not continued; with none, the end of the text, or the place beyond
   the limit that the lines go on to.
   */
  ghost predicate IsContinuedEnd(value: string, rows: seq<Row>, position: nat, limit: nat, end: nat)
    requires AllWithin(value, rows)
  {
    || (&& AllContinued(value, rows)
        && end == if PastLimit(value, rows, position, limit) then RowsEnd(rows, position) else |value|)
    || exists k :: 0 <= k < |rows| && !IsContinued(value, rows[k]) && end == rows[k].end
                   && forall j :: 0 <= j < k ==> IsContinued(value, rows[j])
  }

  lemma WithinRows(value: string, position: nat, limit: nat)
    requires position <= |value| && limit <= |value|
    ensures AllWithin(value, Rows(value, position, limit))
  {
    hide Rows, BreakEnd;
    RowsAreLines(value, position, limit);
  }

  lemma PassContinued(value: string, row: Row, rest: seq<Row>, limit: nat, end: nat)
    requires row.end <= |value| && AllWithin(value, rest) && IsContinued(value, row)
    requires IsContinuedEnd(value, rest, row.next, limit, end)
    ensures AllWithin(value, [row] + rest) && IsContinuedEnd(value, [row] + rest, row.start, limit, end)
  {
    hide IsContinued;
    var rows := [row] + rest;
    assert forall j :: 0 < j < |rows| ==> rows[j] == rest[j - 1];
    assert RowsEnd(rows, row.start) == RowsEnd(rest, row.next);
    if k :| 0 <= k < |rest| && !IsContinued(value, rest[k]) && end == rest[k].end
            && forall j :: 0 <= j < k ==> IsContinued(value, rest[j]) {
      assert rows[k + 1] == rest[k];
    }
  }

  lemma StopContinued(value: string, row: Row, rest: seq<Row>, limit: nat)
    requires row.end <= |value| && AllWithin(value, rest)
    requires !IsContinued(value, row) || (row.end == row.next == |value| && rest == [])
    ensures AllWithin(value, [row] + rest) && IsContinuedEnd(value, [row] + rest, row.start, limit, row.end)
  {
    hide IsContinued;
    assert ([row] + rest)[0] == row;
  }

  lemma NoContinued(value: string, position: nat, limit: nat)
    requires position <= |value|
    ensures AllWithin(value, [])
            && IsContinuedEnd(value, [], position, limit, if limit < position < |value| then position else |value|)
  {
  }

  lemma NoRunHere(value: string, at: nat)
    requires 0 < at <= |value| && !IsBackslash(value[at - 1])
    ensures !OddRun(value, 0, at)
  {
    assert SkipBack(value, at, 0, IsBackslash) == at;
  }

  /** The start of the next line, or of what follows a blank. */
  function AfterBreak(value: string, at: nat): (next: nat)
    requires at < |value|
    ensures at < next <= |value|
  {
    if value[at] == '\r' && Is(value, at + 1, '\n') then at + 2 else at + 1
  }

  lemma LineEndIs(value: string, position: nat, limit: nat)
    requires position < limit <= |value|
    ensures var next, line := SkipWhile(value, position, limit, NotNewline), BoundedLine(value, position, limit);
            && (line.None? <==> next == limit < |value|)
            && (line.Some? ==> line.value.end == next && line.value.next == BreakEnd(value, next))
            && next <= limit && (next < limit ==> IsNewline(value[next]))
  {
  }

  lemma {:induction false} ContinuedEndExact(value: string, newline: nat, limit: nat)
    requires newline < |value| && limit <= |value| && !IsBackslash(value[newline])
    ensures var at := AfterBreak(value, newline);
            && AllWithin(value, Rows(value, at, limit))
            && IsContinuedEnd(value, Rows(value, at, limit), at, limit, ContinuedEnd(value, newline, limit))
    decreases |value| - newline
  {
    hide BoundedLine, SkipWhile, IsContinuedEnd, AllWithin, OddRun;
    var at := AfterBreak(value, newline);
    WithinRows(value, at, limit);
    if at >= limit {
      NoContinued(value, at, limit);
      NoRunHere(value, at);
    } else {
      LineEndIs(value, at, limit);
      var line, next := BoundedLine(value, at, limit), SkipWhile(value, at, limit, NotNewline);
      if line.None? {
        NoContinued(value, at, limit);
      } else {
        var row, rest := Row(at, next, line.value.next), Rows(value, line.value.next, limit);
        WithinRows(value, line.value.next, limit);
        if next == |value| || !OddRun(value, 0, next) {
          StopContinued(value, row, rest, limit);
        } else {
          ContinuedEndExact(value, next, limit);
          PassContinued(value, row, rest, limit, ContinuedEnd(value, next, limit));
        }
      }
    }
  }

  /**
   Continued lines end beyond the limit, but before the end of the text, exactly when they all go on to such a place.
   */
  lemma ContinuationOverrunsIff(value: string, newline: nat, limit: nat)
    requires newline < |value| && limit <= |value| && !IsBackslash(value[newline])
    ensures var at := AfterBreak(value, newline);
            var rows := Rows(value, at, limit);
            limit < ContinuedEnd(value, newline, limit) < |value| <==>
              AllWithin(value, rows) && AllContinued(value, rows) && PastLimit(value, rows, at, limit)
  {
    hide ContinuedEnd, Rows, IsContinued, BreakEnd, IsRow, AfterBreak;
    var at := AfterBreak(value, newline);
    var rows := Rows(value, at, limit);
    ContinuedEndExact(value, newline, limit);
    RowsAreLines(value, at, limit);
    forall k | 0 <= k < |rows| ensures rows[k].end <= limit { RowsEndInside(value, rows, at, limit, k); }
  }

  lemma RowsEndInside(value: string, rows: seq<Row>, position: nat, limit: nat, k: nat)
    requires position <= |value| && limit <= |value| && rows == Rows(value, position, limit)
    requires AreLines(value, rows, position, limit) && k < |rows|
    ensures rows[k].end <= limit && (rows[k].end == limit ==> limit == |value|)
  {
    hide BreakEnd, IsRow;
    RowsFrom(value, position, limit, k);
    RowStartIs(value, rows, position, limit, k);
    var tail := Rows(value, rows[k].start, limit);
    assert tail[0] == rows[k];
  }

  lemma RowStartIs(value: string, rows: seq<Row>, position: nat, limit: nat, k: nat)
    requires AreLines(value, rows, position, limit) && k < |rows|
    ensures RowsEnd(rows[..k], position) == rows[k].start
  {
    hide IsRow;
    if k > 0 { assert rows[..k][k - 1] == rows[k - 1]; }
  }
}
