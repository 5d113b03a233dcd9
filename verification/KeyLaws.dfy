/**
 What the key scanners of contract/redaction.ts find: the end of a double-quoted key, a single-quoted YAML key, and a
 PuTTY key file with its announced lines.
 */
module KeyLaws {
  import opened Text
  import opened Brackets
  import opened ValueEnds
  import opened KeyMaterial
  import opened Assignments
  import opened ValueEndLaws

  // ----- double-quoted keys -----

  /** A double quote that no odd run of backslashes escapes. */
  predicate ClosesKey(value: string, start: nat, at: nat) {
    start <= at < |value| && value[at] == '"' && !OddRun(value, start, at)
  }

  lemma RunGrows(value: string, start: nat, at: nat)
    requires start <= at < |value|
    ensures OddRun(value, start, at + 1) <==> value[at] == '\\' && !OddRun(value, start, at)
  {
  }

  lemma {:induction false} QuoteEndFrom(value: string, start: nat, index: nat, escaped: bool)
    requires start <= index <= |value| && escaped == OddRun(value, start, index)
    ensures var end := QuoteEnd(value, index, escaped);
            if end < 0 then forall p :: index <= p ==> !ClosesKey(value, start, p)
            else ClosesKey(value, start, end - 1) && forall p :: index <= p < end - 1 ==> !ClosesKey(value, start, p)
    decreases |value| - index
  {
    hide OddRun;
    if index < |value| {
      RunGrows(value, start, index);
      var next := !escaped && value[index] == '\\';
      if !ClosesKey(value, start, index) { QuoteEndFrom(value, start, index + 1, next); }
    }
  }

  /**
   The key ends after the first double quote with an even run of backslashes before it, and nowhere if there is none.
   */
  lemma QuoteEndExact(value: string, start: nat)
    requires start <= |value|
    ensures var end := QuoteEnd(value, start, false);
            if end < 0 then end == -1 && forall p: nat :: !ClosesKey(value, start, p)
            else ClosesKey(value, start, end - 1) && forall p: nat :: p < end - 1 ==> !ClosesKey(value, start, p)
  {
    assert SkipBack(value, start, start, IsBackslash) == start;
    QuoteEndFrom(value, start, start, false);
  }

  // ----- single-quoted YAML keys -----

  /** A key as single quotes write it. */
  function Doubled(key: string): string {
    if key == "" then "" else (if key[0] == '\'' then "''" else [key[0]]) + Doubled(key[1..])
  }

  predicate OnOneLine(s: string) { forall k :: 0 <= k < |s| ==> !IsNewline(s[k]) }

  /** The text from `start` writes the key, and a quote that is not doubled follows at `end`. */
  ghost predicate WritesKey(value: string, start: nat, key: string, end: nat) {
    && OnOneLine(key) && end == start + |Doubled(key)| < |value| && value[start..end] == Doubled(key)
    && value[end] == '\'' && !Is(value, end + 1, '\'')
  }

  lemma {:induction false} CollapseDoubled(key: string)
    ensures Collapse(Doubled(key)) == key
  {
    if key != "" {
      CollapseDoubled(key[1..]);
      var s, rest := Doubled(key), Doubled(key[1..]);
      if key[0] == '\'' {
        assert s[2..] == rest;
      } else {
        assert s[1..] == rest;
        assert |s| < 2 ==> rest == "";
      }
    }
  }

  /** One more character in front of a written key. */
  lemma WritesMore(value: string, start: nat, key: string, end: nat, c: char)
    requires !IsNewline(c) && start + |Doubled([c])| <= |value| && value[start..start + |Doubled([c])|] == Doubled([c])
    requires WritesKey(value, start + |Doubled([c])|, key, end)
    ensures WritesKey(value, start, [c] + key, end)
  {
    var n := |Doubled([c])|;
    assert [c][1..] == "" && ([c] + key)[1..] == key;
    assert Doubled([c]) + Doubled("") == Doubled([c]);
    assert Doubled([c] + key) == Doubled([c]) + Doubled(key);
    assert value[start..end] == value[start..start + n] + value[start + n..end];
  }

  lemma {:induction false} YamlKeyFound(value: string, start: nat, limit: nat) returns (key: string)
    requires start <= |value| && limit <= |value|
    requires YamlKeyEnd(value, start, limit) < limit && value[YamlKeyEnd(value, start, limit)] == '\''
    ensures WritesKey(value, start, key, YamlKeyEnd(value, start, limit))
    decreases limit - start
  {
    var end := YamlKeyEnd(value, start, limit);
    var c := value[start];
    if c != '\'' {
      key := YamlKeyFound(value, start + 1, limit);
      assert [c][1..] == "" && Doubled([c]) == [c];
      WritesMore(value, start, key, end, c);
      key := [c] + key;
    } else if Is(value, start + 1, '\'') {
      key := YamlKeyFound(value, start + 2, limit);
      assert "'"[1..] == "" && Doubled("'") == "''" && value[start..start + 2] == "''";
      WritesMore(value, start, key, end, '\'');
      key := "'" + key;
    } else {
      key := "";
      assert value[start..start] == "";
    }
  }

  lemma {:induction false} YamlKeyReached(value: string, start: nat, limit: nat, key: string, end: nat)
    requires limit <= |value| && WritesKey(value, start, key, end) && end < limit
    ensures YamlKeyEnd(value, start, limit) == end
    decreases |key|
  {
    if key != "" {
      var c, rest, n := key[0], key[1..], if key[0] == '\'' then 2 else 1;
      var all := Doubled(key);
      assert all == (if c == '\'' then "''" else [c]) + Doubled(rest);
      assert value[start..end][0] == all[0] && (n == 2 ==> value[start..end][1] == all[1]);
      assert value[start + n..end] == value[start..end][n..] == Doubled(rest);
      assert !IsNewline(c);
      YamlKeyReached(value, start + n, limit, rest, end);
    }
  }

  /**
   The scan stops at a quote inside its limit exactly where the text writes a key, and the key is what is collapsed.
   */
  lemma YamlKeyEndExact(value: string, start: nat, limit: nat, end: nat)
    requires start <= |value| && limit <= |value| && end < limit
    ensures YamlKeyEnd(value, start, limit) == end && value[end] == '\''
            <==> exists key :: WritesKey(value, start, key, end)
    ensures forall key :: WritesKey(value, start, key, end) ==> Collapse(value[start..end]) == key
  {
    hide WritesKey, Collapse;
    if YamlKeyEnd(value, start, limit) == end && value[end] == '\'' { var key := YamlKeyFound(value, start, limit); }
    forall key | WritesKey(value, start, key, end)
      ensures YamlKeyEnd(value, start, limit) == end && value[end] == '\'' && Collapse(value[start..end]) == key
    {
      YamlKeyReached(value, start, limit, key, end);
      CollapseDoubled(key);
      WrittenText(value, start, key, end);
    }
  }

  lemma WrittenText(value: string, start: nat, key: string, end: nat)
    requires WritesKey(value, start, key, end)
    ensures start <= end < |value| && value[end] == '\'' && value[start..end] == Doubled(key)
  {
  }

  // ----- PuTTY key files -----

  ghost predicate LinesInside(value: string, rows: seq<Row>) {
    forall k :: 0 <= k < |rows| ==> rows[k].start <= rows[k].end <= |value|
  }

  predicate Announces(value: string, row: Row)
    requires row.start <= row.end <= |value|
  {
    "Private-Lines:" <= RowText(value, row)
  }

  predicate IsKeyData(value: string, row: Row)
    requires row.start <= row.end <= |value|
  {
    row.start < row.end && All(RowText(value, row), IsBase64Char)
  }

  /** The first announcing line is line `k`, it announces `n` lines, and they and the MAC line follow it. */
  ghost predicate KeyFileEnds(value: string, rows: seq<Row>, version: char, k: nat, n: nat)
    requires LinesInside(value, rows)
  {
    && k + n + 1 < |rows| && Announces(value, rows[k]) && (forall j :: 0 <= j < k ==> !Announces(value, rows[j]))
    && PrivateLineCount(RowText(value, rows[k])) == Some(n)
    && (forall j :: k < j <= k + n ==> IsKeyData(value, rows[j]))
    && IsMacLine(RowText(value, rows[k + n + 1]), if version == '2' then 40 else 64)
  }

  /** The end of that MAC line, and the end of the text for everything else. */
  ghost predicate IsKeyFileEnd(value: string, rows: seq<Row>, version: char, end: nat)
    requires LinesInside(value, rows)
  {
    || (exists k: nat, n: nat :: KeyFileEnds(value, rows, version, k, n) && end == rows[k + n + 1].end)
    || (end == |value| && forall k: nat, n: nat :: !KeyFileEnds(value, rows, version, k, n))
  }

  lemma InsideRows(value: string, position: nat, limit: nat)
    requires position <= |value| && limit <= |value|
    ensures LinesInside(value, Rows(value, position, limit))
  {
    hide Rows, BreakEnd;
    RowsAreLines(value, position, limit);
  }

  lemma LateLine(value: string, position: nat, limit: nat)
    requires limit <= position <= |value|
    ensures BoundedLine(value, position, limit).Some? ==> BoundedLine(value, position, limit).value.end == position
  {
  }

  /** The first `count` lines are key data. */
  ghost predicate DataRun(value: string, rows: seq<Row>, count: nat)
    requires LinesInside(value, rows)
  {
    count <= |rows| && forall j :: 0 <= j < count ==> IsKeyData(value, rows[j])
  }

  lemma DataRunCons(value: string, row: Row, rest: seq<Row>, count: nat)
    requires row.start <= row.end <= |value| && LinesInside(value, rest) && count >= 1
    ensures LinesInside(value, [row] + rest)
    ensures DataRun(value, [row] + rest, count) <==> IsKeyData(value, row) && DataRun(value, rest, count - 1)
  {
    hide IsKeyData;
    var rows := [row] + rest;
    assert rows[0] == row && forall j :: 0 < j < |rows| ==> rows[j] == rest[j - 1];
    if DataRun(value, rows, count) {
      forall j | 0 <= j < count - 1 ensures IsKeyData(value, rest[j]) { assert rest[j] == rows[j + 1]; }
    }
  }

  lemma {:induction false} DataLinesExact(value: string, position: nat, limit: nat, count: nat)
    requires position <= |value| && limit <= |value|
    ensures LinesInside(value, Rows(value, position, limit))
    ensures DataLines(value, position, limit, count).Some? <==> DataRun(value, Rows(value, position, limit), count)
    ensures DataLines(value, position, limit, count).Some? ==>
              && count <= |Rows(value, position, limit)|
              && Rows(value, DataLines(value, position, limit, count).value, limit)
                == Rows(value, position, limit)[count..]
    decreases count
  {
    hide BoundedLine, BreakEnd, All, IsBase64Char, LinesInside, DataRun;
    InsideRows(value, position, limit);
    var rows := Rows(value, position, limit);
    if count == 0 {
      assert rows[0..] == rows;
      NoData(value, rows);
    } else if position >= limit || BoundedLine(value, position, limit).None? {
      if position >= limit { LateLine(value, position, limit); }
      NoDataRun(value, count);
    } else {
      var line := BoundedLine(value, position, limit).value;
      var row, rest := Row(position, line.end, line.next), Rows(value, line.next, limit);
      DataLinesExact(value, line.next, limit, count - 1);
      DataRunCons(value, row, rest, count);
      assert count - 1 <= |rest| ==> rows[count..] == rest[count - 1..];
    }
  }

  lemma NoData(value: string, rows: seq<Row>)
    requires LinesInside(value, rows)
    ensures DataRun(value, rows, 0)
  {
  }

  lemma NoDataRun(value: string, count: nat)
    requires count >= 1
    ensures LinesInside(value, []) && !DataRun(value, [], count)
  {
  }

  lemma MacRow(value: string, position: nat, limit: nat, digits: nat)
    requires position <= |value| && limit <= |value|
    ensures var rows, mac := Rows(value, position, limit), BoundedLine(value, position, limit);
            && LinesInside(value, rows)
            && ((mac.Some? && IsMacLine(value[position..mac.value.end], digits))
                <==> rows != [] && IsMacLine(RowText(value, rows[0]), digits))
            && (mac.Some? && rows != [] ==> rows[0].end == mac.value.end)
  {
    hide BoundedLine, BreakEnd;
    InsideRows(value, position, limit);
    if position >= limit {
      LateLine(value, position, limit);
      assert !IsMacLine("", digits);
      assert value[position..position] == "";
    }
  }

  lemma KeyFileShift(value: string, row: Row, rest: seq<Row>, version: char, k: nat, n: nat)
    requires row.start <= row.end <= |value| && LinesInside(value, rest) && !Announces(value, row)
    ensures LinesInside(value, [row] + rest)
    ensures KeyFileEnds(value, [row] + rest, version, k + 1, n) <==> KeyFileEnds(value, rest, version, k, n)
    ensures !KeyFileEnds(value, [row] + rest, version, 0, n)
  {
    hide Announces, IsKeyData, IsMacLine, PrivateLineCount;
    var rows := [row] + rest;
    assert rows[0] == row && forall j :: 0 < j < |rows| ==> rows[j] == rest[j - 1];
    if KeyFileEnds(value, rows, version, k + 1, n) {
      forall j | 0 <= j < k ensures !Announces(value, rest[j]) { assert rest[j] == rows[j + 1]; }
      forall j | k < j <= k + n ensures IsKeyData(value, rest[j]) { assert rest[j] == rows[j + 1]; }
    }
  }

  lemma PassLine(value: string, row: Row, rest: seq<Row>, version: char, end: nat)
    requires row.start <= row.end <= |value| && LinesInside(value, rest) && !Announces(value, row)
    requires IsKeyFileEnd(value, rest, version, end)
    ensures LinesInside(value, [row] + rest) && IsKeyFileEnd(value, [row] + rest, version, end)
  {
    hide Announces, IsKeyData, IsMacLine, PrivateLineCount;
    var rows := [row] + rest;
    KeyFileShift(value, row, rest, version, 0, 0);
    if k: nat, n: nat :| KeyFileEnds(value, rest, version, k, n) && end == rest[k + n + 1].end {
      KeyFileShift(value, row, rest, version, k, n);
      KeyFileIsLong(value, rest, version, k, n);
      assert rows[k + 1 + n + 1] == rest[k + n + 1];
    } else {
      forall k: nat, n: nat ensures !KeyFileEnds(value, rows, version, k, n) {
        KeyFileShift(value, row, rest, version, if k == 0 then 0 else k - 1, n);
      }
    }
  }

  lemma KeyFileIsLong(value: string, rows: seq<Row>, version: char, k: nat, n: nat)
    requires LinesInside(value, rows) && KeyFileEnds(value, rows, version, k, n)
    ensures k + n + 1 < |rows|
  {
  }

  /** An announcing line in front: only it can be the first, so it decides. */
  lemma AnnouncingFirst(value: string, row: Row, rest: seq<Row>, version: char, k: nat, n: nat)
    requires row.start <= row.end <= |value| && LinesInside(value, rest) && Announces(value, row)
    ensures LinesInside(value, [row] + rest)
    ensures KeyFileEnds(value, [row] + rest, version, k, n) <==>
              && k == 0 && PrivateLineCount(RowText(value, row)) == Some(n) && DataRun(value, rest, n)
              && n < |rest| && IsMacLine(RowText(value, rest[n]), if version == '2' then 40 else 64)
  {
    hide Announces, IsKeyData, IsMacLine, PrivateLineCount;
    var rows := [row] + rest;
    assert rows[0] == row && forall j :: 0 < j < |rows| ==> rows[j] == rest[j - 1];
    if KeyFileEnds(value, rows, version, k, n) {
      assert k == 0;
      forall j | 0 <= j < n ensures IsKeyData(value, rest[j]) { assert rest[j] == rows[j + 1]; }
    }
  }

  lemma AnnouncingLine(value: string, position: nat, limit: nat, version: char)
    requires position < limit <= |value| && BoundedLine(value, position, limit).Some?
    requires Announces(value, Rows(value, position, limit)[0])
    ensures LinesInside(value, Rows(value, position, limit))
    ensures IsKeyFileEnd(value, Rows(value, position, limit), version, PuttyBody(value, position, limit, version))
  {
    hide BoundedLine, BreakEnd, DataLines, PrivateLineCount, IsMacLine, KeyFileEnds, DataRun, LinesInside;
    var line := BoundedLine(value, position, limit).value;
    var row, rest, rows := Row(position, line.end, line.next), Rows(value, line.next, limit),
      Rows(value, position, limit);
    InsideRows(value, position, limit);
    InsideRows(value, line.next, limit);
    forall k: nat, n: nat { AnnouncingFirst(value, row, rest, version, k, n); }
    var count := PrivateLineCount(RowText(value, row));
    if count.Some? {
      var n := count.value;
      DataLinesExact(value, line.next, limit, n);
      var after := DataLines(value, line.next, limit, n);
      if after.Some? {
        MacRow(value, after.value, limit, if version == '2' then 40 else 64);
        assert rest[n..] != [] ==> rest[n..][0] == rest[n];
        assert n < |rest| ==> rows[n + 1] == rest[n];
        AnnouncingFirst(value, row, rest, version, 0, n);
      }
    }
  }

  lemma {:induction false} PuttyBodyExact(value: string, position: nat, limit: nat, version: char)
    requires position <= |value| && limit <= |value|
    ensures LinesInside(value, Rows(value, position, limit))
    ensures IsKeyFileEnd(value, Rows(value, position, limit), version, PuttyBody(value, position, limit, version))
    decreases |value| - position
  {
    hide BoundedLine, BreakEnd, DataLines, PrivateLineCount, IsMacLine, KeyFileEnds, IsKeyFileEnd, LinesInside;
    InsideRows(value, position, limit);
    if position >= limit || BoundedLine(value, position, limit).None? {
      NoKeyFile(value, version);
    } else {
      var line := BoundedLine(value, position, limit).value;
      var row := Row(position, line.end, line.next);
      if Announces(value, row) {
        AnnouncingLine(value, position, limit, version);
      } else {
        InsideRows(value, line.next, limit);
        PuttyBodyExact(value, line.next, limit, version);
        PassLine(value, row, Rows(value, line.next, limit), version, PuttyBody(value, line.next, limit, version));
      }
    }
  }

  lemma NoKeyFile(value: string, version: char)
    ensures LinesInside(value, []) && IsKeyFileEnd(value, [], version, |value|)
  {
  }

  /** The lines from the marker on. */
  function KeyRows(value: string, begin: nat): seq<Row>
    requires begin <= |value|
  {
    Rows(value, begin, Min(|value|, begin + MAX_MULTILINE_SECRET_CODE_UNITS))
  }

  /** The marker begins a key file: only spaces before it on its line, a short header line, and an encryption line. */
  ghost predicate IsKeyFile(value: string, begin: nat)
    requires begin < |value|
  {
    var rows, lineStart := KeyRows(value, begin),
      SkipBack(value, begin, if begin < 128 then 0 else begin - 128, NotNewline);
    && (lineStart == 0 || IsNewline(value[lineStart - 1])) && All(value[lineStart..begin], IsSpace)
    && LinesInside(value, rows) && |rows| >= 2 && rows[0].end < rows[0].next && rows[0].end - begin <= 100
    && PuttyVersion(RowText(value, rows[0])).Some?
    && RowText(value, rows[1]) in ["Encryption: none", "Encryption: aes256-cbc"]
  }

  /** The line at `position`, whose text is not empty, is the first row. */
  lemma FirstRow(value: string, position: nat, limit: nat)
    requires position <= |value| && limit <= |value|
    ensures var rows, line := Rows(value, position, limit), BoundedLine(value, position, limit);
            && (rows != [] ==> line.Some? && rows[0] == Row(position, line.value.end, line.value.next)
                               && rows[1..] == Rows(value, line.value.next, limit))
            && (line.Some? && line.value.end > position ==> rows != [])
  {
    hide BoundedLine, BreakEnd;
    if position >= limit { LateLine(value, position, limit); }
  }

  /**
   A marker is masked exactly when it begins a key file, up to the end of the MAC line that follows the announced number
   of key lines, and through the end of the text when the lines are not so.
   */
  lemma PuttyEndExact(value: string, begin: nat)
    requires begin < |value|
    ensures PuttyEnd(value, begin).Some? <==> IsKeyFile(value, begin)
    ensures IsKeyFile(value, begin) ==>
              var rows := KeyRows(value, begin);
              && |rows| >= 2 && LinesInside(value, rows) && LinesInside(value, rows[2..])
              && IsKeyFileEnd(value, rows[2..], PuttyVersion(RowText(value, rows[0])).value,
                              PuttyEnd(value, begin).value)
  {
    hide BoundedLine, BreakEnd, PuttyBody, PuttyVersion, SkipBack, All, IsKeyFileEnd, Rows;
    var limit := Min(|value|, begin + MAX_MULTILINE_SECRET_CODE_UNITS);
    InsideRows(value, begin, limit);
    FirstRow(value, begin, limit);
    var header := BoundedLine(value, begin, limit);
    if header.Some? {
      NoVersion();
      assert value[begin..begin] == "";
      InsideRows(value, header.value.next, limit);
      FirstRow(value, header.value.next, limit);
      var encryption := BoundedLine(value, header.value.next, limit);
      assert value[header.value.next..header.value.next] == "";
      if encryption.Some? && PuttyVersion(value[begin..header.value.end]).Some? {
        PuttyBodyExact(value, encryption.value.next, limit, PuttyVersion(value[begin..header.value.end]).value);
        var rows := Rows(value, begin, limit);
        assert |rows| >= 2 ==> rows[1..][0] == rows[1] && rows[1..][1..] == rows[2..];
      }
    }
  }

  lemma NoVersion()
    ensures PuttyVersion("").None?
  {
  }
}
