/**
 Which header lines open a YAML block scalar (contract/redaction.ts, `yamlBlockValueEnd`), said of the text of the line.
 */
module YamlHeaderLaws {
  import opened Text
  import opened Brackets
  import opened ValueEnds
  import opened ValueEndLaws

  // ----- the grammar of a header -----

  /** An anchor `&name`, a tag `!name` or a verbatim tag `!<...>`. */
  predicate IsWord(w: string) {
    || (|w| >= 3 && w[..2] == "!<" && w[|w| - 1] == '>' && forall k :: 2 <= k < |w| - 1 ==> w[k] != '>')
    || (|w| >= 2 && (w[0] == '&' || w[0] == '!') && forall k :: 1 <= k < |w| ==> IsTagChar(w[k]))
  }

  predicate AreBlanks(s: string) { forall k :: 0 <= k < |s| ==> IsBlank(s[k]) }

  /** An anchor or a tag and the blanks after it. */
  datatype Property = Property(word: string, gap: string)

  predicate IsProperty(p: Property) { IsWord(p.word) && p.gap != "" && AreBlanks(p.gap) }

  function PropertiesText(ps: seq<Property>): string {
    if ps == [] then "" else ps[0].word + ps[0].gap + PropertiesText(ps[1..])
  }

  predicate AreProperties(ps: seq<Property>) { |ps| <= 8 && forall k :: 0 <= k < |ps| ==> IsProperty(ps[k]) }

  predicate IsChomping(c: char) { c == '+' || c == '-' }

  /** At most one digit and one chomping sign, in either order. */
  predicate IsModifiers(mods: string, indent: Option<nat>) {
    || (mods == "" && indent == None)
    || (|mods| == 1 && IsChomping(mods[0]) && indent == None)
    || (|mods| == 1 && IsIndent(mods[0], indent))
    || (|mods| == 2 && IsIndent(mods[0], indent) && IsChomping(mods[1]))
    || (|mods| == 2 && IsChomping(mods[0]) && IsIndent(mods[1], indent))
  }

  predicate IsIndent(c: char, indent: Option<nat>) { '1' <= c <= '9' && indent == Some(c as int - '0' as int) }

  /** Blanks, and after one of them perhaps a comment. */
  predicate IsTail(tail: string) {
    exists k :: 0 <= k <= |tail| && AreBlanks(tail[..k]) && (k == |tail| || (k > 0 && tail[k] == '#'))
  }

  datatype Header = Header(properties: seq<Property>, mark: char, mods: string, tail: string)

  function HeaderText(h: Header): string { PropertiesText(h.properties) + [h.mark] + h.mods + h.tail }

  predicate IsHeader(h: Header, indent: Option<nat>) {
    && AreProperties(h.properties) && (h.mark == '|' || h.mark == '>') && IsModifiers(h.mods, indent) && IsTail(h.tail)
  }

  ghost predicate IsBlockHeader(line: string, indent: Option<nat>) {
    exists h :: IsHeader(h, indent) && line == HeaderText(h)
  }

  predicate BeginsProperty(s: string) { s != "" && (s[0] == '&' || s[0] == '!') }

  /** Properties that something other than a block indicator follows. */
  predicate IsPlain(ps: seq<Property>, rest: string) {
    && AreProperties(ps) && (|ps| == 8 || !BeginsProperty(rest))
    && (rest == "" || !(IsBlank(rest[0]) || rest[0] == '|' || rest[0] == '>'))
  }

  ghost predicate IsPlainHeader(line: string) {
    exists ps, rest :: IsPlain(ps, rest) && line == PropertiesText(ps) + rest
  }

  // ----- the line -----

  ghost predicate OneLine(value: string, start: nat, end: nat) {
    start <= end <= |value| && forall k :: start <= k < end ==> !IsNewline(value[k])
  }

  /** The line of the key begins at `line`, near enough to be found. */
  ghost predicate KeyLine(value: string, line: nat, keyStart: nat) {
    OneLine(value, line, keyStart) && keyStart <= line + 512 && (line == 0 || IsNewline(value[line - 1]))
  }

  /** The line that goes on at `start` ends at `end`, near enough to be found. */
  ghost predicate HeaderLine(value: string, start: nat, end: nat) {
    OneLine(value, start, end) && end <= start + 512 && (end == |value| || (end < start + 512 && IsNewline(value[end])))
  }

  predicate IsSpaceOrDash(value: string, k: nat, till: nat)
    requires k < till <= |value|
  {
    value[k] == ' ' || (value[k] == '-' && k + 1 < till && value[k + 1] == ' ')
  }

  /** Only spaces and list dashes, each with a space after it, come before the key. */
  predicate InPlace(value: string, line: nat, keyStart: nat)
    requires keyStart < |value|
  {
    value[keyStart] != ' ' && forall k :: line <= k < keyStart ==> IsSpaceOrDash(value, k, keyStart)
  }

  // ----- properties -----

  predicate NoBlankAt(value: string, i: nat) { i < |value| ==> !IsBlank(value[i]) }

  ghost predicate PropertyAt(value: string, index: nat, end: nat, p: Property, next: nat)
    requires end <= |value|
  {
    && IsProperty(p) && next == index + |p.word| + |p.gap| <= end && value[index..next] == p.word + p.gap
    && NoBlankAt(value, next)
  }

  predicate IsVerbatim(value: string, index: nat) { Is(value, index, '!') && Is(value, index + 1, '<') }

  lemma PropertyFound(value: string, index: nat, end: nat) returns (p: Property)
    requires HeaderLine(value, index, end) && BeginsProperty(value[index..end]) && PropertyEnd(value, index, end).Some?
    ensures PropertyAt(value, index, end, p, PropertyEnd(value, index, end).value)
  {
    hide SkipWhile;
    var next := PropertyEnd(value, index, end).value;
    var after := if IsVerbatim(value, index) then SkipWhile(value, index + 2, end, NotAngle) + 1
                 else SkipWhile(value, index + 1, end, IsTagChar);
    p := Property(value[index..after], value[after..next]);
    assert value[index..end][0] == value[index];
    assert !IsVerbatim(value, index) ==> forall k :: index + 1 <= k < after ==> IsTagChar(value[k]);
    assert value[index..next] == p.word + p.gap;
  }

  lemma WordEnds(value: string, index: nat, end: nat, after: nat)
    requires index <= after < end <= |value| && IsWord(value[index..after]) && IsBlank(value[after])
    ensures value[index] == '&' || value[index] == '!'
    ensures if IsVerbatim(value, index) then SkipWhile(value, index + 2, end, NotAngle) == after - 1
            else after > index + 1 && SkipWhile(value, index + 1, end, IsTagChar) == after
  {
    hide SkipWhile;
    var w := value[index..after];
    assert forall k :: index <= k < after ==> value[k] == w[k - index];
    assert w[0] == value[index] && w[1] == value[index + 1];
    assert w[..2] == "!<" ==> w[..2][0] == '!' && w[..2][1] == '<';
    if IsVerbatim(value, index) {
      SkipExact(value, index + 2, end, NotAngle, after - 1);
    } else {
      SkipExact(value, index + 1, end, IsTagChar, after);
    }
  }

  lemma GapEnds(value: string, after: nat, next: nat)
    requires after < next <= |value| && AreBlanks(value[after..next]) && NoBlankAt(value, next)
    ensures SkipWhile(value, after, |value|, IsBlank) == next && IsBlank(value[after])
  {
    hide SkipWhile;
    assert forall k :: after <= k < next ==> value[k] == value[after..next][k - after];
    SkipExact(value, after, |value|, IsBlank, next);
  }

  lemma PropertyReads(value: string, index: nat, end: nat, p: Property, next: nat)
    requires HeaderLine(value, index, end) && PropertyAt(value, index, end, p, next)
    ensures PropertyEnd(value, index, end) == Some(next) && BeginsProperty(value[index..end])
  {
    hide SkipWhile, IsWord, AreBlanks;
    var after, text := index + |p.word|, value[index..next];
    assert text[..|p.word|] == p.word && text[..|p.word|] == value[index..after];
    assert text[|p.word|..] == p.gap && text[|p.word|..] == value[after..next];
    GapEnds(value, after, next);
    WordEnds(value, index, end, after);
  }

  ghost predicate PropertiesAt(value: string, start: nat, end: nat, left: nat, ps: seq<Property>, i: nat)
    requires end <= |value|
  {
    && start <= i <= end && value[start..i] == PropertiesText(ps) && |ps| <= left && NoBlankAt(value, i)
    && (forall k :: 0 <= k < |ps| ==> IsProperty(ps[k]))
    && (|ps| == left || !(Is(value, i, '&') || Is(value, i, '!')))
  }

  lemma {:induction false} PropertiesFound(value: string, start: nat, end: nat, left: nat) returns (ps: seq<Property>)
    requires HeaderLine(value, start, end) && NoBlankAt(value, start) && YamlProperties(value, start, end, left).Some?
    ensures PropertiesAt(value, start, end, left, ps, YamlProperties(value, start, end, left).value)
    decreases left
  {
    hide PropertyEnd;
    if left == 0 || !(Is(value, start, '&') || Is(value, start, '!')) {
      ps := [];
    } else {
      assert value[start..end][0] == value[start];
      var p := PropertyFound(value, start, end);
      var next := PropertyEnd(value, start, end).value;
      var rest := PropertiesFound(value, next, end, left - 1);
      ps := [p] + rest;
      var i := YamlProperties(value, next, end, left - 1).value;
      assert value[start..i] == value[start..next] + value[next..i];
      assert ps[1..] == rest;
    }
  }

  lemma TextBegins(ps: seq<Property>)
    requires ps != [] && IsProperty(ps[0])
    ensures BeginsProperty(PropertiesText(ps))
  {
    assert |ps[0].word| >= 3 && ps[0].word[..2] == "!<" ==> ps[0].word[..2][0] == '!';
  }

  lemma {:induction false} PropertiesRead(value: string, start: nat, end: nat, left: nat, ps: seq<Property>, i: nat)
    requires HeaderLine(value, start, end) && PropertiesAt(value, start, end, left, ps, i)
    ensures YamlProperties(value, start, end, left) == Some(i)
    decreases left
  {
    hide PropertyEnd, IsProperty;
    if ps != [] {
      var p, rest := ps[0], ps[1..];
      var next := start + |p.word| + |p.gap|;
      var text := value[start..i];
      assert text[..next - start] == p.word + p.gap == value[start..next];
      assert value[next..i] == text[next - start..] == PropertiesText(rest);
      if rest != [] {
        TextBegins(rest);
        assert value[next] == PropertiesText(rest)[0];
      }
      PropertyReads(value, start, end, p, next);
      assert value[start..end][0] == value[start];
      PropertiesRead(value, next, end, left - 1, rest, i);
    }
  }

  // ----- indicator, modifiers and tail -----

  lemma ModifiersFound(value: string, j: nat, end: nat)
    requires HeaderLine(value, j, end)
    ensures var m := YamlModifiers(value, Modifiers(j, None, false), 2);
            j <= m.index <= end && IsModifiers(value[j..m.index], m.indent)
  {
    var m := YamlModifiers(value, Modifiers(j, None, false), 2);
    var one := YamlModifiers(value, Modifiers(j, None, false), 1);
    assert forall k :: j <= k < m.index ==> value[j..m.index][k - j] == value[k];
  }

  lemma ModifiersRead(value: string, j: nat, end: nat, till: nat, indent: Option<nat>)
    requires HeaderLine(value, j, end) && j <= till <= end && IsModifiers(value[j..till], indent)
    requires till == end || IsBlank(value[till])
    ensures var m := YamlModifiers(value, Modifiers(j, None, false), 2); m.index == till && m.indent == indent
  {
    assert forall k :: j <= k < till ==> value[j..till][k - j] == value[k];
  }

  /** What stands after the properties of a block. */
  ghost predicate MarkAt(value: string, i: nat, end: nat, till: nat, indent: Option<nat>)
    requires end <= |value|
  {
    && i < till <= end && (value[i] == '|' || value[i] == '>')
    && IsModifiers(value[i + 1..till], indent) && IsTail(value[till..end])
  }

  function ReadMark(value: string, i: nat): Modifiers { YamlModifiers(value, Modifiers(i + 1, None, false), 2) }

  predicate TailReads(value: string, till: nat, end: nat)
    requires end <= |value|
  {
    var after := SkipWhile(value, till, |value|, IsBlank);
    after >= end || (value[after] == '#' && after != till)
  }

  lemma TailIs(value: string, till: nat, end: nat)
    requires HeaderLine(value, till, end)
    ensures TailReads(value, till, end) <==> IsTail(value[till..end])
  {
    hide SkipWhile;
    var after, tail := SkipWhile(value, till, |value|, IsBlank), value[till..end];
    if TailReads(value, till, end) {
      var k := (if after >= end then end else after) - till;
      assert forall n :: 0 <= n < k ==> tail[..k][n] == value[till + n];
      assert AreBlanks(tail[..k]);
    }
    if IsTail(tail) {
      var k :| 0 <= k <= |tail| && AreBlanks(tail[..k]) && (k == |tail| || (k > 0 && tail[k] == '#'));
      assert forall n :: till <= n < till + k ==> value[n] == tail[..k][n - till];
      SkipExact(value, till, |value|, IsBlank, till + k);
    }
  }

  lemma TailBegins(tail: string)
    requires IsTail(tail) && tail != ""
    ensures IsBlank(tail[0])
  {
    var k :| 0 <= k <= |tail| && AreBlanks(tail[..k]) && (k == |tail| || (k > 0 && tail[k] == '#'));
    assert tail[..k][0] == tail[0];
  }

  lemma MarkFound(value: string, i: nat, end: nat)
    requires HeaderLine(value, i, end) && i < end && (value[i] == '|' || value[i] == '>')
    requires TailReads(value, ReadMark(value, i).index, end)
    ensures MarkAt(value, i, end, ReadMark(value, i).index, ReadMark(value, i).indent)
  {
    hide YamlModifiers, IsModifiers, IsTail, TailReads;
    ModifiersFound(value, i + 1, end);
    TailIs(value, ReadMark(value, i).index, end);
  }

  lemma MarkReads(value: string, i: nat, end: nat, till: nat, indent: Option<nat>)
    requires HeaderLine(value, i, end) && MarkAt(value, i, end, till, indent)
    ensures ReadMark(value, i).index == till && ReadMark(value, i).indent == indent && TailReads(value, till, end)
  {
    hide YamlModifiers, IsModifiers, IsTail, TailReads;
    if till < end {
      TailBegins(value[till..end]);
      assert value[till..end][0] == value[till];
    }
    ModifiersRead(value, i + 1, end, till, indent);
    TailIs(value, till, end);
  }

  // ----- the whole header -----

  lemma SplitHeader(value: string, start: nat, i: nat, till: nat, end: nat, ps: seq<Property>)
    requires start <= i < till <= end <= |value| && value[start..i] == PropertiesText(ps)
    ensures value[start..end] == HeaderText(Header(ps, value[i], value[i + 1..till], value[till..end]))
  {
    hide PropertiesText;
  }

  /** The properties, the mark and the rest as the code reads them are a header of the grammar. */
  lemma BlockFound(value: string, start: nat, end: nat, i: nat)
    requires HeaderLine(value, start, end) && NoBlankAt(value, start) && YamlProperties(value, start, end, 8) == Some(i)
    requires (Is(value, i, '|') || Is(value, i, '>')) && TailReads(value, ReadMark(value, i).index, end)
    ensures IsBlockHeader(value[start..end], ReadMark(value, i).indent)
  {
    hide YamlProperties, TailReads, ReadMark, IsModifiers, IsTail, IsProperty, PropertiesText, HeaderText;
    var ps := PropertiesFound(value, start, end, 8);
    MarkFound(value, i, end);
    var m := ReadMark(value, i);
    SplitHeader(value, start, i, m.index, end, ps);
    var h := Header(ps, value[i], value[i + 1..m.index], value[m.index..end]);
    assert IsHeader(h, m.indent);
  }

  lemma SubSlice(value: string, start: nat, end: nat, a: nat, b: nat)
    requires start <= end <= |value| && a <= b <= end - start
    ensures value[start..end][a..b] == value[start + a..start + b]
  {
    var s, t := value[start..end][a..b], value[start + a..start + b];
    assert forall k :: 0 <= k < |s| ==> s[k] == value[start..end][a + k] && t[k] == value[(start + a) + k];
  }

  lemma HeaderSlices(value: string, start: nat, end: nat, h: Header)
    requires start <= end <= |value| && value[start..end] == HeaderText(h)
    ensures var i := start + |PropertiesText(h.properties)|;
            var till := i + 1 + |h.mods|;
            && till <= end && value[start..i] == PropertiesText(h.properties) && value[i] == h.mark
            && value[i + 1..till] == h.mods && value[till..end] == h.tail
  {
    hide PropertiesText;
    var front, line := PropertiesText(h.properties), value[start..end];
    var i, till := |front|, |front| + 1 + |h.mods|;
    assert line == front + ([h.mark] + h.mods + h.tail);
    assert line[..i] == front && line[i] == h.mark;
    assert line[i + 1..till] == h.mods;
    assert line[till..] == h.tail;
    SubSlice(value, start, end, i + 1, till);
  }

  lemma BlockReads(value: string, start: nat, end: nat, indent: Option<nat>) returns (i: nat)
    requires HeaderLine(value, start, end) && IsBlockHeader(value[start..end], indent)
    ensures YamlProperties(value, start, end, 8) == Some(i) && (Is(value, i, '|') || Is(value, i, '>'))
    ensures ReadMark(value, i).indent == indent && TailReads(value, ReadMark(value, i).index, end)
    ensures start < end && IsBlockStart(value[start])
  {
    hide YamlProperties, TailReads, ReadMark, IsModifiers, IsTail, IsProperty, PropertiesText;
    var h :| IsHeader(h, indent) && value[start..end] == HeaderText(h);
    i := start + |PropertiesText(h.properties)|;
    var till := i + 1 + |h.mods|;
    HeaderSlices(value, start, end, h);
    PropertiesRead(value, start, end, 8, h.properties, i);
    MarkReads(value, i, end, till, indent);
    if h.properties == [] {
      assert PropertiesText(h.properties) == "" by { EmptyText(h.properties); }
    } else {
      TextBegins(h.properties);
      assert value[start..i][0] == value[start];
    }
  }

  lemma EmptyText(ps: seq<Property>)
    requires ps == []
    ensures PropertiesText(ps) == ""
  {
  }

  lemma PlainIs(value: string, start: nat, end: nat)
    requires HeaderLine(value, start, end) && NoBlankAt(value, start)
    ensures IsPlainHeader(value[start..end])
            <==> YamlProperties(value, start, end, 8).Some?
                 && var i := YamlProperties(value, start, end, 8).value; !(Is(value, i, '|') || Is(value, i, '>'))
  {
    hide YamlProperties, IsProperty, PropertiesText;
    var line, found := value[start..end], YamlProperties(value, start, end, 8);
    if found.Some? {
      var ps := PropertiesFound(value, start, end, 8);
      var i := found.value;
      assert line == value[start..i] + value[i..end];
      assert i < end ==> value[i..end][0] == value[i];
      if !(Is(value, i, '|') || Is(value, i, '>')) { assert IsPlain(ps, value[i..end]); }
    }
    if IsPlainHeader(line) {
      var ps, rest :| IsPlain(ps, rest) && line == PropertiesText(ps) + rest;
      var i := start + |PropertiesText(ps)|;
      assert line[..i - start] == PropertiesText(ps) && line[..i - start] == value[start..i];
      assert line[i - start..] == rest && line[i - start..] == value[i..end];
      assert rest != "" ==> value[i] == rest[0];
      PropertiesRead(value, start, end, 8, ps, i);
    }
  }

  // ----- the key's own line -----

  lemma {:induction false} DashesAre(value: string, i: nat, keyStart: nat)
    requires i <= keyStart < |value| && value[i] != ' '
    ensures DashPrefix(value, i, keyStart) == keyStart <==> InPlace(value, i, keyStart)
    decreases keyStart - i
  {
    hide SkipWhile;
    if i < keyStart && Is(value, i, '-') && Is(value, i + 1, ' ') {
      var j := SkipWhile(value, i + 2, |value|, IsSpace);
      assert forall k :: i + 2 <= k < j ==> value[k] == ' ';
      if j <= keyStart {
        DashesAre(value, j, keyStart);
      } else {
        assert value[keyStart] == ' ';
      }
    } else if i < keyStart {
      assert !IsSpaceOrDash(value, i, keyStart);
    }
  }

  lemma PrefixIs(value: string, line: nat, keyStart: nat)
    requires line <= keyStart < |value|
    ensures DashPrefix(value, SkipWhile(value, line, |value|, IsSpace), keyStart) == keyStart
            <==> InPlace(value, line, keyStart)
  {
    hide SkipWhile, DashPrefix;
    var i := SkipWhile(value, line, |value|, IsSpace);
    assert forall k :: line <= k < i ==> value[k] == ' ';
    if i <= keyStart {
      DashesAre(value, i, keyStart);
    } else {
      PastKey(value, i, keyStart);
    }
  }

  lemma PastKey(value: string, i: nat, keyStart: nat)
    requires i > keyStart
    ensures DashPrefix(value, i, keyStart) == i
  {
  }

  // ----- the law -----

  /** The line starts where the code looks, or too far away. */
  lemma LineStartIs(value: string, keyStart: nat, line: nat)
    requires keyStart <= |value|
    ensures KeyLine(value, line, keyStart)
            <==> line == LineStart(value, keyStart) && (line == 0 || IsNewline(value[line - 1]))
  {
    hide SkipBack;
  }

  lemma HeaderLineIs(value: string, start: nat, end: nat)
    requires start <= |value|
    ensures HeaderLine(value, start, end)
            <==> var line := BoundedLine(value, start, Min(|value|, start + 512)); line.Some? && line.value.end == end
  {
    hide BreakEnd;
    var limit := Min(|value|, start + 512);
    var line := BoundedLine(value, start, limit);
  }

  function Depth(keyColumn: nat, indent: Option<nat>): Option<nat> {
    if indent.None? then None else Some(keyColumn + indent.value)
  }

  ghost predicate BlockOf(line: string, keyColumn: nat, depth: Option<nat>) {
    exists indent :: IsBlockHeader(line, indent) && depth == Depth(keyColumn, indent)
  }

  lemma PropertiesIff(value: string, start: nat, keyColumn: nat, header: Line, h: YamlHeader)
    requires start < |value| && IsBlockStart(value[start])
    requires BoundedLine(value, start, Min(|value|, start + 512)) == Some(header)
    ensures h.Block? ==> (ReadYamlProperties(value, start, keyColumn, header) == h
              <==> && header.next != header.end && h.body == header.next && h.keyColumn == keyColumn
                   && BlockOf(value[start..header.end], keyColumn, h.indentation))
    ensures ReadYamlProperties(value, start, keyColumn, header) == NoBlock <==> IsPlainHeader(value[start..header.end])
  {
    hide YamlProperties, YamlModifiers, SkipWhile, BoundedLine, IsBlockHeader, IsPlainHeader, HeaderLine;
    HeaderLineIs(value, start, header.end);
    PlainIs(value, start, header.end);
    var read, end := ReadYamlProperties(value, start, keyColumn, header), header.end;
    var index := YamlProperties(value, start, end, 8);
    if index.Some? && (Is(value, index.value, '|') || Is(value, index.value, '>')) {
      if TailReads(value, ReadMark(value, index.value).index, end) {
        BlockFound(value, start, end, index.value);
      }
    }
    if h.Block? && BlockOf(value[start..end], keyColumn, h.indentation) {
      var indent :| IsBlockHeader(value[start..end], indent) && h.indentation == Depth(keyColumn, indent);
      var i := BlockReads(value, start, end, indent);
    }
  }

  /** The line of the key, its prefix and the rest of the line make `h` the header of a block. */
  ghost predicate OpensBlock(value: string, start: nat, keyStart: nat, line: nat, end: nat, h: YamlHeader)
    requires keyStart <= start < |value|
  {
    && KeyLine(value, line, keyStart) && InPlace(value, line, keyStart) && HeaderLine(value, start, end)
    && end < |value|
    && h.Block? && h.body == BreakEnd(value, end) && h.keyColumn == keyStart - line
    && BlockOf(value[start..end], h.keyColumn, h.indentation)
  }

  /**
   The line of the key is found and opens no block: what follows is no header, or the key is not in place on a last
   line.
   */
  ghost predicate OpensNoBlock(value: string, start: nat, keyStart: nat, line: nat, end: nat)
    requires keyStart <= start < |value|
  {
    && KeyLine(value, line, keyStart) && HeaderLine(value, start, end)
    && if InPlace(value, line, keyStart) then IsPlainHeader(value[start..end]) else end == |value|
  }

  lemma BlockHeaderBegins(value: string, start: nat, end: nat, keyColumn: nat, depth: Option<nat>)
    requires HeaderLine(value, start, end) && BlockOf(value[start..end], keyColumn, depth)
    ensures start < end && IsBlockStart(value[start])
  {
    hide IsBlockHeader, YamlProperties, ReadMark, TailReads;
    var indent :| IsBlockHeader(value[start..end], indent) && depth == Depth(keyColumn, indent);
    var i := BlockReads(value, start, end, indent);
  }

  /**
   The code reads a block from exactly the header lines of the grammar, in a line that it finds, after a prefix of
   dashes.
   */
  lemma BlockHeaderExact(value: string, start: nat, keyStart: nat, h: YamlHeader)
    requires keyStart <= start < |value| && h.Block?
    ensures ReadYamlHeader(value, start, keyStart) == h
            <==> exists line, end :: OpensBlock(value, start, keyStart, line, end, h)
  {
    hide ReadYamlProperties, BoundedLine, BlockOf, HeaderLine, KeyLine, InPlace, LineStart, DashPrefix, SkipWhile;
    var line := LineStart(value, keyStart);
    var header := BoundedLine(value, start, Min(|value|, start + 512));
    LineStartIs(value, keyStart, line);
    PrefixIs(value, line, keyStart);
    if header.Some? { HeaderLineIs(value, start, header.value.end); }
    if header.Some? && IsBlockStart(value[start]) { PropertiesIff(value, start, keyStart - line, header.value, h); }
    if ReadYamlHeader(value, start, keyStart) == h {
      assert OpensBlock(value, start, keyStart, line, header.value.end, h);
    }
    if l, e :| OpensBlock(value, start, keyStart, l, e, h) {
      LineStartIs(value, keyStart, l);
      HeaderLineIs(value, start, e);
      BlockHeaderBegins(value, start, e, h.keyColumn, h.indentation);
    }
  }

  /**
   And it takes the value for no block exactly when no header begins or a found line opens none; all else is sealed.
   */
  lemma NoBlockExact(value: string, start: nat, keyStart: nat)
    requires keyStart <= start < |value|
    ensures ReadYamlHeader(value, start, keyStart) == NoBlock
            <==> !IsBlockStart(value[start]) || exists line, end :: OpensNoBlock(value, start, keyStart, line, end)
  {
    hide ReadYamlProperties, BoundedLine, IsPlainHeader, HeaderLine, KeyLine, InPlace, LineStart, DashPrefix, SkipWhile;
    var line := LineStart(value, keyStart);
    var header := BoundedLine(value, start, Min(|value|, start + 512));
    LineStartIs(value, keyStart, line);
    PrefixIs(value, line, keyStart);
    if header.Some? { HeaderLineIs(value, start, header.value.end); }
    if IsBlockStart(value[start]) {
      if header.Some? { PropertiesIff(value, start, keyStart - line, header.value, NoBlock); }
      if ReadYamlHeader(value, start, keyStart) == NoBlock {
        assert OpensNoBlock(value, start, keyStart, line, header.value.end);
      }
      if l, e :| OpensNoBlock(value, start, keyStart, l, e) {
        LineStartIs(value, keyStart, l);
        HeaderLineIs(value, start, e);
      }
    }
  }

  /** So the text alone says where the value of a block ends. */
  lemma BlockValueEndExact(value: string, start: nat, keyStart: nat, line: nat, end: nat, h: YamlHeader)
    requires keyStart <= start < |value| && OpensBlock(value, start, keyStart, line, end, h)
    ensures h.body <= |value| && YamlBlockEnd(value, start, keyStart).Some?
    ensures var rows := Rows(value, h.body, BlockLimit(value, start));
            && GoodRows(value, rows)
            && IsBlockEnd(value, rows, h.keyColumn, h.indentation, 0, YamlBlockEnd(value, start, keyStart).value)
  {
    hide ReadYamlHeader, YamlBlockEnd, Rows, GoodRows, IsBlockEnd, KeyLine, InPlace, HeaderLine, BlockOf;
    BlockHeaderExact(value, start, keyStart, h);
    YamlBlockEndExact(value, start, keyStart);
  }
}
