/**
 Where a structured secret value ends (contract/redaction.ts): the bracket stack of
 `structuredValueEnd`, and the grammar of balanced text that gives it its meaning.
 */
module Brackets {
  import opened Text

  const MAX_STRUCTURED_SECRET_CODE_UNITS := 1_048_576

  predicate IsOpener(c: char) { c == '{' || c == '[' }

  predicate IsCloser(c: char) { c == '}' || c == ']' }

  predicate IsQuote(c: char) { c == '"' || c == '\'' }

  function CloserOf(c: char): char { if c == '{' then '}' else ']' }

  /** Character `c` stands at position `i`; JavaScript reads past the end as undefined. */
  predicate Is(value: string, i: int, c: char) { 0 <= i < |value| && value[i] == c }

  function Min(a: nat, b: nat): nat { if a < b then a else b }

  // ----- the grammar -----

  /** Bracket words: empty, or an opener, a balanced word, its closer and a balanced word. */
  ghost predicate Balanced(w: string)
    decreases |w|, 1
  {
    w == "" || exists i :: SplitsAt(w, i)
  }

  ghost predicate SplitsAt(w: string, i: int)
    decreases |w|, 0
  {
    && 0 < i < |w| && IsOpener(w[0]) && w[i] == CloserOf(w[0])
    && Balanced(w[1..i]) && Balanced(w[i + 1..])
  }

  /** `w` is balanced except for openers whose expected closers are `stack`, innermost last. */
  ghost predicate Unmatched(w: string, stack: string)
    decreases |stack|, 1
  {
    if stack == "" then Balanced(w) else exists k :: OpensAt(w, stack, k)
  }

  ghost predicate OpensAt(w: string, stack: string, k: int)
    requires stack != ""
    decreases |stack|, 0
  {
    && 0 <= k < |w| && IsOpener(w[k]) && CloserOf(w[k]) == stack[|stack| - 1]
    && Balanced(w[k + 1..]) && Unmatched(w[..k], stack[..|stack| - 1])
  }

  // ----- the stack -----

  /** One bracket on the stack of expected closers; a wrong closer has no successor. */
  function Push(stack: string, c: char): Option<string> {
    if IsOpener(c) then Some(stack + [CloserOf(c)])
    else if stack != "" && stack[|stack| - 1] == c then Some(stack[..|stack| - 1])
    else None
  }

  function Stack(w: string): Option<string> {
    if w == "" then Some("")
    else var before := Stack(w[..|w| - 1]);
      if before.None? then None else Push(before.value, w[|w| - 1])
  }

  /** The stack from a given start, reading left to right. */
  function StackFrom(stack: string, w: string): Option<string>
    decreases w
  {
    if w == "" then Some(stack)
    else var next := Push(stack, w[0]);
      if next.None? then None else StackFrom(next.value, w[1..])
  }

  lemma {:induction false} StackFromConcat(stack: string, a: string, b: string)
    ensures StackFrom(stack, a + b)
            == if StackFrom(stack, a).None? then None else StackFrom(StackFrom(stack, a).value, b)
    decreases a
  {
    if a == "" {
      assert a + b == b;
    } else {
      assert (a + b)[0] == a[0] && (a + b)[1..] == a[1..] + b;
      var next := Push(stack, a[0]);
      if next.Some? { StackFromConcat(next.value, a[1..], b); }
    }
  }

  lemma {:induction false} StackIsStackFrom(w: string)
    ensures Stack(w) == StackFrom("", w)
  {
    if w != "" {
      var front, c := w[..|w| - 1], w[|w| - 1];
      StackIsStackFrom(front);
      StackFromConcat("", front, [c]);
      assert w == front + [c];
      if Stack(front).Some? {
        assert [c][1..] == "";
        assert StackFrom(Stack(front).value, [c])
               == if Push(Stack(front).value, c).None? then None else StackFrom(Push(Stack(front).value, c).value, "");
      }
    }
  }

  lemma {:induction false} BalancedConcat(a: string, b: string)
    requires Balanced(a) && Balanced(b)
    ensures Balanced(a + b)
    decreases |a|
  {
    if a == "" {
      assert a + b == b;
    } else {
      var i :| SplitsAt(a, i);
      BalancedConcat(a[i + 1..], b);
      assert (a + b)[1..i] == a[1..i] && (a + b)[i + 1..] == a[i + 1..] + b;
      assert SplitsAt(a + b, i);
    }
  }

  lemma BalancedWrap(c: char, w: string)
    requires IsOpener(c) && Balanced(w)
    ensures Balanced([c] + w + [CloserOf(c)])
  {
    var x := [c] + w + [CloserOf(c)];
    assert x[1..|w| + 1] == w && x[|w| + 2..] == "";
    assert SplitsAt(x, |w| + 1);
  }

  lemma {:induction false} BalancedKeepsStack(stack: string, w: string)
    requires Balanced(w)
    ensures StackFrom(stack, w) == Some(stack)
    decreases |w|
  {
    if w != "" {
      var i :| SplitsAt(w, i);
      var inner, rest, pushed := w[1..i], w[i + 1..], stack + [CloserOf(w[0])];
      BalancedKeepsStack(pushed, inner);
      BalancedKeepsStack(stack, rest);
      StackFromConcat(pushed, inner, [w[i]] + rest);
      assert w[1..] == inner + ([w[i]] + rest);
      assert pushed[..|pushed| - 1] == stack;
      assert ([w[i]] + rest)[1..] == rest;
    }
  }

  lemma UnmatchedConcat(w: string, stack: string, tail: string)
    requires Unmatched(w, stack) && Balanced(tail)
    ensures Unmatched(w + tail, stack)
  {
    if stack == "" {
      BalancedConcat(w, tail);
    } else {
      var k :| OpensAt(w, stack, k);
      BalancedConcat(w[k + 1..], tail);
      assert (w + tail)[k + 1..] == w[k + 1..] + tail && (w + tail)[..k] == w[..k];
      assert OpensAt(w + tail, stack, k);
    }
  }

  /** The stack always holds the closers of exactly the unmatched openers. */
  lemma {:induction false} StackIsUnmatched(w: string)
    requires Stack(w).Some?
    ensures Unmatched(w, Stack(w).value)
    decreases |w|
  {
    if w != "" {
      var front, c := w[..|w| - 1], w[|w| - 1];
      var before, stack := Stack(front).value, Stack(w).value;
      StackIsUnmatched(front);
      assert w == front + [c];
      if IsOpener(c) {
        assert w[|front| + 1..] == "" && w[..|front|] == front && stack[..|stack| - 1] == before;
        assert OpensAt(w, stack, |front|);
      } else {
        var k :| OpensAt(front, before, k);
        var block := [front[k]] + front[k + 1..] + [c];
        BalancedWrap(front[k], front[k + 1..]);
        UnmatchedConcat(front[..k], stack, block);
        assert w == front[..k] + block;
      }
    }
  }

  /** A bracket word is balanced exactly when the stack machine accepts it and ends empty. */
  lemma BalancedIffStackEmpties(w: string)
    ensures Balanced(w) <==> Stack(w) == Some("")
  {
    StackIsStackFrom(w);
    if Balanced(w) { BalancedKeepsStack("", w); }
    if Stack(w) == Some("") { StackIsUnmatched(w); }
  }

  // ----- quoting -----

  /** Outside quotes; inside a quote; after a backslash; after a single quote that may be doubled. */
  datatype Mode = Out | In(quote: char) | Escaped(quote: char) | Half

  function Next(mode: Mode, c: char): Mode {
    match mode
    case In(q) => if c == '\\' then Escaped(q) else if c != q then mode else if q == '\'' then Half else Out
    case Escaped(q) => In(q)
    case Half => if IsQuote(c) then In(c) else Out
    case Out => if IsQuote(c) then In(c) else Out
  }

  /** The mode after reading `text`, starting outside quotes. */
  function ModeOf(text: string): Mode {
    if text == "" then Out else Next(ModeOf(text[..|text| - 1]), text[|text| - 1])
  }

  /** The bracket characters of `text` that stand outside quotes. */
  function Skeleton(text: string): string {
    if text == "" then ""
    else
      var front, c := text[..|text| - 1], text[|text| - 1];
      if Counts(front, c) then Skeleton(front) + [c] else Skeleton(front)
  }

  /** Character `c`, read after `front`, is a bracket outside quotes. */
  predicate Counts(front: string, c: char) {
    (IsOpener(c) || IsCloser(c)) && (ModeOf(front) == Out || ModeOf(front) == Half)
  }

  /** The text from `start` closes at `end`: its last character completes a balanced skeleton. */
  ghost predicate ClosesAt(value: string, start: nat, end: nat)
    requires start < end <= |value|
  {
    Counts(value[start..end - 1], value[end - 1]) && Balanced(Skeleton(value[start..end]))
  }

  /** The quoted text from `start` closes at `end`; a doubled single quote does not close it. */
  predicate QuoteClosesAt(value: string, start: nat, end: nat)
    requires start < end <= |value|
  {
    var mode := ModeOf(value[start..end]);
    mode == Out || (mode == Half && !Is(value, end, '\''))
  }

  ghost predicate EndsAt(value: string, start: nat, end: nat)
    requires start < end <= |value|
  {
    if IsQuote(value[start]) then QuoteClosesAt(value, start, end) else ClosesAt(value, start, end)
  }

  ghost predicate NoEnd(value: string, start: nat, upTo: nat)
    requires start < |value| && upTo <= |value|
  {
    forall e :: start < e <= upTo ==> !EndsAt(value, start, e)
  }

  function Budget(value: string, start: nat): nat {
    Min(|value|, start + MAX_STRUCTURED_SECRET_CODE_UNITS)
  }

  /** The specified end: the shortest closed prefix inside the budget, else the end of the text. */
  ghost predicate IsStructuredEnd(value: string, start: nat, end: nat)
    requires start < |value|
  {
    var limit := Budget(value, start);
    || (start < end <= limit && EndsAt(value, start, end) && NoEnd(value, start, end - 1))
    || (end == |value| && NoEnd(value, start, limit))
  }

  lemma StructuredEndUnique(value: string, start: nat, a: nat, b: nat)
    requires start < |value| && IsStructuredEnd(value, start, a) && IsStructuredEnd(value, start, b)
    ensures a == b
  {
  }

  lemma StructuredEndExists(value: string, start: nat, upTo: nat)
    requires start < |value| && start <= upTo <= Budget(value, start) && NoEnd(value, start, upTo)
    ensures exists end: nat :: IsStructuredEnd(value, start, end)
    decreases Budget(value, start) - upTo
  {
    if upTo == Budget(value, start) {
      assert IsStructuredEnd(value, start, |value|);
    } else if EndsAt(value, start, upTo + 1) {
      assert IsStructuredEnd(value, start, upTo + 1);
    } else {
      StructuredEndExists(value, start, upTo + 1);
    }
  }

  ghost function StructuredEnd(value: string, start: nat): (end: nat)
    requires start < |value|
    ensures IsStructuredEnd(value, start, end) && start < end <= |value|
  {
    StructuredEndExists(value, start, start);
    var end: nat :| IsStructuredEnd(value, start, end);
    end
  }

  // ----- the scanning loops -----

  lemma {:induction false} StuckStaysStuck(text: string, more: string)
    requires Stack(Skeleton(text)).None?
    ensures Stack(Skeleton(text + more)).None?
    decreases more
  {
    if more == "" {
      assert text + more == text;
    } else {
      var all := text + more;
      StuckStaysStuck(text, more[..|more| - 1]);
      assert all[..|all| - 1] == text + more[..|more| - 1];
      var front := Skeleton(all[..|all| - 1]);
      assert (front + [all[|all| - 1]])[..|front|] == front;
    }
  }

  /** After a wrong closer nothing ever closes. */
  lemma StuckNeverEnds(value: string, start: nat, index: nat, limit: nat)
    requires start < index <= limit <= |value| && !IsQuote(value[start])
    requires NoEnd(value, start, index)
    requires Stack(Skeleton(value[start..index])).None?
    ensures NoEnd(value, start, limit)
  {
    forall e | index < e <= limit ensures !EndsAt(value, start, e) {
      assert value[start..e] == value[start..index] + value[index..e];
      StuckStaysStuck(value[start..index], value[index..e]);
      BalancedIffStackEmpties(Skeleton(value[start..e]));
    }
  }

  lemma ReadOne(value: string, start: nat, index: nat)
    requires start <= index < |value|
    ensures var text, c := value[start..index], value[index];
            && ModeOf(value[start..index + 1]) == Next(ModeOf(text), c)
            && Skeleton(value[start..index + 1]) == (if Counts(text, c) then Skeleton(text) + [c] else Skeleton(text))
  {
    var longer := value[start..index + 1];
    assert longer[..|longer| - 1] == value[start..index] && longer[|longer| - 1] == value[index];
  }

  lemma PushOne(w: string, c: char)
    ensures Stack(w + [c]) == if Stack(w).None? then None else Push(Stack(w).value, c)
  {
    assert (w + [c])[..|w|] == w;
  }

  /** The loop's variables, read as an automaton mode after the text up to `index`. */
  ghost predicate InMode(value: string, start: nat, index: nat, quote: Option<char>, escaped: bool)
    requires start <= index <= |value|
  {
    var mode := ModeOf(value[start..index]);
    match quote
    case Some(q) => IsQuote(q) && mode == if escaped then Escaped(q) else In(q)
    case None => !escaped && (mode == Out || (mode == Half && !Is(value, index, '\'')))
  }

  /** `structuredValueEnd` for an opening quote. */
  method QuotedValueEnd(value: string, start: nat) returns (end: nat)
    requires start < |value| && IsQuote(value[start])
    ensures end == StructuredEnd(value, start)
  {
    var opening := value[start];
    var limit := Budget(value, start);
    var escaped, index := false, start + 1;
    assert value[start..start] == "";
    ReadOne(value, start, start);
    while index < limit
      invariant start < index <= limit
      invariant InMode(value, start, index, Some(opening), escaped)
      invariant NoEnd(value, start, index)
    {
      var character := value[index];
      ReadOne(value, start, index);
      if escaped { escaped := false; }
      else if character == '\\' { escaped := true; }
      else if character == opening {
        if opening == '\'' && Is(value, index + 1, '\'') {
          if index + 1 >= limit {
            StructuredEndUnique(value, start, |value|, StructuredEnd(value, start));
            return |value|;
          }
          ReadOne(value, start, index + 1);
          index := index + 1;
        } else {
          StructuredEndUnique(value, start, index + 1, StructuredEnd(value, start));
          return index + 1;
        }
      }
      index := index + 1;
    }
    StructuredEndUnique(value, start, |value|, StructuredEnd(value, start));
    end := |value|;
  }

  /** The bracket loop stands at `index` with these variables. */
  ghost predicate Scanned(value: string, start: nat, index: nat, closers: string, quote: Option<char>, escaped: bool)
    requires start < |value|
  {
    && start < index <= |value| && IsOpener(value[start])
    && InMode(value, start, index, quote, escaped)
    && closers != "" && Stack(Skeleton(value[start..index])) == Some(closers)
    && NoEnd(value, start, index)
  }

  lemma ScannedStart(value: string, start: nat)
    requires start < |value| && IsOpener(value[start])
    ensures Scanned(value, start, start + 1, [CloserOf(value[start])], None, false)
  {
    assert value[start..start] == "";
    ReadOne(value, start, start);
    PushOne("", value[start]);
    assert Skeleton(value[start..start + 1]) == "" + [value[start]];
    assert "" + [CloserOf(value[start])] == [CloserOf(value[start])];
    assert "" + [value[start]] == [value[start]];
    BalancedIffStackEmpties(Skeleton(value[start..start + 1]));
  }

  /** One character inside quotes never counts and never closes. */
  lemma ScannedInside(value: string, start: nat, index: nat, closers: string, q: char, escaped: bool)
    requires start < |value| && index < |value|
    requires Scanned(value, start, index, closers, Some(q), escaped)
    ensures var c := value[index];
            if escaped then Scanned(value, start, index + 1, closers, Some(q), false)
            else if c == '\\' then Scanned(value, start, index + 1, closers, Some(q), true)
            else if c != q then Scanned(value, start, index + 1, closers, Some(q), false)
            else if q == '\'' && Is(value, index + 1, '\'') then
              NoEnd(value, start, index + 1) && Scanned(value, start, index + 2, closers, Some(q), false)
            else Scanned(value, start, index + 1, closers, None, false)
  {
    ReadOne(value, start, index);
    if index + 1 < |value| { ReadOne(value, start, index + 1); }
  }

  /** One character outside quotes. */
  lemma ScannedOutside(value: string, start: nat, index: nat, closers: string)
    requires start < |value| && index < |value|
    requires Scanned(value, start, index, closers, None, false)
    ensures var c := value[index];
            if IsQuote(c) then Scanned(value, start, index + 1, closers, Some(c), false)
            else if IsOpener(c) then Scanned(value, start, index + 1, closers + [CloserOf(c)], None, false)
            else if !IsCloser(c) then Scanned(value, start, index + 1, closers, None, false)
            else if closers[|closers| - 1] != c then
              NoEnd(value, start, index + 1) && Stack(Skeleton(value[start..index + 1])).None?
            else if |closers| == 1 then EndsAt(value, start, index + 1)
            else Scanned(value, start, index + 1, closers[..|closers| - 1], None, false)
  {
    ReadOne(value, start, index);
    PushOne(Skeleton(value[start..index]), value[index]);
    BalancedIffStackEmpties(Skeleton(value[start..index + 1]));
  }

  /** `structuredValueEnd` for an opening bracket: the stack of expected closers. */
  method BracketedValueEnd(value: string, start: nat) returns (end: nat)
    requires start < |value| && IsOpener(value[start])
    ensures end == StructuredEnd(value, start)
  {
    var limit := Budget(value, start);
    ghost var answer := StructuredEnd(value, start);
    var expectedClosers := [CloserOf(value[start])];
    var quote: Option<char>, escaped, index := None, false, start + 1;
    ScannedStart(value, start);
    while index < limit
      invariant index <= limit && (quote.None? ==> !escaped)
      invariant Scanned(value, start, index, expectedClosers, quote, escaped)
    {
      var character := value[index];
      if quote.Some? {
        ScannedInside(value, start, index, expectedClosers, quote.value, escaped);
        if escaped { escaped := false; }
        else if character == '\\' { escaped := true; }
        else if character == quote.value {
          if quote.value == '\'' && Is(value, index + 1, '\'') {
            if index + 1 >= limit {
              StructuredEndUnique(value, start, |value|, answer);
              return |value|;
            }
            index := index + 1;
          } else { quote := None; }
        }
        index := index + 1;
        continue;
      }
      ScannedOutside(value, start, index, expectedClosers);
      if IsQuote(character) { quote := Some(character); }
      else if IsOpener(character) { expectedClosers := expectedClosers + [CloserOf(character)]; }
      else if IsCloser(character) {
        var top := expectedClosers[|expectedClosers| - 1];
        expectedClosers := expectedClosers[..|expectedClosers| - 1];
        if top != character {
          StuckNeverEnds(value, start, index + 1, limit);
          StructuredEndUnique(value, start, |value|, answer);
          return |value|;
        }
        if |expectedClosers| == 0 {
          StructuredEndUnique(value, start, index + 1, answer);
          return index + 1;
        }
      }
      index := index + 1;
    }
    StructuredEndUnique(value, start, |value|, answer);
    end := |value|;
  }
}
