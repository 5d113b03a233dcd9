/**
 * The statement check of the managed relational runtime.
 *
 * `analyzeSql` walks the text once, in seven modes. The reference works in two phases: first the text is cut into plain
 * characters and gaps (one gap for every quoted run and comment), then the plain characters alone are read as tokens.
 * The walk is proved equal to the reference.
 */
module Sql {
  import opened Text

  // ----- first phase: plain characters and gaps -----

  datatype Mode = Plain | LineComment | BlockComment | Quote(delimiter: char) | Bracket

  datatype Cell = Ch(c: char) | Gap

  datatype Lexed = Lexed(cells: seq<Cell>, terminated: bool)

  /** The region that starts at the front of the text, with the length of its opening. */
  function Opening(s: string): (o: Option<(Mode, nat)>)
    ensures o.Some? ==> o.value.0 != Plain && 1 <= o.value.1 <= |s|
  {
    if At(s, "--", 0) then Some((LineComment, 2))
    else if At(s, "/*", 0) then Some((BlockComment, 2))
    else if s == "" then None
    else if s[0] == '\'' || s[0] == '\"' || s[0] == '`' then Some((Quote(s[0]), 1))
    else if s[0] == '[' then Some((Bracket, 1))
    else None
  }

  /** The length up to the delimiter that closes a quoted run; a doubled delimiter does not close it. */
  function QuoteEnd(s: string, d: char): (n: Option<nat>)
    ensures n.Some? ==> 1 <= n.value <= |s|
  {
    var k := Find(s, d);
    if k == |s| then None
    else if k + 1 < |s| && s[k + 1] == d then
      match QuoteEnd(s[k + 2..], d)
      case None => None
      case Some(n) => Some(k + 2 + n)
    else Some(k + 1)
  }

  /** The length of what is left of a region, with its closing delimiter; None when it is never closed. */
  function RegionEnd(mode: Mode, s: string): (n: Option<nat>)
    requires mode != Plain
    ensures n.Some? ==> 1 <= n.value <= |s|
  {
    match mode
    case LineComment => if Find(s, '\n') < |s| then Some(Find(s, '\n') + 1) else None
    case BlockComment => if IndexOf(s, "*/", 0) >= 0 then Some(IndexOf(s, "*/", 0) + 2) else None
    case Quote(d) => QuoteEnd(s, d)
    case Bracket => if Find(s, ']') < |s| then Some(Find(s, ']') + 1) else None
  }

  /** Text that starts inside the given region. A line comment may end with the text; nothing else may. */
  function Lex(mode: Mode, s: string): Lexed
    decreases |s|, mode != Plain
  {
    if mode != Plain then
      match RegionEnd(mode, s)
      case None => Lexed([], mode == LineComment)
      case Some(n) => Lex(Plain, s[n..])
    else if s == "" then Lexed([], true)
    else
      match Opening(s)
      case Some((region, n)) =>
        var rest := Lex(region, s[n..]);
        Lexed([Gap] + rest.cells, rest.terminated)
      case None =>
        var rest := Lex(Plain, s[1..]);
        Lexed([Ch(s[0])] + rest.cells, rest.terminated)
  }

  // ----- second phase: tokens of the plain characters -----

  datatype Token = Word(text: string) | Param(digits: string) | Semi | Named | Blank | Other

  predicate IsLetter(c: char) { 'A' <= c <= 'Z' || 'a' <= c <= 'z' || c == '_' }

  predicate IsSigil(c: char) { c == ':' || c == '@' || c == '$' }

  predicate LetterCell(cell: Cell) { cell.Ch? && IsLetter(cell.c) }

  predicate DigitCell(cell: Cell) { cell.Ch? && IsDigit(cell.c) }

  /** The characters at the front of the cells, as long as they satisfy the predicate. */
  function Run(cells: seq<Cell>, p: char -> bool): (s: string)
    ensures |s| <= |cells| && forall k :: 0 <= k < |s| ==> p(s[k]) && cells[k] == Ch(s[k])
    ensures |s| < |cells| ==> !(cells[|s|].Ch? && p(cells[|s|].c))
  {
    if cells == [] || cells[0].Gap? || !p(cells[0].c) then "" else [cells[0].c] + Run(cells[1..], p)
  }

  function Tokens(cells: seq<Cell>): seq<Token>
    decreases |cells|
  {
    if cells == [] then []
    else if cells[0].Gap? then [Blank] + Tokens(cells[1..])
    else
      var c := cells[0].c;
      if IsLetter(c) then
        var word := Run(cells, IsLetter);
        [Word(word)] + Tokens(cells[|word|..])
      else if c == '?' then
        var digits := Run(cells[1..], IsDigit);
        [Param(digits)] + Tokens(cells[1 + |digits|..])
      else [Sign(c, |cells| > 1 && LetterCell(cells[1]))] + Tokens(cells[1..])
  }

  /** A single character that starts neither a word nor a parameter. */
  function Sign(c: char, beforeLetter: bool): Token {
    if c == ';' then Semi else if IsWhitespace(c) then Blank else if IsSigil(c) && beforeLetter then Named else Other
  }

  // ----- what the reference says -----

  const MAX_PARAMETERS := 100

  predicate GoodNumber(digits: string) { IsDigits(digits) && 1 <= DecimalValue(digits) <= MAX_PARAMETERS }

  /** The tokens before the first semicolon. */
  function Before(ts: seq<Token>): seq<Token> { if ts == [] || ts[0] == Semi then [] else [ts[0]] + Before(ts[1..]) }

  /** The tokens after the first semicolon. */
  function After(ts: seq<Token>): seq<Token> {
    if ts == [] then [] else if ts[0] == Semi then ts[1..] else After(ts[1..])
  }

  function Max(a: nat, b: nat): nat { if a < b then b else a }

  /** A bare `?` takes the number after the largest so far, `?N` takes N; bad numbers take none. */
  function Largest(ts: seq<Token>, so: nat): nat
    decreases |ts|
  {
    if ts == [] then so
    else if !ts[0].Param? then Largest(ts[1..], so)
    else if ts[0].digits == "" then Largest(ts[1..], so + 1)
    else if GoodNumber(ts[0].digits) then Largest(ts[1..], Max(so, DecimalValue(ts[0].digits)))
    else Largest(ts[1..], so)
  }

  predicate FirstPart(t: Token) { t != Named && (t.Param? && t.digits != "" ==> GoodNumber(t.digits)) }

  function UpperChar(c: char): char { if 'a' <= c <= 'z' then ((c as int) - 32) as char else c }

  function Upper(s: string): string { seq(|s|, k requires 0 <= k < |s| => UpperChar(s[k])) }

  function FirstWord(ts: seq<Token>): string {
    if ts == [] then "" else if ts[0].Word? && ts[0].text != "" then Upper(ts[0].text) else FirstWord(ts[1..])
  }

  datatype Analysis = Analysis(single: bool, firstWord: string, parameterCount: nat)

  ghost predicate Sound(ts: seq<Token>) { forall t :: t in ts ==> FirstPart(t) }

  ghost predicate OnlyBlank(ts: seq<Token>) { forall t :: t in ts ==> t == Blank }

  ghost predicate Single(lexed: Lexed) {
    var ts := Tokens(lexed.cells);
    && lexed.terminated
    && Sound(Before(ts))
    && OnlyBlank(After(ts))
  }

  ghost function Reference(sql: string): Analysis {
    var lexed := Lex(Plain, sql);
    var ts := Tokens(lexed.cells);
    Analysis(Single(lexed), FirstWord(ts), Largest(Before(ts), 0))
  }

  // ----- the same, read token by token -----

  datatype Machine = Machine(firstWord: string, largest: nat, ended: bool, single: bool)

  const START := Machine("", 0, false, true)

  function Finish(m: Machine, word: string): Machine {
    if m.firstWord == "" && word != "" then m.(firstWord := Upper(word)) else m
  }

  function Spoil(m: Machine): Machine { m.(single := m.single && !m.ended) }

  function Step(m: Machine, t: Token): Machine {
    match t
    case Blank => m
    case Word(w) => Spoil(Finish(m, w))
    case Semi => Spoil(m).(ended := true)
    case Other => Spoil(m)
    case Named => m.(single := false)
    case Param(d) =>
      if m.ended then m.(single := false)
      else if d == "" then m.(largest := m.largest + 1)
      else if GoodNumber(d) then m.(largest := Max(m.largest, DecimalValue(d)))
      else m.(single := false)
  }

  function Steps(m: Machine, ts: seq<Token>): Machine
    decreases |ts|
  {
    if ts == [] then m else Steps(Step(m, ts[0]), ts[1..])
  }

  lemma SoundEmpty()
    ensures Sound([]) && OnlyBlank([])
  {
  }

  lemma FrontFirst(ts: seq<Token>)
    requires ts != []
    ensures OnlyBlank(ts) <==> ts[0] == Blank && OnlyBlank(ts[1..])
    ensures Sound(ts) <==> FirstPart(ts[0]) && Sound(ts[1..])
  {
    hide FirstPart;
    assert ts[0] in ts;
    assert forall t :: t in ts <==> t == ts[0] || t in ts[1..];
  }

  lemma {:induction false} StepsAfter(m: Machine, ts: seq<Token>)
    requires m.ended
    ensures Steps(m, ts).single <==> m.single && OnlyBlank(ts)
    ensures Steps(m, ts).largest == m.largest
    ensures Steps(m, ts).firstWord == if m.firstWord != "" then m.firstWord else FirstWord(ts)
    decreases |ts|
  {
    hide GoodNumber, Sound, OnlyBlank;
    SoundEmpty();
    if ts != [] {
      FrontFirst(ts);
      StepsAfter(Step(m, ts[0]), ts[1..]);
    }
  }

  lemma {:induction false} StepsBefore(m: Machine, ts: seq<Token>)
    requires !m.ended
    ensures Steps(m, ts).single <==> m.single && Sound(Before(ts)) && OnlyBlank(After(ts))
    ensures Steps(m, ts).largest == Largest(Before(ts), m.largest)
    ensures Steps(m, ts).firstWord == if m.firstWord != "" then m.firstWord else FirstWord(ts)
    decreases |ts|
  {
    hide GoodNumber, Sound, OnlyBlank;
    SoundEmpty();
    if ts != [] {
      if ts[0] == Semi {
        StepsAfter(Step(m, Semi), ts[1..]);
      } else {
        assert Before(ts)[1..] == Before(ts[1..]);
        FrontFirst(Before(ts));
        StepsBefore(Step(m, ts[0]), ts[1..]);
      }
    }
  }

  /** The reference is what the token machine computes. */
  lemma ReferenceSteps(sql: string)
    ensures var lexed := Lex(Plain, sql);
            var m := Steps(START, Tokens(lexed.cells));
            Reference(sql) == Analysis(m.single && lexed.terminated, m.firstWord, m.largest)
  {
    hide Lex, Tokens, Before, After, Sound, OnlyBlank, Steps;
    StepsBefore(START, Tokens(Lex(Plain, sql).cells));
  }

  // ----- one character at a time -----

  lemma FindTail(s: string, c: char)
    requires s != ""
    ensures Find(s, c) == if s[0] == c then 0 else Find(s[1..], c) + 1
  {
  }

  lemma LexLine(s: string)
    requires s != ""
    ensures Lex(LineComment, s) == Lex(if s[0] == '\n' then Plain else LineComment, s[1..])
  {
    hide Find, Opening;
    FindTail(s, '\n');
    if s[0] != '\n' {
      hide Lex;
      LexWithin(LineComment, s, 1);
    }
  }

  lemma LexBracket(s: string)
    requires s != ""
    ensures Lex(Bracket, s) == Lex(if s[0] == ']' then Plain else Bracket, s[1..])
  {
    hide Find, Opening;
    FindTail(s, ']');
    if s[0] != ']' {
      hide Lex;
      LexWithin(Bracket, s, 1);
    }
  }

  lemma QuoteTail(s: string, d: char)
    requires s != "" && s[0] != d
    ensures QuoteEnd(s, d) == match QuoteEnd(s[1..], d) case None => None case Some(n) => Some(n + 1)
  {
    hide Find;
    FindTail(s, d);
    var k := Find(s[1..], d);
    if k + 1 < |s[1..]| { assert s[1..][k + 2..] == s[k + 3..]; }
  }

  lemma QuoteDoubled(s: string, d: char)
    requires |s| > 1 && s[0] == d && s[1] == d
    ensures QuoteEnd(s, d) == match QuoteEnd(s[2..], d) case None => None case Some(n) => Some(n + 2)
  {
    hide Find;
    FindTail(s, d);
  }

  /** Text that only lengthens a region changes nothing. */
  lemma LexWithin(mode: Mode, s: string, n: nat)
    requires mode != Plain && n <= |s|
    requires RegionEnd(mode, s) == match RegionEnd(mode, s[n..]) case None => None case Some(e) => Some(e + n)
    ensures Lex(mode, s) == Lex(mode, s[n..])
  {
    hide RegionEnd, Opening;
    var e := RegionEnd(mode, s[n..]);
    if e.Some? { assert s[n..][e.value..] == s[n + e.value..]; }
  }

  lemma LexQuote(s: string, d: char)
    requires s != ""
    ensures Lex(Quote(d), s) == if s[0] != d then Lex(Quote(d), s[1..])
                                else if |s| > 1 && s[1] == d then Lex(Quote(d), s[2..]) else Lex(Plain, s[1..])
  {
    hide Find, Opening;
    if s[0] != d {
      hide Lex, QuoteEnd;
      QuoteTail(s, d);
      LexWithin(Quote(d), s, 1);
    } else if |s| > 1 && s[1] == d {
      hide Lex, QuoteEnd;
      QuoteDoubled(s, d);
      LexWithin(Quote(d), s, 2);
    } else {
      FindTail(s, d);
    }
  }

  lemma StarSlashTail(s: string)
    requires s != "" && !At(s, "*/", 0)
    ensures IndexOf(s, "*/", 0) < 0 <==> IndexOf(s[1..], "*/", 0) < 0
    ensures IndexOf(s, "*/", 0) >= 0 ==> IndexOf(s, "*/", 0) == IndexOf(s[1..], "*/", 0) + 1
  {
    hide IndexOf;
    var a, b := IndexOf(s, "*/", 0), IndexOf(s[1..], "*/", 0);
    forall k | 0 <= k ensures At(s[1..], "*/", k) <==> At(s, "*/", k + 1) {
      if k + 2 <= |s[1..]| { assert s[1..][k..k + 2] == s[k + 1..k + 3]; }
    }
    if a >= 1 { assert At(s[1..], "*/", a - 1); }
    if b >= 0 { assert At(s, "*/", b + 1); }
  }

  lemma LexBlock(s: string)
    requires s != ""
    ensures Lex(BlockComment, s) == if At(s, "*/", 0) then Lex(Plain, s[2..]) else Lex(BlockComment, s[1..])
  {
    hide Opening;
    if At(s, "*/", 0) {
      hide IndexOf;
      assert IndexOf(s, "*/", 0) == 0;
    } else {
      hide Lex, IndexOf;
      StarSlashTail(s);
      LexWithin(BlockComment, s, 1);
    }
  }

  lemma LexEnd(mode: Mode)
    ensures Lex(mode, "") == Lexed([], mode == Plain || mode == LineComment)
  {
  }

  lemma LexOpening(s: string)
    requires s != "" && Opening(s).Some?
    ensures var rest := Lex(Opening(s).value.0, s[Opening(s).value.1..]);
            Lex(Plain, s) == Lexed([Gap] + rest.cells, rest.terminated)
  {
  }

  lemma LexPlain(s: string)
    requires s != "" && Opening(s).None?
    ensures Lex(Plain, s) == Lexed([Ch(s[0])] + Lex(Plain, s[1..]).cells, Lex(Plain, s[1..]).terminated)
  {
  }

  function Chars(s: string): (cells: seq<Cell>)
    ensures |cells| == |s| && forall k :: 0 <= k < |s| ==> cells[k] == Ch(s[k])
  {
    seq(|s|, k requires 0 <= k < |s| => Ch(s[k]))
  }

  predicate AllDigits(s: string) { forall k :: 0 <= k < |s| ==> IsDigit(s[k]) }

  lemma {:induction false} LexDigits(digits: string, rest: string)
    requires AllDigits(digits)
    ensures Lex(Plain, digits + rest) == Lexed(Chars(digits) + Lex(Plain, rest).cells, Lex(Plain, rest).terminated)
  {
    hide Lex, Opening, IsDigit;
    if digits == "" {
      assert digits + rest == rest;
    } else {
      LexDigits(digits[1..], rest);
      var s := digits + rest;
      assert s[1..] == digits[1..] + rest && s[0] == digits[0];
      OrdinaryOpensNothing(s);
      LexPlain(s);
      assert Chars(digits) == [Ch(digits[0])] + Chars(digits[1..]);
    }
  }

  // ----- pending words -----

  ghost predicate AllLetters(word: string) { forall k :: 0 <= k < |word| ==> IsLetter(word[k]) }

  /** What the tokens give from a machine that holds an unfinished word. */
  ghost function Rest(m: Machine, word: string, cells: seq<Cell>): Machine { Steps(m, Tokens(Chars(word) + cells)) }

  lemma {:induction false} RunOf(word: string, cells: seq<Cell>, p: char -> bool)
    requires forall k :: 0 <= k < |word| ==> p(word[k])
    requires cells == [] || !(cells[0].Ch? && p(cells[0].c))
    ensures Run(Chars(word) + cells, p) == word
  {
    var all := Chars(word) + cells;
    if word == "" {
      assert all == cells;
    } else {
      RunOf(word[1..], cells, p);
      assert all[0] == Ch(word[0]) && all[1..] == Chars(word[1..]) + cells;
    }
  }

  /** A word ends where the next cell is not a letter. */
  lemma RestFinish(m: Machine, word: string, cells: seq<Cell>)
    requires AllLetters(word) && (cells == [] || !LetterCell(cells[0]))
    requires word != "" && m.ended ==> !m.single
    ensures Rest(m, word, cells) == Steps(Finish(m, word), Tokens(cells))
  {
    if word == "" {
      assert Chars(word) + cells == cells;
    } else {
      RunOf(word, cells, IsLetter);
      var all := Chars(word) + cells;
      assert all[0] == Ch(word[0]);
      assert all[|word|..] == cells;
      assert Tokens(all) == [Word(word)] + Tokens(cells);
      assert ([Word(word)] + Tokens(cells))[1..] == Tokens(cells);
      assert Step(m, Word(word)) == Finish(m, word);
    }
  }

  lemma RestLetter(m: Machine, word: string, c: char, cells: seq<Cell>)
    requires AllLetters(word) && IsLetter(c)
    ensures Rest(m, word, [Ch(c)] + cells) == Rest(Spoil(m), word + [c], cells)
  {
    var all := Chars(word + [c]) + cells;
    assert Chars(word) + ([Ch(c)] + cells) == all;
    assert all[0] == Ch((word + [c])[0]);
    var w := Run(all, IsLetter);
    assert Tokens(all) == [Word(w)] + Tokens(all[|w|..]);
    assert Step(m, Word(w)) == Step(Spoil(m), Word(w));
  }

  lemma StepsCons(m: Machine, t: Token, ts: seq<Token>)
    ensures Steps(m, [t] + ts) == Steps(Step(m, t), ts)
  {
    assert ([t] + ts)[1..] == ts;
  }

  lemma StepsGap(m: Machine, cells: seq<Cell>)
    ensures Steps(m, Tokens([Gap] + cells)) == Steps(m, Tokens(cells))
  {
    hide Steps;
    assert ([Gap] + cells)[1..] == cells;
    StepsCons(m, Blank, Tokens(cells));
  }

  lemma StepsSign(m: Machine, c: char, cells: seq<Cell>)
    requires !IsLetter(c) && c != '?'
    ensures Steps(m, Tokens([Ch(c)] + cells))
            == Steps(Step(m, Sign(c, cells != [] && LetterCell(cells[0]))), Tokens(cells))
  {
    hide Steps, Step, Sign;
    var all := [Ch(c)] + cells;
    assert all[1..] == cells;
    var t := Sign(c, cells != [] && LetterCell(cells[0]));
    assert all[0].c == c && (|all| > 1 ==> all[1] == cells[0]);
    assert Tokens(all) == [t] + Tokens(cells);
    StepsCons(m, t, Tokens(cells));
  }

  lemma StepsParam(m: Machine, digits: string, cells: seq<Cell>)
    requires AllDigits(digits)
    requires cells == [] || !DigitCell(cells[0])
    ensures Steps(m, Tokens([Ch('?')] + (Chars(digits) + cells))) == Steps(Step(m, Param(digits)), Tokens(cells))
  {
    hide Steps, Step, Run;
    var all := [Ch('?')] + (Chars(digits) + cells);
    assert all[1..] == Chars(digits) + cells;
    RunOf(digits, cells, IsDigit);
    assert all[1 + |digits|..] == cells;
    assert Tokens(all) == [Param(digits)] + Tokens(cells);
    StepsCons(m, Param(digits), Tokens(cells));
  }

  /** After a semicolon a parameter only spoils the statement, and so does every character of it. */
  lemma {:induction false} SpoiledDigits(m: Machine, cells: seq<Cell>, n: nat)
    requires m.ended && !m.single && n <= |cells| && forall k :: 0 <= k < n ==> DigitCell(cells[k])
    ensures Steps(m, Tokens(cells)) == Steps(m, Tokens(cells[n..]))
  {
    hide Steps, Tokens;
    if n > 0 {
      assert cells == [cells[0]] + cells[1..];
      StepsSign(m, cells[0].c, cells[1..]);
      assert IsDigit(cells[0].c);
      SpoiledDigits(m, cells[1..], n - 1);
      assert cells[1..][n - 1..] == cells[n..];
    }
  }

  lemma StepsSpoiledParam(m: Machine, cells: seq<Cell>)
    requires m.ended
    ensures Steps(m, Tokens([Ch('?')] + cells)) == Steps(m.(single := false), Tokens(cells))
  {
    hide Steps;
    var all := [Ch('?')] + cells;
    assert all[1..] == cells;
    var digits := Run(cells, IsDigit);
    assert all[1 + |digits|..] == cells[|digits|..];
    assert Tokens(all) == [Param(digits)] + Tokens(cells[|digits|..]);
    StepsCons(m, Param(digits), Tokens(cells[|digits|..]));
    SpoiledDigits(m.(single := false), cells, |digits|);
  }

  // ----- the walk -----

  /** The digits that follow `from`. */
  method TakeDigits(sql: string, from: nat) returns (digits: string, next: nat)
    requires from <= |sql|
    ensures from <= next <= |sql| && digits == sql[from..next] && (next < |sql| ==> !IsDigit(sql[next]))
    ensures AllDigits(digits)
  {
    digits, next := "", from;
    while next < |sql| && IsDigit(sql[next])
      invariant from <= next <= |sql| && digits == sql[from..next]
      invariant AllDigits(digits)
    {
      digits := digits + [sql[next]];
      next := next + 1;
    }
  }

  /** The state of the walk stands for the same final result as the start of the text. */
  ghost predicate OnTrack(sql: string, index: nat, mode: Mode, m: Machine, word: string)
    requires index <= |sql|
  {
    var whole, left := Lex(Plain, sql), Lex(mode, sql[index..]);
    && left.terminated == whole.terminated
    && Rest(m, word, left.cells) == Steps(START, Tokens(whole.cells))
    && AllLetters(word) && (mode != Plain ==> word == "") && (word != "" && m.ended ==> !m.single)
  }

  lemma TrackStart(sql: string)
    ensures OnTrack(sql, 0, Plain, START, "")
  {
    hide Lex, Steps, Tokens;
    assert sql[0..] == sql;
    assert Chars("") + Lex(Plain, sql).cells == Lex(Plain, sql).cells;
  }

  lemma RestEmpty(m: Machine, cells: seq<Cell>)
    ensures Rest(m, "", cells) == Steps(m, Tokens(cells))
  {
    assert Chars("") + cells == cells;
  }

  lemma TrackEnd(sql: string, mode: Mode, m: Machine, word: string)
    requires OnTrack(sql, |sql|, mode, m, word)
    ensures Steps(START, Tokens(Lex(Plain, sql).cells)) == Finish(m, word)
    ensures Lex(Plain, sql).terminated == (mode == Plain || mode == LineComment)
  {
    hide Lex, Rest;
    assert sql[|sql|..] == "";
    LexEnd(mode);
    RestFinish(m, word, []);
  }

  /** One character inside a comment, a quoted run or brackets. */
  function InsideStep(mode: Mode, c: char, next: Option<char>): (Mode, nat) {
    match mode
    case Plain => (Plain, 1)
    case LineComment => (if c == '\n' then Plain else mode, 1)
    case BlockComment => if c == '*' && next == Some('/') then (Plain, 2) else (mode, 1)
    case Quote(d) => if c != d then (mode, 1) else if next == Some(d) then (mode, 2) else (Plain, 1)
    case Bracket => (if c == ']' then Plain else mode, 1)
  }

  function Next(sql: string, index: nat): Option<char> { if index + 1 < |sql| then Some(sql[index + 1]) else None }

  lemma TrackInside(sql: string, index: nat, mode: Mode, m: Machine)
    requires index < |sql| && mode != Plain && OnTrack(sql, index, mode, m, "")
    ensures var (then', n) := InsideStep(mode, sql[index], Next(sql, index));
            index + n <= |sql| && OnTrack(sql, index + n, then', m, "")
  {
    hide Lex, Rest, Steps, Tokens;
    var s := sql[index..];
    var (then', n) := InsideStep(mode, sql[index], Next(sql, index));
    assert s[0] == sql[index] && (|s| > 1 ==> s[1] == sql[index + 1]);
    assert s[n..] == sql[index + n..];
    assert mode == BlockComment ==> (At(s, "*/", 0) <==> n == 2) by {
      if |s| > 1 { assert s[0..2] == [s[0], s[1]]; }
    }
    match mode
    case LineComment => LexLine(s);
    case BlockComment => LexBlock(s);
    case Quote(d) => LexQuote(s, d);
    case Bracket => LexBracket(s);
  }

  lemma TrackOpening(sql: string, index: nat, m: Machine, word: string)
    requires index < |sql| && OnTrack(sql, index, Plain, m, word) && Opening(sql[index..]).Some?
    ensures var (region, n) := Opening(sql[index..]).value;
            index + n <= |sql| && OnTrack(sql, index + n, region, Finish(m, word), "")
  {
    hide Lex, Rest, Steps, Tokens, Opening;
    var s := sql[index..];
    var (region, n) := Opening(s).value;
    LexOpening(s);
    assert s[n..] == sql[index + n..];
    var cells := Lex(region, s[n..]).cells;
    RestFinish(m, word, [Gap] + cells);
    StepsGap(Finish(m, word), cells);
    RestEmpty(Finish(m, word), cells);
  }

  lemma TrackLetter(sql: string, index: nat, m: Machine, word: string)
    requires index < |sql| && OnTrack(sql, index, Plain, m, word) && Opening(sql[index..]).None? && IsLetter(sql[index])
    ensures OnTrack(sql, index + 1, Plain, Spoil(m), word + [sql[index]])
  {
    hide Lex, Rest, Steps, Tokens, Opening;
    var s := sql[index..];
    LexPlain(s);
    assert s[1..] == sql[index + 1..];
    RestLetter(m, word, sql[index], Lex(Plain, s[1..]).cells);
  }

  /** The front of the plain cells is a letter exactly when the text goes on with one. */
  lemma FrontLetter(s: string)
    ensures var cells := Lex(Plain, s).cells;
            (cells != [] && LetterCell(cells[0])) <==> (s != "" && IsLetter(s[0]))
    ensures var cells := Lex(Plain, s).cells;
            (cells != [] && DigitCell(cells[0])) <==> (s != "" && IsDigit(s[0]))
  {
    if s != "" && Opening(s).Some? {
      LexOpening(s);
      assert s[0] == '-' || s[0] == '/' || s[0] == '\'' || s[0] == '\"' || s[0] == '`' || s[0] == '[';
    } else if s != "" {
      LexPlain(s);
    }
  }

  lemma TrackSign(sql: string, index: nat, m: Machine, word: string)
    requires index < |sql| && OnTrack(sql, index, Plain, m, word) && Opening(sql[index..]).None?
    requires !IsLetter(sql[index]) && sql[index] != '?'
    ensures var next := Next(sql, index);
            var t := Sign(sql[index], next.Some? && IsLetter(next.value));
            OnTrack(sql, index + 1, Plain, Step(Finish(m, word), t), "")
  {
    hide Lex, Rest, Steps, Tokens, Opening, Step, Sign, Finish;
    var s := sql[index..];
    LexPlain(s);
    assert s[1..] == sql[index + 1..];
    var cells := Lex(Plain, s[1..]).cells;
    FrontLetter(s[1..]);
    assert (s[1..] != "" && IsLetter(s[1..][0])) <==> (Next(sql, index).Some? && IsLetter(Next(sql, index).value));
    RestFinish(m, word, [Ch(s[0])] + cells);
    StepsSign(Finish(m, word), s[0], cells);
    RestEmpty(Step(Finish(m, word), Sign(s[0], cells != [] && LetterCell(cells[0]))), cells);
  }

  lemma TrackParam(sql: string, index: nat, m: Machine, word: string, next: nat)
    requires index < |sql| && OnTrack(sql, index, Plain, m, word) && sql[index] == '?' && !m.ended
    requires index < next <= |sql| && (next < |sql| ==> !IsDigit(sql[next]))
    requires AllDigits(sql[index + 1..next])
    ensures OnTrack(sql, next, Plain, Step(Finish(m, word), Param(sql[index + 1..next])), "")
  {
    hide Lex, Rest, Steps, Tokens, Step, Finish, IsDigit;
    var s, digits, tail := sql[index..], sql[index + 1..next], sql[next..];
    OrdinaryOpensNothing(s);
    LexPlain(s);
    assert s[1..] == digits + tail;
    LexDigits(digits, tail);
    FrontLetter(tail);
    var cells := Lex(Plain, tail).cells;
    RestFinish(m, word, [Ch('?')] + (Chars(digits) + cells));
    StepsParam(Finish(m, word), digits, cells);
    RestEmpty(Step(Finish(m, word), Param(digits)), cells);
  }

  lemma OrdinaryOpensNothing(s: string)
    requires s != "" && (s[0] == '?' || IsDigit(s[0]))
    ensures Opening(s).None?
  {
  }

  lemma TrackSpoiledParam(sql: string, index: nat, m: Machine, word: string)
    requires index < |sql| && OnTrack(sql, index, Plain, m, word) && sql[index] == '?' && m.ended
    ensures OnTrack(sql, index + 1, Plain, Finish(m, word).(single := false), "")
  {
    hide Lex, Rest, Steps, Tokens;
    var s := sql[index..];
    OrdinaryOpensNothing(s);
    LexPlain(s);
    assert s[1..] == sql[index + 1..];
    var cells := Lex(Plain, s[1..]).cells;
    RestFinish(m, word, [Ch('?')] + cells);
    StepsSpoiledParam(Finish(m, word), cells);
    RestEmpty(Finish(m, word).(single := false), cells);
  }

  /** `finishWord`. */
  method FinishWord(firstWord: string, currentWord: string) returns (first: string)
    ensures first == if firstWord == "" && currentWord != "" then Upper(currentWord) else firstWord
  {
    first := firstWord;
    if firstWord == "" && currentWord != "" { first := Upper(currentWord); }
  }

  /** `analyzeSql`. */
  method AnalyzeSql(sql: string) returns (single: bool, firstWord: string, parameterCount: nat)
    ensures Analysis(single, firstWord, parameterCount) == Reference(sql)
  {
    hide *;
    var mode, currentWord, statementEnded, index := Plain, "", false, 0;
    single, firstWord, parameterCount := true, "", 0;
    TrackStart(sql);
    StartIs();
    while index < |sql|
      invariant index <= |sql|
      invariant OnTrack(sql, index, mode, Machine(firstWord, parameterCount, statementEnded, single), currentWord)
      invariant mode != Plain ==> currentWord == ""
      decreases |sql| - index
    {
      ghost var m := Machine(firstWord, parameterCount, statementEnded, single);
      var c := sql[index];
      if mode != Plain {
        TrackInside(sql, index, mode, m);
        var (then', n) := InsideStep(mode, c, Next(sql, index));
        InsideAdvances(mode, c, Next(sql, index));
        mode, index := then', index + n;
      } else if Opening(sql[index..]).Some? {
        TrackOpening(sql, index, m, currentWord);
        FinishIs(m, currentWord);
        var (region, n) := Opening(sql[index..]).value;
        firstWord := FinishWord(firstWord, currentWord);
        currentWord, mode, index := "", region, index + n;
      } else if IsLetter(c) {
        TrackLetter(sql, index, m, currentWord);
        SpoilIs(m);
        if statementEnded { single := false; }
        currentWord, index := currentWord + [c], index + 1;
      } else {
        FinishIs(m, currentWord);
        firstWord := FinishWord(firstWord, currentWord);
        ghost var f := Machine(firstWord, parameterCount, statementEnded, single);
        if c == '?' && !statementEnded {
          var digits, next := TakeDigits(sql, index + 1);
          TrackParam(sql, index, m, currentWord, next);
          ParamIs(f, digits);
          if digits == "" {
            parameterCount := parameterCount + 1;
          } else if GoodNumber(digits) {
            parameterCount := Max(parameterCount, DecimalValue(digits));
          } else {
            single := false;
          }
          index := next;
        } else if c == '?' {
          TrackSpoiledParam(sql, index, m, currentWord);
          single := false;
          index := index + 1;
        } else {
          TrackSign(sql, index, m, currentWord);
          SignIs(f, c, Next(sql, index).Some? && IsLetter(Next(sql, index).value));
          if c == ';' {
            if statementEnded { single := false; }
            statementEnded := true;
          } else {
            if statementEnded && !IsWhitespace(c) { single := false; }
            if IsSigil(c) && Next(sql, index).Some? && IsLetter(Next(sql, index).value) { single := false; }
          }
          index := index + 1;
        }
        currentWord := "";
      }
    }
    ghost var m := Machine(firstWord, parameterCount, statementEnded, single);
    TrackEnd(sql, mode, m, currentWord);
    FinishIs(m, currentWord);
    ReferenceSteps(sql);
    firstWord := FinishWord(firstWord, currentWord);
    if mode != Plain && mode != LineComment { single := false; }
  }

  lemma StartIs()
    ensures START == Machine("", 0, false, true)
  {
  }

  lemma InsideAdvances(mode: Mode, c: char, next: Option<char>)
    ensures InsideStep(mode, c, next).1 > 0
  {
  }

  lemma FinishIs(m: Machine, word: string)
    ensures Finish(m, word) ==
              Machine(if m.firstWord == "" && word != "" then Upper(word) else m.firstWord,
                      m.largest, m.ended, m.single)
  {
  }

  lemma SpoilIs(m: Machine)
    ensures Spoil(m) == Machine(m.firstWord, m.largest, m.ended, m.single && !m.ended)
  {
  }

  lemma ParamIs(m: Machine, digits: string)
    requires !m.ended && AllDigits(digits)
    ensures Step(m, Param(digits)) ==
              if digits == "" then m.(largest := m.largest + 1)
              else if GoodNumber(digits) then m.(largest := Max(m.largest, DecimalValue(digits)))
              else m.(single := false)
  {
  }

  lemma SignIs(m: Machine, c: char, beforeLetter: bool)
    ensures Step(m, Sign(c, beforeLetter)) ==
              if c == ';' then Machine(m.firstWord, m.largest, true, m.single && !m.ended)
              else m.(single := m.single && (m.ended ==> IsWhitespace(c)) && !(IsSigil(c) && beforeLetter))
  {
  }

  // ----- what an accepted statement looks like -----

  function Semicolons(cells: seq<Cell>): nat {
    if cells == [] then 0 else (if cells[0] == Ch(';') then 1 else 0) + Semicolons(cells[1..])
  }

  function Semis(ts: seq<Token>): nat { if ts == [] then 0 else (if ts[0] == Semi then 1 else 0) + Semis(ts[1..]) }

  lemma {:induction false} SemicolonsSkip(cells: seq<Cell>, n: nat)
    requires n <= |cells| && forall k :: 0 <= k < n ==> cells[k] != Ch(';')
    ensures Semicolons(cells[n..]) == Semicolons(cells)
  {
    if n > 0 {
      SemicolonsSkip(cells[1..], n - 1);
      assert cells[1..][n - 1..] == cells[n..];
    } else {
      assert cells[0..] == cells;
    }
  }

  /** Every semicolon of the plain text is a token of its own. */
  lemma {:induction false} SemisAreSemicolons(cells: seq<Cell>)
    ensures Semis(Tokens(cells)) == Semicolons(cells)
    decreases |cells|
  {
    if cells != [] {
      var ts := Tokens(cells);
      if cells[0].Gap? {
        SemisAreSemicolons(cells[1..]);
        assert ts[1..] == Tokens(cells[1..]);
      } else if IsLetter(cells[0].c) {
        var n := |Run(cells, IsLetter)|;
        SemisAreSemicolons(cells[n..]);
        SemicolonsSkip(cells, n);
        assert ts[1..] == Tokens(cells[n..]);
      } else if cells[0].c == '?' {
        var n := 1 + |Run(cells[1..], IsDigit)|;
        forall k | 0 <= k < n ensures cells[k] != Ch(';') {
          if k > 0 { assert cells[k] == cells[1..][k - 1]; }
        }
        SemisAreSemicolons(cells[n..]);
        SemicolonsSkip(cells, n);
        assert ts[1..] == Tokens(cells[n..]);
      } else {
        SemisAreSemicolons(cells[1..]);
        assert ts[1..] == Tokens(cells[1..]);
      }
    }
  }

  lemma {:induction false} BlanksHaveNoSemi(ts: seq<Token>)
    requires OnlyBlank(ts)
    ensures Semis(ts) == 0
  {
    if ts != [] {
      FrontFirst(ts);
      BlanksHaveNoSemi(ts[1..]);
    }
  }

  lemma {:induction false} SemisAround(ts: seq<Token>)
    ensures Semis(ts) <= 1 + Semis(After(ts)) && (Semis(ts) == 0 ==> After(ts) == [])
  {
    if ts != [] && ts[0] != Semi { SemisAround(ts[1..]); }
  }

  /** A single statement has at most one semicolon outside quotes and comments. */
  lemma SingleHasOneSemicolon(sql: string)
    requires Reference(sql).single
    ensures Semicolons(Lex(Plain, sql).cells) <= 1
  {
    hide Lex, Tokens, After, Before, Semis, Semicolons;
    var cells := Lex(Plain, sql).cells;
    SemisAreSemicolons(cells);
    SemisAround(Tokens(cells));
    BlanksHaveNoSemi(After(Tokens(cells)));
  }

  /** The numbers that the parameters take, in order. */
  function Numbers(ts: seq<Token>, so: nat): seq<nat>
    decreases |ts|
  {
    if ts == [] then []
    else if !ts[0].Param? then Numbers(ts[1..], so)
    else if ts[0].digits == "" then [so + 1] + Numbers(ts[1..], so + 1)
    else if GoodNumber(ts[0].digits)
      then [DecimalValue(ts[0].digits)] + Numbers(ts[1..], Max(so, DecimalValue(ts[0].digits)))
    else Numbers(ts[1..], so)
  }

  /** The count is the largest number taken: every parameter has a value, and the last value has a parameter. */
  lemma {:induction false} LargestCoversNumbers(ts: seq<Token>, so: nat)
    ensures so <= Largest(ts, so)
    ensures forall n :: n in Numbers(ts, so) ==> 1 <= n <= Largest(ts, so)
    ensures Largest(ts, so) != so ==> Largest(ts, so) in Numbers(ts, so)
    decreases |ts|
  {
    if ts != [] {
      LargestCoversNumbers(ts[1..], so);
      if ts[0].Param? && ts[0].digits == "" {
        LargestCoversNumbers(ts[1..], so + 1);
      } else if ts[0].Param? && GoodNumber(ts[0].digits) {
        LargestCoversNumbers(ts[1..], Max(so, DecimalValue(ts[0].digits)));
      }
    }
  }

  // ----- statements -----

  datatype Parameter = NullValue | TextValue(text: string) | FiniteNumber | OtherValue

  datatype Verdict = Accepted | StatementInvalid | DdlRequiresMigration | ParameterCountInvalid | ParameterInvalid

  const MAX_STATEMENT_BYTES := 64 * 1024
  const MAX_STRING_BYTES := 1024 * 1024

  const RUNTIME_WORDS := ["SELECT", "INSERT", "UPDATE", "DELETE", "REPLACE", "WITH"]
  const DDL_WORDS := ["CREATE", "ALTER", "DROP", "PRAGMA", "VACUUM", "ATTACH", "DETACH", "REINDEX", "ANALYZE", "BEGIN",
                      "COMMIT", "ROLLBACK", "SAVEPOINT", "RELEASE", "END"]
  const METHODS := ["run", "all", "get", "values"]

  predicate GoodParameter(bytes: string -> nat, p: Parameter) {
    match p
    case NullValue => true
    case TextValue(text) => bytes(text) <= MAX_STRING_BYTES
    case FiniteNumber => true
    case OtherValue => false
  }

  predicate WellShaped(bytes: string -> nat, sql: string, params: seq<Parameter>, call: string) {
    && Trim(sql) != "" && Trim(sql) == sql && bytes(sql) <= MAX_STATEMENT_BYTES
    && |params| <= MAX_PARAMETERS && call in METHODS
  }

  /** `parseStatement`, from the point where `sql` is a string and `params` an array. */
  method ParseStatement(bytes: string -> nat, sql: string, params: seq<Parameter>, call: string)
    returns (verdict: Verdict)
    ensures verdict == Accepted <==>
              && WellShaped(bytes, sql, params, call)
              && Reference(sql).single && Reference(sql).firstWord in RUNTIME_WORDS
              && Reference(sql).parameterCount == |params|
              && forall p :: p in params ==> GoodParameter(bytes, p)
    ensures verdict == DdlRequiresMigration <==>
              WellShaped(bytes, sql, params, call) && Reference(sql).firstWord in DDL_WORDS
  {
    hide Reference, Trim;
    if !WellShaped(bytes, sql, params, call) { return StatementInvalid; }
    var single, firstWord, parameterCount := AnalyzeSql(sql);
    assert firstWord in DDL_WORDS ==> firstWord !in RUNTIME_WORDS by { WordListsApart(firstWord); }
    if !single || firstWord !in RUNTIME_WORDS {
      return if firstWord in DDL_WORDS then DdlRequiresMigration else StatementInvalid;
    }
    if parameterCount != |params| { return ParameterCountInvalid; }
    for k := 0 to |params|
      invariant forall i :: 0 <= i < k ==> GoodParameter(bytes, params[i])
    {
      if !GoodParameter(bytes, params[k]) { return ParameterInvalid; }
    }
    verdict := Accepted;
  }

  lemma WordListsApart(word: string)
    ensures word in DDL_WORDS ==> word !in RUNTIME_WORDS
  {
    assert forall w :: w in DDL_WORDS ==> w[0] != 'S' || w[1] == 'A';
  }

  // ----- quoted text after the semicolon -----

  predicate OpensNothing(c: char) { c != '-' && c != '/' && c != '\'' && c != '\"' && c != '`' && c != '[' }

  lemma {:induction false} LexOrdinary(text: string, rest: string)
    requires forall k :: 0 <= k < |text| ==> OpensNothing(text[k])
    ensures Lex(Plain, text + rest) == Lexed(Chars(text) + Lex(Plain, rest).cells, Lex(Plain, rest).terminated)
  {
    hide Lex;
    if text == "" {
      assert text + rest == rest;
    } else {
      LexOrdinary(text[1..], rest);
      var s := text + rest;
      assert s[1..] == text[1..] + rest && s[0] == text[0];
      assert Opening(s).None? by { NothingOpens(s); }
      LexPlain(s);
      assert Chars(text) == [Ch(text[0])] + Chars(text[1..]);
    }
  }

  lemma NothingOpens(s: string)
    requires s != "" && OpensNothing(s[0])
    ensures Opening(s).None?
  {
  }

  /** The tokens after the word, read by a machine that has met no semicolon. */
  lemma TailSteps(m: Machine)
    requires !m.ended && m.single
    ensures Steps(m, Tokens(Chars(" 1; ") + [Gap])) == m.(ended := true)
  {
    hide Tokens, Steps;
    var done := m.(ended := true);
    assert Chars(" 1; ") + [Gap] == [Ch(' ')] + ([Ch('1')] + ([Ch(';')] + ([Ch(' ')] + ([Gap] + []))));
    StepsSign(m, ' ', [Ch('1')] + ([Ch(';')] + ([Ch(' ')] + ([Gap] + []))));
    StepsSign(m, '1', [Ch(';')] + ([Ch(' ')] + ([Gap] + [])));
    StepsSign(m, ';', [Ch(' ')] + ([Gap] + []));
    StepsSign(done, ' ', [Gap] + []);
    StepsGap(done, []);
    NoTokens(done);
  }

  lemma WordSteps(word: string, cells: seq<Cell>)
    requires AllLetters(word) && word != "" && cells != [] && !LetterCell(cells[0])
    ensures Steps(START, Tokens(Chars(word) + cells)) == Steps(Machine(Upper(word), 0, false, true), Tokens(cells))
  {
    hide Tokens, Steps, Upper;
    RestFinish(START, word, cells);
  }

  lemma SelectCells()
    ensures Lex(Plain, "SELECT 1; 'x'") == Lexed(Chars("SELECT") + (Chars(" 1; ") + [Gap]), true)
  {
    hide Lex;
    var head := "SELECT 1; ";
    assert "SELECT 1; 'x'" == head + "'x'";
    LexOrdinary(head, "'x'");
    QuotedX();
    assert Chars(head) + [Gap] == Chars("SELECT") + (Chars(" 1; ") + [Gap]);
  }

  /** A quoted run after the semicolon is no more than a blank: the statement is single. */
  lemma QuotedRunAfterSemicolon()
    ensures Reference("SELECT 1; 'x'") == Analysis(true, "SELECT", 0)
  {
    hide Lex, Tokens, Steps, Reference, Upper;
    SelectCells();
    WordSteps("SELECT", Chars(" 1; ") + [Gap]);
    UpperSelect();
    TailSteps(Machine("SELECT", 0, false, true));
    ReferenceSteps("SELECT 1; 'x'");
  }

  lemma UpperSelect()
    ensures Upper("SELECT") == "SELECT"
  {
  }

  lemma QuotedX()
    ensures Lex(Plain, "'x'") == Lexed([Gap], true)
  {
    hide Lex;
    var s := "'x'";
    assert s[0] == '\'' && s[0..2] == "'x";
    assert Opening(s) == Some((Quote('\''), 1)) && s[1..] == "x'" && "x'"[1..] == "'" && "'"[1..] == "";
    LexOpening(s);
    LexQuote("x'", '\'');
    LexQuote("'", '\'');
    LexEnd(Plain);
  }

  lemma NoTokens(m: Machine)
    ensures Steps(m, Tokens([])) == m
  {
  }
}
