/**
 * The glob matcher of the plan scope policy: `*` and `?` over resource types.
 *
 * The matcher keeps the set of reachable pattern positions in two boolean arrays that it swaps after every character.
 * It is proved equal to the recursive reading of the glob, and its number of steps is bounded by the product of the
 * two lengths.
 */
module Glob {
  /** One character that is not a line terminator. */
  predicate WildcardMatches(c: char) { c != '\n' && c != '\r' && c != '\U{2028}' && c != '\U{2029}' }

  /** A token other than a repeated `*` consumes the character. */
  predicate Consumes(token: char, c: char) { if token == '*' || token == '?' then WildcardMatches(c) else token == c }

  // ----- meaning -----

  /** The recursive meaning of a pattern. */
  predicate Matches(pattern: string, text: string)
    decreases |pattern| + |text|
  {
    if pattern == [] then text == []
    else if pattern[0] == '*' then
      Matches(pattern[1..], text) || (text != [] && WildcardMatches(text[0]) && Matches(pattern, text[1..]))
    else text != [] && Consumes(pattern[0], text[0]) && Matches(pattern[1..], text[1..])
  }

  /** A piece of text that one token stands for. */
  ghost predicate Fits(token: char, piece: string) {
    (token != '*' ==> |piece| == 1) && forall k :: 0 <= k < |piece| ==> Consumes(token, piece[k])
  }

  function Flatten(pieces: seq<string>): string { if pieces == [] then "" else pieces[0] + Flatten(pieces[1..]) }

  /** The text is cut into one fitting piece per token. */
  ghost predicate Cuts(pattern: string, text: string, pieces: seq<string>) {
    |pieces| == |pattern| && Flatten(pieces) == text && forall k :: 0 <= k < |pieces| ==> Fits(pattern[k], pieces[k])
  }

  lemma {:induction false} MatchCuts(pattern: string, text: string) returns (pieces: seq<string>)
    requires Matches(pattern, text)
    ensures Cuts(pattern, text, pieces)
    decreases |pattern| + |text|
  {
    if pattern == [] {
      pieces := [];
    } else if pattern[0] == '*' && Matches(pattern[1..], text) {
      var rest := MatchCuts(pattern[1..], text);
      pieces := [""] + rest;
    } else if pattern[0] == '*' {
      var rest := MatchCuts(pattern, text[1..]);
      pieces := [[text[0]] + rest[0]] + rest[1..];
      assert Flatten(pieces) == [text[0]] + Flatten(rest);
    } else {
      var rest := MatchCuts(pattern[1..], text[1..]);
      pieces := [[text[0]]] + rest;
    }
  }

  lemma {:induction false} CutMatches(pattern: string, text: string, pieces: seq<string>)
    requires Cuts(pattern, text, pieces)
    ensures Matches(pattern, text)
    decreases |pattern| + |text|
  {
    if pattern != [] {
      var piece, rest := pieces[0], Flatten(pieces[1..]);
      if piece == "" {
        assert Cuts(pattern[1..], text, pieces[1..]);
        CutMatches(pattern[1..], text, pieces[1..]);
      } else if pattern[0] == '*' {
        assert text[1..] == piece[1..] + rest;
        assert Flatten([piece[1..]] + pieces[1..]) == text[1..];
        CutMatches(pattern, text[1..], [piece[1..]] + pieces[1..]);
      } else {
        assert text[1..] == rest;
        CutMatches(pattern[1..], text[1..], pieces[1..]);
      }
    }
  }

  /** A pattern matches exactly the texts that can be cut into one fitting piece per token. */
  lemma MatchesIffCuts(pattern: string, text: string)
    ensures Matches(pattern, text) <==> exists pieces :: Cuts(pattern, text, pieces)
  {
    if Matches(pattern, text) { var pieces := MatchCuts(pattern, text); }
    if pieces :| Cuts(pattern, text, pieces) { CutMatches(pattern, text, pieces); }
  }

  // ----- reachable positions -----

  /** Position `till` is reached from `from` by skipping stars only. */
  ghost predicate Skips(tokens: string, from: nat, till: nat) {
    from <= till <= |tokens| && forall k :: from <= k < till ==> tokens[k] == '*'
  }

  /** A marked star has a marked successor. */
  ghost predicate StarClosed(tokens: string, states: seq<bool>) {
    |states| == |tokens| + 1 && forall k :: 0 <= k < |tokens| && states[k] && tokens[k] == '*' ==> states[k + 1]
  }

  /** Some marked position can still match the rest of the text. */
  ghost predicate Alive(tokens: string, states: seq<bool>, text: string)
    requires |states| == |tokens| + 1
  {
    exists j :: 0 <= j <= |tokens| && states[j] && Matches(tokens[j..], text)
  }

  /** The position the matcher goes to when the token at `index` consumes a character. */
  function Target(tokens: string, index: nat): nat
    requires index < |tokens|
  {
    if tokens[index] == '*' then index else index + 1
  }

  /** Position `till` is reached from one of the first `count` marked positions by consuming the character. */
  ghost predicate Stepped(tokens: string, states: seq<bool>, count: nat, c: char, till: nat)
    requires |states| == |tokens| + 1 && count <= |tokens|
  {
    exists index :: 0 <= index < count && states[index] && Consumes(tokens[index], c)
      && Skips(tokens, Target(tokens, index), till)
  }

  lemma {:induction false} SkippedStarsMatch(tokens: string, from: nat, till: nat, text: string)
    requires Skips(tokens, from, till) && Matches(tokens[till..], text)
    ensures Matches(tokens[from..], text)
    decreases till - from
  {
    if from < till {
      SkippedStarsMatch(tokens, from + 1, till, text);
      assert tokens[from..][1..] == tokens[from + 1..];
    }
  }

  lemma {:induction false} AliveSteps(tokens: string, states: seq<bool>, c: char, rest: string, j: nat)
    returns (till: nat)
    requires StarClosed(tokens, states) && j <= |tokens| && states[j] && Matches(tokens[j..], [c] + rest)
    ensures till <= |tokens| && Stepped(tokens, states, |tokens|, c, till) && Matches(tokens[till..], rest)
    decreases |tokens| - j
  {
    assert ([c] + rest)[1..] == rest;
    assert j < |tokens| ==> tokens[j..][0] == tokens[j] && tokens[j..][1..] == tokens[j + 1..];
    if tokens[j] == '*' && Matches(tokens[j + 1..], [c] + rest) {
      till := AliveSteps(tokens, states, c, rest, j + 1);
    } else {
      till := Target(tokens, j);
      assert Skips(tokens, Target(tokens, j), till);
    }
  }

  lemma StepAlive(tokens: string, states: seq<bool>, c: char, rest: string, till: nat)
    requires |states| == |tokens| + 1 && till <= |tokens| && Stepped(tokens, states, |tokens|, c, till)
             && Matches(tokens[till..], rest)
    ensures Alive(tokens, states, [c] + rest)
  {
    var index :| 0 <= index < |tokens| && states[index] && Consumes(tokens[index], c)
      && Skips(tokens, Target(tokens, index), till);
    SkippedStarsMatch(tokens, Target(tokens, index), till, rest);
    assert ([c] + rest)[1..] == rest;
    assert tokens[index..][0] == tokens[index] && tokens[index..][1..] == tokens[index + 1..];
    assert Matches(tokens[index..], [c] + rest);
  }

  /** One character: the marked positions can match the text exactly when the new ones can match what is left. */
  lemma AliveIffStepped(tokens: string, states: seq<bool>, pending: seq<bool>, c: char, rest: string)
    requires StarClosed(tokens, states) && |pending| == |tokens| + 1
    requires forall till :: 0 <= till <= |tokens| ==> pending[till] == Stepped(tokens, states, |tokens|, c, till)
    ensures Alive(tokens, states, [c] + rest) <==> Alive(tokens, pending, rest)
  {
    hide Matches, Stepped;
    if Alive(tokens, states, [c] + rest) {
      var j :| 0 <= j <= |tokens| && states[j] && Matches(tokens[j..], [c] + rest);
      var till := AliveSteps(tokens, states, c, rest, j);
    }
    if Alive(tokens, pending, rest) {
      var till :| 0 <= till <= |tokens| && pending[till] && Matches(tokens[till..], rest);
      StepAlive(tokens, states, c, rest, till);
    }
  }

  lemma {:induction false} MarkedStarsReachEnd(tokens: string, states: seq<bool>, j: nat)
    requires StarClosed(tokens, states) && j <= |tokens| && states[j] && Matches(tokens[j..], "")
    ensures states[|tokens|]
    decreases |tokens| - j
  {
    if j < |tokens| {
      assert tokens[j..][0] == tokens[j] && tokens[j..][1..] == tokens[j + 1..];
      MarkedStarsReachEnd(tokens, states, j + 1);
    }
  }

  /** At the end of the text only the last position counts. */
  lemma AliveAtEnd(tokens: string, states: seq<bool>)
    requires StarClosed(tokens, states)
    ensures Alive(tokens, states, "") <==> states[|tokens|]
  {
    assert tokens[|tokens|..] == "";
    if Alive(tokens, states, "") {
      var j :| 0 <= j <= |tokens| && states[j] && Matches(tokens[j..], "");
      MarkedStarsReachEnd(tokens, states, j);
    }
  }

  lemma AliveAtStart(tokens: string, states: seq<bool>, text: string)
    requires |states| == |tokens| + 1 && forall till :: 0 <= till <= |tokens| ==> states[till] == Skips(tokens, 0, till)
    ensures Alive(tokens, states, text) <==> Matches(tokens, text)
  {
    hide Matches;
    assert tokens[0..] == tokens;
    if Matches(tokens, text) { assert Skips(tokens, 0, 0); }
    if Alive(tokens, states, text) {
      var j :| 0 <= j <= |tokens| && states[j] && Matches(tokens[j..], text);
      SkippedStarsMatch(tokens, 0, j, text);
    }
  }

  // ----- counting marks -----

  ghost function Count(states: seq<bool>): (n: nat)
    ensures n <= |states|
  {
    if states == [] then 0 else (if states[0] then 1 else 0) + Count(states[1..])
  }

  lemma {:induction false} CountMark(states: seq<bool>, k: nat)
    requires k < |states| && !states[k]
    ensures Count(states[k := true]) == Count(states) + 1
  {
    if k == 0 {
      assert states[k := true][1..] == states[1..];
    } else {
      CountMark(states[1..], k - 1);
      assert states[k := true][1..] == states[1..][k - 1 := true];
    }
  }

  lemma {:induction false} CountNone(states: seq<bool>)
    requires forall k :: 0 <= k < |states| ==> !states[k]
    ensures Count(states) == 0
  {
    if states != [] { CountNone(states[1..]); }
  }

  // ----- the matcher -----

  /** `states.fill(false)`. */
  method Clear(states: array<bool>) returns (ghost steps: nat)
    modifies states
    ensures forall k :: 0 <= k < states.Length ==> !states[k]
    ensures steps == states.Length
  {
    steps := 0;
    for i := 0 to states.Length
      invariant forall k :: 0 <= k < i ==> !states[k]
      invariant steps == i
    {
      states[i] := false;
      steps := steps + 1;
    }
  }

  /**
   * Marks a position and the positions that its stars may skip to. The walk stops at the first marked position, so
   * every step but the last marks a new one.
   */
  method ReachPosition(tokens: string, states: array<bool>, index: nat) returns (ghost steps: nat)
    requires StarClosed(tokens, states[..]) && index <= |tokens|
    modifies states
    ensures StarClosed(tokens, states[..])
    ensures forall till :: 0 <= till <= |tokens| ==> states[till] == (old(states[till]) || Skips(tokens, index, till))
    ensures steps <= 1 + Count(states[..]) - Count(old(states[..]))
  {
    var cursor := index;
    steps := 0;
    while cursor <= |tokens| && !states[cursor]
      invariant index <= cursor <= |tokens| + 1
      invariant forall k :: index <= k < cursor && k < |tokens| ==> tokens[k] == '*'
      invariant forall till :: 0 <= till <= |tokens| ==> states[till] == (old(states[till]) || index <= till < cursor)
      invariant steps == Count(states[..]) - Count(old(states[..])) == cursor - index
    {
      CountMark(states[..], cursor);
      assert states[..][cursor := true] == states[..][..cursor] + [true] + states[..][cursor + 1..];
      ghost var before := states[..];
      states[cursor] := true;
      assert states[..] == before[cursor := true];
      steps := steps + 1;
      if cursor == |tokens| || tokens[cursor] != '*' {
        return;
      }
      cursor := cursor + 1;
    }
    if cursor <= |tokens| {
      Marked(tokens, old(states[..]), cursor);
    }
  }

  /** In a closed set a marked position has marked everything its stars may skip to. */
  lemma {:induction false} MarkedTo(tokens: string, states: seq<bool>, from: nat, till: nat)
    requires StarClosed(tokens, states) && Skips(tokens, from, till) && states[from]
    ensures states[till]
    decreases till - from
  {
    if from < till { MarkedTo(tokens, states, from + 1, till); }
  }

  lemma Marked(tokens: string, states: seq<bool>, from: nat)
    requires StarClosed(tokens, states) && from <= |tokens| && states[from]
    ensures forall till: nat :: Skips(tokens, from, till) ==> states[till]
  {
    forall till: nat | Skips(tokens, from, till) ensures states[till] { MarkedTo(tokens, states, from, till); }
  }

  /** One character: marks in `pending` every position reached from `reachable`. */
  method Advance(tokens: string, reachable: array<bool>, pending: array<bool>, c: char)
    returns (live: bool, ghost steps: nat)
    requires StarClosed(tokens, reachable[..]) && StarClosed(tokens, pending[..]) && reachable != pending
    requires forall k :: 0 <= k < pending.Length ==> !pending[k]
    modifies pending
    ensures StarClosed(tokens, pending[..])
    ensures forall till :: 0 <= till <= |tokens| ==> pending[till] == Stepped(tokens, reachable[..], |tokens|, c, till)
    ensures live <==> exists till :: 0 <= till <= |tokens| && pending[till]
    ensures steps <= 3 * |tokens| + 1
  {
    hide Consumes;
    live, steps := false, 0;
    ghost var marks: nat := 0;
    ghost var states := reachable[..];
    CountNone(pending[..]);
    for index := 0 to |tokens|
      invariant reachable[..] == states && StarClosed(tokens, pending[..])
      invariant forall till :: 0 <= till <= |tokens| ==> pending[till] == Stepped(tokens, states, index, c, till)
      invariant live <==> exists till :: 0 <= till <= |tokens| && pending[till]
      invariant steps <= 2 * index + Count(pending[..])
    {
      steps := steps + 1;
      if reachable[index] && Consumes(tokens[index], c) {
        ghost var before := pending[..];
        var more := ReachPosition(tokens, pending, if tokens[index] == '*' then index else index + 1);
        steps := steps + more;
        live := true;
        assert Skips(tokens, Target(tokens, index), Target(tokens, index));
        assert pending[Target(tokens, index)];
        forall till | 0 <= till <= |tokens| ensures pending[till] == Stepped(tokens, states, index + 1, c, till) {
          assert pending[till] == (before[till] || Skips(tokens, Target(tokens, index), till));
          SteppedGrows(tokens, states, index, c, till);
        }
      } else {
        forall till | 0 <= till <= |tokens| ensures pending[till] == Stepped(tokens, states, index + 1, c, till) {
          SteppedGrows(tokens, states, index, c, till);
        }
      }
    }
  }

  lemma SteppedGrows(tokens: string, states: seq<bool>, index: nat, c: char, till: nat)
    requires |states| == |tokens| + 1 && index < |tokens|
    ensures Stepped(tokens, states, index + 1, c, till)
            <==> Stepped(tokens, states, index, c, till)
                 || (states[index] && Consumes(tokens[index], c) && Skips(tokens, Target(tokens, index), till))
  {
  }

  /** `resourceTypeMatchesPattern`. */
  method ResourceTypeMatchesPattern(resourceType: string, pattern: string) returns (matches: bool, ghost steps: nat)
    ensures matches == Matches(pattern, resourceType)
    ensures steps <= 5 * (|pattern| + 1) * (|resourceType| + 1)
  {
    hide Matches, Alive, Stepped, Skips, Count, Consumes;
    var reachable := new bool[|pattern| + 1](_ => false);
    var pending := new bool[|pattern| + 1](_ => false);
    CountNone(reachable[..]);
    steps := ReachPosition(pattern, reachable, 0);
    AliveAtStart(pattern, reachable[..], resourceType);
    assert resourceType[0..] == resourceType;
    for k := 0 to |resourceType|
      invariant reachable != pending && pending.Length == |pattern| + 1
      invariant fresh(reachable) && fresh(pending)
      invariant StarClosed(pattern, reachable[..])
      invariant Alive(pattern, reachable[..], resourceType[k..]) <==> Matches(pattern, resourceType)
      invariant steps <= |pattern| + 2 + k * (4 * |pattern| + 2)
    {
      ghost var states, c, rest := reachable[..], resourceType[k], resourceType[k + 1..];
      var cleared := Clear(pending);
      var live, more := Advance(pattern, reachable, pending, resourceType[k]);
      steps := steps + cleared + more;
      assert resourceType[k..] == [c] + rest;
      AliveIffStepped(pattern, states, pending[..], c, rest);
      assert k * (4 * |pattern| + 2) + (4 * |pattern| + 2) == (k + 1) * (4 * |pattern| + 2);
      if !live {
        NothingAlive(pattern, pending[..], rest);
        Bounded(|pattern|, k + 1, |resourceType|, steps);
        return false, steps;
      }
      reachable, pending := pending, reachable;
    }
    assert resourceType[|resourceType|..] == "";
    AliveAtEnd(pattern, reachable[..]);
    Bounded(|pattern|, |resourceType|, |resourceType|, steps);
    matches := reachable[|pattern|];
  }

  lemma NothingAlive(tokens: string, states: seq<bool>, text: string)
    requires |states| == |tokens| + 1 && forall till :: 0 <= till <= |tokens| ==> !states[till]
    ensures !Alive(tokens, states, text)
  {
  }

  lemma Grows(n: nat, k: nat, m: nat)
    requires k <= m
    ensures k * n <= m * n
  {
  }

  lemma Bounded(n: nat, k: nat, m: nat, steps: nat)
    requires k <= m && steps <= n + 2 + k * (4 * n + 2)
    ensures steps <= 5 * (n + 1) * (m + 1)
  {
    Grows(n, k, m);
    var a, b := k * n, m * n;
    assert k * (4 * n + 2) == 4 * a + 2 * k;
    assert 5 * (n + 1) * (m + 1) == 5 * (b + n + m + 1) by { assert (n + 1) * (m + 1) == b + n + m + 1; }
  }
}
