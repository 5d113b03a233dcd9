/**
 Which parts of a text the URL pass of contract/redaction.ts masks: exactly the passwords of `scheme://user:password@`.
 */
module UrlLaws {
  import opened Text
  import opened SpanTrace
  import opened Brackets
  import opened ValueEnds
  import opened Passes

  /** A scheme from `low` on ends at `at`: a letter at a word boundary, then scheme characters. */
  ghost predicate HasScheme(value: string, low: nat, at: nat)
    requires at <= |value|
  {
    exists s :: low <= s < at && BeginsScheme(value, s, at)
  }

  ghost predicate BeginsScheme(value: string, s: nat, at: nat)
    requires s < at <= |value|
  {
    IsLetter(value[s]) && (s == 0 || !IsWordChar(value[s - 1])) && forall k :: s <= k < at ==> IsSchemeChar(value[k])
  }

  /** A user name, a colon, the password `value[p..q]` and an at sign follow the `://` at `at`. */
  ghost predicate HasPassword(value: string, at: nat, p: nat, q: nat) {
    && At(value, "://", at) && at + 4 < p < q < |value| && value[p - 1] == ':' && value[q] == '@'
    && (forall k :: at + 3 <= k < p - 1 ==> IsUriUserChar(value[k]))
    && (forall k :: p <= k < q ==> IsUriPasswordChar(value[k]))
  }

  ghost predicate IsPassword(value: string, p: nat, q: nat) { exists at :: PasswordFrom(value, at, p, q) }

  ghost predicate PasswordFrom(value: string, at: nat, p: nat, q: nat) {
    HasPassword(value, at, p, q) && HasScheme(value, 0, at)
  }

  lemma {:induction false} SchemeStartIs(value: string, i: nat, at: nat)
    requires i <= at <= |value| && forall k :: i <= k < at ==> IsSchemeChar(value[k])
    ensures i <= SchemeStart(value, i, at) <= at
    ensures SchemeStart(value, i, at) < at <==> HasScheme(value, i, at)
    decreases at - i
  {
    if i < at {
      if !IsLetter(value[i]) || (i > 0 && IsWordChar(value[i - 1])) {
        SchemeStartIs(value, i + 1, at);
        assert HasScheme(value, i, at) <==> HasScheme(value, i + 1, at) by { DropFront(value, i, at); }
      } else {
        assert BeginsScheme(value, i, at);
      }
    }
  }

  lemma DropFront(value: string, i: nat, at: nat)
    requires i < at <= |value| && !BeginsScheme(value, i, at)
    ensures HasScheme(value, i, at) <==> HasScheme(value, i + 1, at)
  {
    hide BeginsScheme;
  }

  /** A scheme lies inside the run of scheme characters. */
  lemma SchemeInRun(value: string, low: nat, at: nat)
    requires low <= at <= |value|
    ensures HasScheme(value, low, at) <==> HasScheme(value, SkipBack(value, at, low, IsSchemeChar), at)
  {
    var run := SkipBack(value, at, low, IsSchemeChar);
    if s :| low <= s < at && BeginsScheme(value, s, at) { assert run <= s; }
  }

  lemma PasswordIs(value: string, cursor: nat, at: nat, p: nat, q: nat)
    requires cursor <= at && At(value, "://", at)
    ensures UrlPassword(value, cursor, at) == Some((p, q))
            <==> HasPassword(value, at, p, q) && HasScheme(value, cursor, at)
  {
    hide SkipWhile, SkipBack, SchemeStart, HasScheme;
    SchemeInRun(value, cursor, at);
    SchemeStartIs(value, SkipBack(value, at, cursor, IsSchemeChar), at);
    var user := SkipWhile(value, at + 3, |value|, IsUriUserChar);
    if HasPassword(value, at, p, q) {
      SkipExact(value, at + 3, |value|, IsUriUserChar, p - 1);
      SkipExact(value, p, |value|, IsUriPasswordChar, q);
    }
  }

  /** A scheme never reaches back over an at sign. */
  lemma SchemeAfter(value: string, cursor: nat, at: nat)
    requires cursor <= at && At(value, "://", at) && (cursor == 0 || value[cursor] == '@')
    ensures HasScheme(value, cursor, at) <==> HasScheme(value, 0, at)
  {
    assert value[at..at + 3][0] == ':';
    if s :| 0 <= s < at && BeginsScheme(value, s, at) { assert s >= cursor; }
  }

  /** No `://` begins inside another one, or inside what follows it up to the at sign of a password. */
  lemma NoneBetween(value: string, at: nat, p: nat, q: nat, k: nat)
    requires At(value, "://", at) && at < k && (k < at + 3 || (HasPassword(value, at, p, q) && k <= q))
    ensures !At(value, "://", k)
  {
    assert value[at..at + 3][1] == '/' && value[at..at + 3][2] == '/';
    if k + 3 <= |value| {
      var s := value[k..k + 3];
      assert s[0] == value[k] && s[1] == value[k + 1] && "://"[0] == ':' && "://"[1] == '/';
      assert k >= at + 3 && k + 1 < p - 1 ==> IsUriUserChar(value[k + 1]);
      assert k >= at + 3 && p <= k + 1 < q ==> IsUriPasswordChar(value[k + 1]);
    }
  }

  ghost predicate PasswordAfter(value: string, search: nat, p: nat, q: nat) {
    exists at: nat :: search <= at && PasswordFrom(value, at, p, q)
  }

  lemma PasswordFromIs(value: string, cursor: nat, at: nat, p: nat, q: nat)
    requires cursor <= at && At(value, "://", at) && (cursor == 0 || value[cursor] == '@')
    ensures UrlPassword(value, cursor, at) == Some((p, q)) <==> PasswordFrom(value, at, p, q)
    ensures PasswordFrom(value, at, p, q) ==> at + 3 < q < |value| && value[q] == '@'
  {
    hide UrlPassword, HasScheme;
    SchemeAfter(value, cursor, at);
    PasswordIs(value, cursor, at, p, q);
  }

  lemma NoDelimiter(value: string, search: nat, p: nat, q: nat)
    requires IndexOf(value, "://", search) < 0
    ensures !PasswordAfter(value, search, p, q)
  {
    hide IndexOf;
  }

  /** Between the search position and the next one only the delimiter at `at` counts. */
  lemma SkipDelimiters(value: string, search: nat, at: nat, next: nat, start: nat, end: nat, p: nat, q: nat)
    requires search <= at == IndexOf(value, "://", search) && at < next
    requires next == at + 3 || (PasswordFrom(value, at, start, end) && next == end + 1)
    ensures PasswordAfter(value, search, p, q) <==> PasswordFrom(value, at, p, q) || PasswordAfter(value, next, p, q)
  {
    hide IndexOf, HasScheme;
    forall k: nat | search <= k < next && k != at ensures !PasswordFrom(value, k, p, q) {
      if k > at { NoneBetween(value, at, start, end, k); }
    }
  }

  lemma UrlStep(value: string, replacement: string, cursor: nat, search: nat)
    requires cursor <= search
    ensures var at := IndexOf(value, "://", search);
            UrlEdits(value, replacement, cursor, search) ==
            if at < 0 then [] else
              match UrlPassword(value, cursor, at)
              case None => UrlEdits(value, replacement, cursor, at + 3)
              case Some((p, q)) => [Mask(p, q, replacement)] + UrlEdits(value, replacement, q, q + 1)
  {
    hide IndexOf, UrlPassword, WellFormed, Unmasked;
  }

  /** The masks that the rest of the scan finds are the passwords of the rest of the delimiters. */
  lemma {:induction false} UrlEditsFrom(value: string, replacement: string, cursor: nat, search: nat, p: nat, q: nat)
    requires cursor <= search && (cursor == 0 || (cursor < |value| && value[cursor] == '@'))
    ensures Mask(p, q, replacement) in UrlEdits(value, replacement, cursor, search)
            <==> PasswordAfter(value, search, p, q)
    decreases |value| - search
  {
    hide IndexOf, UrlPassword, PasswordFrom, PasswordAfter, UrlEdits, WellFormed, Unmasked;
    UrlStep(value, replacement, cursor, search);
    var at := IndexOf(value, "://", search);
    if at < 0 {
      NoDelimiter(value, search, p, q);
    } else {
      PasswordFromIs(value, cursor, at, p, q);
      match UrlPassword(value, cursor, at)
      case None =>
        UrlEditsFrom(value, replacement, cursor, at + 3, p, q);
        SkipDelimiters(value, search, at, at + 3, p, q, p, q);
      case Some((start, end)) =>
        PasswordFromIs(value, cursor, at, start, end);
        UrlEditsFrom(value, replacement, end, end + 1, p, q);
        SkipDelimiters(value, search, at, end + 1, start, end, p, q);
        assert Mask(p, q, replacement) == Mask(start, end, replacement) <==> p == start && q == end;
    }
  }

  /** The pass masks a range exactly when it is a password of the text. */
  lemma UrlEditsExact(value: string, replacement: string, p: nat, q: nat)
    ensures Mask(p, q, replacement) in UrlEdits(value, replacement, 0, 0) <==> IsPassword(value, p, q)
  {
    hide PasswordFrom, UrlEdits;
    UrlEditsFrom(value, replacement, 0, 0, p, q);
  }

  /** And every edit of the pass is such a mask. */
  lemma {:induction false} UrlEditsAreMasks(value: string, replacement: string, cursor: nat, search: nat, e: Edit)
    requires cursor <= search && e in UrlEdits(value, replacement, cursor, search)
    ensures exists p: nat, q: nat :: e == Mask(p, q, replacement)
    decreases |value| - search
  {
    hide IndexOf, UrlPassword, WellFormed, Unmasked;
    var at := IndexOf(value, "://", search);
    match UrlPassword(value, cursor, at)
    case None => UrlEditsAreMasks(value, replacement, cursor, at + 3, e);
    case Some((start, end)) =>
      if e != Mask(start, end, replacement) { UrlEditsAreMasks(value, replacement, end, end + 1, e); }
  }
}
