/**
 When `redactString` and `traceRedactString` (contract/redaction.ts) end in the same text.
 */
module RedactionLaws {
  import opened Text
  import opened SpanTrace
  import opened Passes
  import opened KeyMaterial
  import opened Assignments
  import opened Redaction

  /** Both pipelines end in the same text. */
  ghost predicate Agree(policy: Policy, replacement: string, value: string)
    requires Lawful(policy)
  {
    hide Lawful;
    PlainRedacted(policy, replacement, Stages(policy), value) == Redacted(policy, replacement, Stages(policy), value)
  }

  // ----- inert replacements -----

  lemma InertStage(policy: Policy, replacement: string, stage: Stage, value: string)
    requires Lawful(policy) && Inert(replacement)
    ensures PlainText(policy, replacement, stage, value) == StageText(policy, replacement, stage, value)
  {
    hide StageText, Lawful, Inert, Splice, TemplateEdits, ValueEdits;
    if stage.SecretValue? && stage.pattern < |policy.secretValues| {
      LawfulValues(policy, stage.pattern, value);
      TemplateEditsInert(value, replacement, policy.secretValues[stage.pattern](value), 0);
      SecretStage(policy, replacement, stage.pattern, value);
    }
  }

  lemma {:induction false} InertStages(policy: Policy, replacement: string, stages: seq<Stage>, value: string)
    requires Lawful(policy) && Inert(replacement)
    ensures PlainRedacted(policy, replacement, stages, value) == Redacted(policy, replacement, stages, value)
    decreases |stages|
  {
    hide PlainText, StageText, Lawful, Inert;
    if stages != [] {
      var front := stages[..|stages| - 1];
      InertStages(policy, replacement, front, value);
      InertStage(policy, replacement, stages[|stages| - 1], PlainRedacted(policy, replacement, front, value));
    }
  }

  // ----- a table and a text that tell any other replacement apart -----

  function Plain(n: nat): (s: string)
    ensures |s| == n && forall k :: 0 <= k < n ==> s[k] == 'x'
  {
    seq(n, _ => 'x')
  }

  /** A table with one secret pattern, which finds the middle third of a text of the given length. */
  function Middle(long: nat): Policy {
    Policy(_ => false, key => key, _ => None, _ => [], _ => [], _ => [], _ => [],
           [text => if |text| == 3 * long then [Match(long, long)] else []])
  }

  lemma MiddleIsLawful(long: nat)
    requires long >= 1
    ensures Lawful(Middle(long))
  {
    forall text: string ensures Ordered(Middle(long).secretValues[0](text), 0, |text|) {
      if |text| == 3 * long {
        var ms := [Match(long, long)];
        assert ms[1..] == [] && ms[0].End() == 2 * long;
        assert Ordered(ms, 0, |text|);
      }
    }
  }

  lemma NothingFound(n: nat, marker: string, from: nat)
    requires marker != "" && marker[0] != 'x'
    ensures IndexOf(Plain(n), marker, from) == -1
  {
    hide IndexOf;
    forall k: int ensures !At(Plain(n), marker, k) {
      if 0 <= k && k + |marker| <= n { assert Plain(n)[k..k + |marker|][0] == 'x'; }
    }
  }

  lemma {:induction false} NoAssignments(policy: Policy, n: nat, replacement: string, structuredOnly: bool, at: nat)
    ensures UnquotedEdits(policy, Plain(n), replacement, structuredOnly, 0, at) == []
    decreases n - at
  {
    if at < n { NoAssignments(policy, n, replacement, structuredOnly, at + 1); }
  }

  lemma NoArmor(n: nat, replacement: string)
    ensures ArmorEdits(Plain(n), replacement, Families(), 0, Zeros(3)) == []
  {
    hide IndexOf, WellFormed, Unmasked;
    var fs := Families();
    NothingFound(n, fs[0].begin, 0);
    NothingFound(n, fs[1].begin, 0);
    NothingFound(n, fs[2].begin, 0);
    var begins := Openings(Plain(n), fs, Zeros(3));
    assert begins[0] == -1 && begins[1] == -1 && begins[2] == -1;
    assert Earliest(begins) < 0;
  }

  /** Every pass before the secret patterns leaves the text alone. */
  lemma QuietStage(long: nat, replacement: string, stage: Stage, n: nat)
    requires long >= 1 && !stage.SecretValue? && Lawful(Middle(long))
    ensures StageText(Middle(long), replacement, stage, Plain(n)) == Plain(n)
  {
    hide Lawful, ArmorEdits, IndexOf, WellFormed, QuotedMove, YamlMove, UnquotedMove, KeyBlockAt, UrlPassword,
         MarkedEnd, Families, UnquotedEdits;
    NothingFound(n, PEM_BEGIN, 0);
    NothingFound(n, Putty.Text(), 0);
    NothingFound(n, Age.Text(), 0);
    NothingFound(n, "\"", 0);
    NothingFound(n, "'", 0);
    NothingFound(n, "://", 0);
    NoArmor(n, replacement);
    if stage.Unquoted? { NoAssignments(Middle(long), n, replacement, stage.structuredOnly, 0); }
    assert StageEdits(Middle(long), replacement, stage, Plain(n)) == [];
    assert Splice(Plain(n), [], 0) == Plain(n);
  }

  lemma {:induction false} QuietStages(long: nat, replacement: string, stages: seq<Stage>, n: nat)
    requires long >= 1 && Lawful(Middle(long)) && forall k :: 0 <= k < |stages| ==> !stages[k].SecretValue?
    ensures Redacted(Middle(long), replacement, stages, Plain(n)) == Plain(n)
    ensures PlainRedacted(Middle(long), replacement, stages, Plain(n)) == Plain(n)
    decreases |stages|
  {
    hide StageText, Lawful;
    if stages != [] {
      QuietStages(long, replacement, stages[..|stages| - 1], n);
      QuietStage(long, replacement, stages[|stages| - 1], n);
    }
  }

  /** One edit in the middle: the length tells the replacements apart. */
  lemma OneEdit(value: string, e: Edit)
    requires EditFits(e, 0, |value|)
    ensures |Splice(value, [e], 0)| == |value| - (e.end - e.start) + |e.replacement|
  {
    assert [e][1..] == [];
  }

  lemma LastStage(long: nat, replacement: string)
    requires long >= 1 && Lawful(Middle(long))
    ensures var policy, value, m := Middle(long), Plain(3 * long), Match(long, long);
            && |StageText(policy, replacement, SecretValue(0), value)| == 2 * long + |replacement|
            && |PlainText(policy, replacement, SecretValue(0), value)| == 2 * long + |Substitute(replacement, value, m)|
  {
    hide Lawful, Substitute, StageText;
    var policy, value, m := Middle(long), Plain(3 * long), Match(long, long);
    var ms := policy.secretValues[0](value);
    assert ms == [m] && ms[1..] == [];
    LawfulValues(policy, 0, value);
    SecretStage(policy, replacement, 0, value);
    assert ValueEdits(replacement, ms, 0, |value|) == [Mask(long, 2 * long, replacement)];
    assert TemplateEdits(value, replacement, ms, 0) == [Mask(long, 2 * long, Substitute(replacement, value, m))];
    OneEdit(value, Mask(long, 2 * long, replacement));
    OneEdit(value, Mask(long, 2 * long, Substitute(replacement, value, m)));
  }

  lemma PipelinesDiffer(replacement: string, long: nat)
    requires !Inert(replacement) && long == |replacement| + 1 && Lawful(Middle(long))
    ensures !Agree(Middle(long), replacement, Plain(3 * long))
  {
    hide Lawful, StageText, PlainText, Inert;
    var policy, value := Middle(long), Plain(3 * long);
    var stages := Stages(policy);
    var front := stages[..|stages| - 1];
    assert stages[|stages| - 1] == SecretValue(0);
    QuietStages(long, replacement, front, 3 * long);
    LastStage(long, replacement);
    NotInertChanges(replacement, value, Match(long, long), long);
  }

  /**
   * The pipelines agree for every table and every text exactly when the replacement holds no `$` pattern of string
   * replacement.
   */
  lemma PipelinesAgreeIff(replacement: string)
    ensures (forall policy, value :: Lawful(policy) ==> Agree(policy, replacement, value)) <==> Inert(replacement)
  {
    hide Lawful, PlainRedacted, Redacted, Inert, Stages;
    if Inert(replacement) {
      forall policy, value | Lawful(policy) ensures Agree(policy, replacement, value) {
        InertStages(policy, replacement, Stages(policy), value);
      }
    } else {
      MiddleIsLawful(|replacement| + 1);
      PipelinesDiffer(replacement, |replacement| + 1);
    }
  }

  // ----- a replacement that hides nothing, with any tables -----

  lemma EchoIsMatch(value: string, m: Match)
    requires m.End() <= |value|
    ensures Substitute("$&", value, m) == value[m.index..m.End()]
  {
    assert "$&"[2..] == "";
  }

  lemma {:induction false} EchoSplices(value: string, ms: seq<Match>, cursor: nat)
    requires Ordered(ms, cursor, |value|) && cursor <= |value|
    ensures Splice(value, TemplateEdits(value, "$&", ms, cursor), cursor) == value[cursor..]
    decreases ms
  {
    hide Substitute;
    if ms != [] {
      var m := ms[0];
      EchoIsMatch(value, m);
      EchoSplices(value, ms[1..], m.End());
      var edits := TemplateEdits(value, "$&", ms, cursor);
      assert edits[1..] == TemplateEdits(value, "$&", ms[1..], m.End());
      assert value[cursor..m.index] + value[m.index..m.End()] + value[m.End()..] == value[cursor..];
    }
  }

  /** With the replacement `$&` a secret-value pass of `redactString` changes nothing, whatever its pattern finds. */
  lemma EchoKeepsSecrets(policy: Policy, k: nat, value: string)
    requires Lawful(policy) && k < |policy.secretValues|
    ensures PlainText(policy, "$&", SecretValue(k), value) == value
  {
    hide Splice, TemplateEdits, StageText, Lawful;
    LawfulValues(policy, k, value);
    EchoSplices(value, policy.secretValues[k](value), 0);
    assert value[0..] == value;
  }

  lemma {:induction false} EchoKeepsAll(policy: Policy, stages: seq<Stage>, n: nat, value: string)
    requires Lawful(policy) && n <= |stages|
    requires forall j :: n <= j < |stages| ==> stages[j].SecretValue? && stages[j].pattern < |policy.secretValues|
    ensures PlainRedacted(policy, "$&", stages, value) == PlainRedacted(policy, "$&", stages[..n], value)
    decreases |stages|
  {
    hide PlainText, Lawful;
    if n == |stages| {
      assert stages[..n] == stages;
    } else {
      var front, last := stages[..|stages| - 1], stages[|stages| - 1];
      assert front[..n] == stages[..n];
      EchoKeepsAll(policy, front, n, value);
      EchoKeepsSecrets(policy, last.pattern, PlainRedacted(policy, "$&", front, value));
      assert last == SecretValue(last.pattern);
    }
  }

  /**
   `redactString` with `$&` stops at the text before its secret-value passes, with the code's own tables as with any.
   */
  lemma EchoSkipsSecretPasses(policy: Policy, value: string)
    requires Lawful(policy)
    ensures PlainRedacted(policy, "$&", Stages(policy), value)
            == PlainRedacted(policy, "$&", Stages(policy)[..14], value)
  {
    hide PlainRedacted, Lawful;
    EchoKeepsAll(policy, Stages(policy), 14, value);
  }
}
