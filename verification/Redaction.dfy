/**
 The two pipelines of contract/redaction.ts over the same passes: `redactString`, which only
 returns text, and `traceRedactString`, which also reports spans of the original input.
 */
module Redaction {
  import opened Text
  import opened SpanTrace
  import opened Passes
  import opened KeyMaterial
  import opened Assignments

  datatype Stage =
    | KeyBlocks | ArmorBlocks | PuttyKeys | AgeIdentities
    | Quoted(structuredOnly: bool) | Unquoted(structuredOnly: bool) | SingleQuotedYaml
    | AuthorizationField | DigestField | Url | HttpScheme | TokenScheme
    | SecretValue(pattern: nat)

  /** The order in which both pipelines run the passes. */
  function Stages(policy: Policy): seq<Stage> {
    [KeyBlocks, ArmorBlocks, PuttyKeys, AgeIdentities, Quoted(true), Unquoted(true),
     AuthorizationField, DigestField, Url, HttpScheme, TokenScheme,
     Quoted(false), SingleQuotedYaml, Unquoted(false)]
    + seq(|policy.secretValues|, k requires 0 <= k => SecretValue(k))
  }

  /** The edits that a pass must find in `value`. */
  ghost function StageEdits(policy: Policy, replacement: string, stage: Stage, value: string): (edits: seq<Edit>)
    requires Lawful(policy)
    ensures WellFormed(edits, 0, |value|)
    ensures NarrowsOnlyBlanks(value, edits)
  {
    hide KeyBlockEdits, ArmorEdits, MarkedEdits, QuotedEdits, UnquotedEdits, YamlEdits, FieldEdits, UrlEdits,
         SchemeEdits, ValueEdits, WellFormed, Families, Lawful;
    match stage
    case KeyBlocks => KeyBlockEdits(value, replacement, 0)
    case ArmorBlocks => ArmorEdits(value, replacement, Families(), 0, Zeros(3))
    case PuttyKeys => MarkedEdits(Putty, value, replacement, 0)
    case AgeIdentities => MarkedEdits(Age, value, replacement, 0)
    case Quoted(structuredOnly) => QuotedEdits(policy, value, replacement, structuredOnly, 0)
    case Unquoted(structuredOnly) => UnquotedEdits(policy, value, replacement, structuredOnly, 0, 0)
    case SingleQuotedYaml => YamlEdits(policy, value, replacement, 0)
    case AuthorizationField => LawfulAt(policy, value);
      FieldEdits(value, replacement, policy.authorizationFields(value), 0)
    case DigestField => LawfulAt(policy, value); FieldEdits(value, replacement, policy.digestFields(value), 0)
    case Url => UrlEdits(value, replacement, 0, 0)
    case HttpScheme =>
      LawfulAt(policy, value);
      SchemesNarrowBlanks(value, replacement, policy.httpSchemes(value), 0);
      SchemeEdits(value, replacement, policy.httpSchemes(value), 0)
    case TokenScheme =>
      LawfulAt(policy, value);
      SchemesNarrowBlanks(value, replacement, policy.tokenSchemes(value), 0);
      SchemeEdits(value, replacement, policy.tokenSchemes(value), 0)
    case SecretValue(k) =>
      if k >= |policy.secretValues| then NothingFits(0, |value|); []
      else LawfulValues(policy, k, value); ValueEdits(replacement, policy.secretValues[k](value), 0, |value|)
  }

  lemma LawfulAt(policy: Policy, value: string)
    requires Lawful(policy)
    ensures FieldMatches(value, policy.authorizationFields(value)) && FieldMatches(value, policy.digestFields(value))
    ensures OrderedSchemes(policy.httpSchemes(value), 0, |value|)
            && OrderedSchemes(policy.tokenSchemes(value), 0, |value|)
  {
  }

  // ----- what narrowing may drop -----

  ghost predicate DropsBlanks(value: string, e: Edit) {
    && 0 <= e.start <= e.MaskFrom() <= |value| && e.MaskTo() == e.end
    && forall k :: e.start <= k < e.MaskFrom() ==> IsWhitespace(value[k])
  }

  ghost predicate NarrowsOnlyBlanks(value: string, edits: seq<Edit>) {
    forall k :: 0 <= k < |edits| && (edits[k].maskStart.Some? || edits[k].maskEnd.Some?)
      ==> DropsBlanks(value, edits[k])
  }

  lemma {:induction false} SchemesNarrowBlanks(value: string, replacement: string, ms: seq<SchemeMatch>, cursor: nat)
    requires OrderedSchemes(ms, cursor, |value|)
    ensures NarrowsOnlyBlanks(value, SchemeEdits(value, replacement, ms, cursor))
    decreases ms
  {
    if ms != [] {
      SchemesNarrowBlanks(value, replacement, ms[1..], ms[0].End());
      assert DropsBlanks(value, SchemeEdit(value, ms[0], replacement));
    }
  }

  /** A survivor that an edit replaces without reporting was whitespace in the original. */
  lemma {:induction false} DroppedAreBlank(original: string, value: string, idx: seq<int>, edits: seq<Edit>, from: nat)
    requires Aligned(original, value, idx) && from <= |idx| && WellFormed(edits, from, |idx|)
    requires NarrowsOnlyBlanks(value, edits)
    ensures forall i :: i in Removed(idx, edits, from) && i !in Masked(idx, edits, from) ==>
              0 <= i < |original| && IsWhitespace(original[i])
  {
    if edits != [] {
      var e := edits[0];
      assert NarrowsOnlyBlanks(value, edits[1..]);
      DroppedAreBlank(original, value, idx, edits[1..], e.end);
      assert DropsBlanks(value, e);
      forall i | i in Alive(idx[e.start..e.end])
        ensures i in Alive(idx[e.MaskFrom()..e.MaskTo()]) || (0 <= i < |original| && IsWhitespace(original[i]))
      {
        var k :| e.start <= k < e.end && idx[k] == i;
        if e.MaskFrom() <= k { assert idx[e.MaskFrom()..e.MaskTo()][k - e.MaskFrom()] == i; }
        else { assert IsWhitespace(value[k]); }
      }
      forall i | i in Removed(idx, edits, from) && i !in Masked(idx, edits, from)
        ensures 0 <= i < |original| && IsWhitespace(original[i])
      {
        assert i !in Masked(idx, edits[1..], e.end) && i !in Alive(idx[e.MaskFrom()..e.MaskTo()]);
        assert i in Alive(idx[e.start..e.end]) || i in Removed(idx, edits[1..], e.end);
      }
    }
  }

  // ----- the traced pipeline -----

  ghost function StageText(policy: Policy, replacement: string, stage: Stage, value: string): string
    requires Lawful(policy)
  {
    Splice(value, StageEdits(policy, replacement, stage, value), 0)
  }

  /** The text after the given passes. */
  ghost function Redacted(policy: Policy, replacement: string, stages: seq<Stage>, value: string): string
    requires Lawful(policy)
    decreases stages
  {
    hide StageText;
    if stages == [] then value
    else StageText(policy, replacement, stages[|stages| - 1],
                   Redacted(policy, replacement, stages[..|stages| - 1], value))
  }

  method RunStage(policy: Policy, replacement: string, stage: Stage, value: string)
    returns (text: string, edits: seq<Edit>)
    requires Lawful(policy)
    ensures edits == StageEdits(policy, replacement, stage, value)
    ensures text == StageText(policy, replacement, stage, value)
  {
    hide KeyBlockEdits, ArmorEdits, MarkedEdits, QuotedEdits, UnquotedEdits, YamlEdits, FieldEdits, UrlEdits,
         SchemeEdits, ValueEdits, WellFormed, Families, Lawful;
    match stage
    case KeyBlocks => text, edits := RedactPrivateKeyBlocks(value, replacement);
    case ArmorBlocks => text, edits := RedactPrivateArmorBlocks(value, replacement, Families());
    case PuttyKeys => text, edits := RedactMarked(Putty, value, replacement);
    case AgeIdentities => text, edits := RedactMarked(Age, value, replacement);
    case Quoted(structuredOnly) => text, edits := RedactQuotedAssignments(policy, value, replacement, structuredOnly);
    case Unquoted(structuredOnly) =>
      text, edits := RedactUnquotedAssignments(policy, value, replacement, structuredOnly);
    case SingleQuotedYaml => text, edits := RedactSingleQuotedYaml(policy, value, replacement);
    case AuthorizationField => LawfulAt(policy, value);
      text, edits := RedactCredentialFields(value, replacement, policy.authorizationFields(value));
    case DigestField => LawfulAt(policy, value);
      text, edits := RedactCredentialFields(value, replacement, policy.digestFields(value));
    case Url => text, edits := RedactUrlCredentials(value, replacement);
    case HttpScheme => LawfulAt(policy, value);
      text, edits := ReplaceSchemes(value, replacement, policy.httpSchemes(value));
    case TokenScheme => LawfulAt(policy, value);
      text, edits := ReplaceSchemes(value, replacement, policy.tokenSchemes(value));
    case SecretValue(k) =>
      if k >= |policy.secretValues| {
        text, edits := value, [];
      } else {
        LawfulValues(policy, k, value);
        text, edits := ReplaceValues(value, replacement, policy.secretValues[k](value));
      }
  }

  /** Every original position that neither survives nor is reported held whitespace. */
  ghost predicate LosesOnlyBlanks(s: State) {
    forall i :: i in Lost(s) ==> 0 <= i < |s.original| && IsWhitespace(s.original[i])
  }

  /** One traced step never fails closed and loses only whitespace. */
  lemma StageKeeps(policy: Policy, replacement: string, stage: Stage, s: State)
    requires Lawful(policy)
    requires !s.failed && Coherent(s) && LosesOnlyBlanks(s)
    ensures var next := StageText(policy, replacement, stage, s.value);
            var edits := StageEdits(policy, replacement, stage, s.value);
            && Faithful(s.value, next, edits)
            && Coherent(Applied(s, next, edits)) && LosesOnlyBlanks(Applied(s, next, edits))
  {
    hide StageEdits, WellFormed, Coherent, Splice, Removed, Masked, Lost, NarrowsOnlyBlanks;
    var next, edits := StageText(policy, replacement, stage, s.value), StageEdits(policy, replacement, stage, s.value);
    CoherentAligned(s);
    DroppedAreBlank(s.original, s.value, s.indices, edits, 0);
    ApplyKeeps(s, next, edits);
  }

  lemma CoherentAligned(s: State)
    requires Coherent(s)
    ensures Aligned(s.original, s.value, s.indices) && |s.indices| == |s.value|
  {
  }

  /** The trace never fails closed, ends in the redacted text, and accounts for every original character. */
  method TraceRedactString(policy: Policy, replacement: string, value: string) returns (trace: OriginalSpanTrace)
    requires Lawful(policy)
    ensures fresh(trace) && trace.Valid() && trace.original == value
    ensures !trace.failed
    ensures trace.value == Redacted(policy, replacement, Stages(policy), value)
    ensures LosesOnlyBlanks(trace.View())
  {
    hide StageEdits, StageText, Coherent, LosesOnlyBlanks, Applied, Faithful, Lost;
    trace := new OriginalSpanTrace(value);
    StartCoherent(value);
    assert LosesOnlyBlanks(Start(value)) by { StartLosesNothing(value); }
    var stages := Stages(policy);
    for k := 0 to |stages|
      invariant fresh(trace) && fresh(trace.indices) && trace.Valid() && trace.original == value && !trace.failed
      invariant trace.value == Redacted(policy, replacement, stages[..k], value)
      invariant Coherent(trace.View()) && LosesOnlyBlanks(trace.View())
    {
      ghost var before := trace.View();
      StageKeeps(policy, replacement, stages[k], before);
      var text, edits := RunStage(policy, replacement, stages[k], trace.value);
      AppliedFaithful(before, text, edits);
      trace.Apply(text, edits);
      assert stages[..k + 1][..k] == stages[..k];
    }
    assert stages[..|stages|] == stages;
  }

  lemma StartLosesNothing(value: string)
    ensures LosesOnlyBlanks(Start(value))
  {
    StartCoherent(value);
  }

  lemma AppliedFaithful(s: State, next: string, edits: seq<Edit>)
    requires |s.indices| == |s.value| && !s.failed && Faithful(s.value, next, edits)
    ensures !Applied(s, next, edits).failed && Applied(s, next, edits).value == next
    ensures Applied(s, next, edits).original == s.original
  {
  }

  // ----- the plain pipeline and its `$` patterns -----

  /** GetSubstitution for a pattern without capture groups. */
  function Substitute(template: string, value: string, m: Match): string
    requires m.End() <= |value|
  {
    if |template| < 2 then template
    else if template[0] != '$' then [template[0]] + Substitute(template[1..], value, m)
    else match template[1]
      case '$' => "$" + Substitute(template[2..], value, m)
      case '&' => value[m.index..m.End()] + Substitute(template[2..], value, m)
      case '`' => value[..m.index] + Substitute(template[2..], value, m)
      case '\'' => value[m.End()..] + Substitute(template[2..], value, m)
      case _ => "$" + Substitute(template[1..], value, m)
  }

  predicate IsSpecial(c: char) { c in "$&`'" }

  /** The replacement holds no `$` pattern. */
  predicate Inert(template: string) {
    forall k :: 0 <= k < |template| - 1 && template[k] == '$' ==> !IsSpecial(template[k + 1])
  }

  lemma {:induction false} InertSubstitutes(template: string, value: string, m: Match)
    requires m.End() <= |value| && Inert(template)
    ensures Substitute(template, value, m) == template
    decreases template
  {
    if |template| >= 2 {
      assert template[0] == '$' ==> !IsSpecial(template[1]);
      assert forall k :: 0 <= k < |template[1..]| ==> template[1..][k] == template[k + 1];
      InertSubstitutes(template[1..], value, m);
      assert [template[0]] + template[1..] == template;
    }
  }

  /** A `$` pattern that inserts text, as the left-to-right scan meets it. */
  predicate Inserts(template: string) {
    if |template| < 2 then false
    else if template[0] == '$' && IsSpecial(template[1]) then template[1] != '$' || Inserts(template[2..])
    else Inserts(template[1..])
  }

  lemma {:induction false} NotInertChanges(template: string, value: string, m: Match, long: nat)
    requires m.End() <= |value| && long <= m.index && long <= m.length && long <= |value| - m.End()
    ensures Inserts(template) ==> long <= |Substitute(template, value, m)|
    ensures !Inserts(template) ==> |Substitute(template, value, m)| <= |template|
    ensures !Inserts(template) && !Inert(template) ==> |Substitute(template, value, m)| < |template|
    decreases template
  {
    if |template| >= 2 {
      if template[0] == '$' && IsSpecial(template[1]) {
        NotInertChanges(template[2..], value, m, long);
      } else {
        NotInertChanges(template[1..], value, m, long);
        assert forall k :: 0 <= k < |template[1..]| ==> template[1..][k] == template[k + 1];
      }
    }
  }

  /** String replacement leaves the replacement unchanged on every input exactly when it is inert. */
  lemma SubstituteIdentityIff(template: string)
    ensures (forall value, m: Match :: m.End() <= |value| ==> Substitute(template, value, m) == template)
            <==> Inert(template)
  {
    if Inert(template) {
      forall value, m: Match | m.End() <= |value| ensures Substitute(template, value, m) == template {
        InertSubstitutes(template, value, m);
      }
    } else {
      var long := |template| + 1;
      var value, m := seq(3 * long, _ => 'x'), Match(long, long);
      NotInertChanges(template, value, m, long);
      assert m.End() <= |value| && Substitute(template, value, m) != template;
    }
  }

  /** `value.replace(pattern, template)` as edits. */
  function TemplateEdits(value: string, template: string, ms: seq<Match>, cursor: nat): (edits: seq<Edit>)
    requires Ordered(ms, cursor, |value|)
    ensures WellFormed(edits, cursor, |value|)
    decreases ms
  {
    if ms == [] then []
    else [Mask(ms[0].index, ms[0].End(), Substitute(template, value, ms[0]))]
         + TemplateEdits(value, template, ms[1..], ms[0].End())
  }

  lemma {:induction false} TemplateEditsInert(value: string, template: string, ms: seq<Match>, cursor: nat)
    requires Ordered(ms, cursor, |value|) && Inert(template)
    ensures TemplateEdits(value, template, ms, cursor) == ValueEdits(template, ms, cursor, |value|)
    decreases ms
  {
    if ms != [] {
      InertSubstitutes(template, value, ms[0]);
      TemplateEditsInert(value, template, ms[1..], ms[0].End());
    }
  }

  method ReplaceTemplate(value: string, template: string, ms: seq<Match>) returns (text: string)
    requires Ordered(ms, 0, |value|)
    ensures text == Splice(value, TemplateEdits(value, template, ms, 0), 0)
  {
    hide *;
    EmittedStart(value);
    var chunks: seq<string>, cursor := [], 0;
    var edits: seq<Edit> := [];
    assert ms[0..] == ms;
    for k := 0 to |ms|
      invariant 0 <= cursor <= |value| && Ordered(ms[k..], cursor, |value|) && Emitted(value, chunks, edits, cursor)
      invariant edits + TemplateEdits(value, template, ms[k..], cursor) == TemplateEdits(value, template, ms, 0)
    {
      TemplateStep(value, template, ms, k, edits, cursor);
      chunks, edits, cursor := Emit(value, chunks, edits, cursor,
                                    Mask(ms[k].index, ms[k].End(), Substitute(template, value, ms[k])));
    }
    TemplateStop(value, template, ms, edits, cursor);
    text := Finish(value, chunks, edits, cursor);
  }

  lemma TemplateStep(value: string, template: string, ms: seq<Match>, k: nat, done: seq<Edit>, cursor: nat)
    requires k < |ms| && Ordered(ms[k..], cursor, |value|)
    ensures var m := ms[k];
            && m.End() <= |value| && Ordered(ms[k + 1..], m.End(), |value|)
            && var e := Mask(m.index, m.End(), Substitute(template, value, m));
               && EditFits(e, cursor, |value|) && 0 < e.end == m.End()
               && done + TemplateEdits(value, template, ms[k..], cursor)
                  == done + [e] + TemplateEdits(value, template, ms[k + 1..], m.End())
  {
    hide Substitute, WellFormed;
    var m := ms[k];
    assert ms[k..][0] == m && ms[k..][1..] == ms[k + 1..];
    Shift(done, Mask(m.index, m.End(), Substitute(template, value, m)),
          TemplateEdits(value, template, ms[k + 1..], m.End()));
  }

  lemma TemplateStop(value: string, template: string, ms: seq<Match>, done: seq<Edit>, cursor: nat)
    requires Ordered(ms[|ms|..], cursor, |value|)
    ensures done + TemplateEdits(value, template, ms[|ms|..], cursor) == done
  {
  }

  /** The plain pipeline: the last passes replace by template, all others as the trace does. */
  ghost function PlainText(policy: Policy, replacement: string, stage: Stage, value: string): string
    requires Lawful(policy)
  {
    hide StageText;
    if stage.SecretValue? && stage.pattern < |policy.secretValues| then
      LawfulValues(policy, stage.pattern, value);
      Splice(value, TemplateEdits(value, replacement, policy.secretValues[stage.pattern](value), 0), 0)
    else StageText(policy, replacement, stage, value)
  }

  ghost function PlainRedacted(policy: Policy, replacement: string, stages: seq<Stage>, value: string): string
    requires Lawful(policy)
    decreases stages
  {
    hide PlainText;
    if stages == [] then value
    else PlainText(policy, replacement, stages[|stages| - 1],
                   PlainRedacted(policy, replacement, stages[..|stages| - 1], value))
  }

  /** `redactString`. */
  method RedactString(policy: Policy, replacement: string, value: string) returns (text: string)
    requires Lawful(policy)
    ensures text == PlainRedacted(policy, replacement, Stages(policy), value)
  {
    hide StageEdits, PlainRedacted, StageText, Splice, Lawful;
    text := value;
    var stages := Stages(policy);
    PlainNone(policy, replacement, stages, value);
    for k := 0 to |stages|
      invariant text == PlainRedacted(policy, replacement, stages[..k], value)
    {
      PlainStep(policy, replacement, stages, k, value);
      if stages[k].SecretValue? && stages[k].pattern < |policy.secretValues| {
        LawfulValues(policy, stages[k].pattern, text);
        text := ReplaceTemplate(text, replacement, policy.secretValues[stages[k].pattern](text));
      } else {
        var edits;
        text, edits := RunStage(policy, replacement, stages[k], text);
      }
    }
    assert stages[..|stages|] == stages;
  }

  lemma PlainNone(policy: Policy, replacement: string, stages: seq<Stage>, value: string)
    requires Lawful(policy)
    ensures PlainRedacted(policy, replacement, stages[..0], value) == value
  {
  }

  lemma PlainStep(policy: Policy, replacement: string, stages: seq<Stage>, k: nat, value: string)
    requires Lawful(policy) && k < |stages|
    ensures PlainRedacted(policy, replacement, stages[..k + 1], value)
            == PlainText(policy, replacement, stages[k], PlainRedacted(policy, replacement, stages[..k], value))
  {
    hide PlainText, Lawful;
    assert stages[..k + 1][..k] == stages[..k];
  }

  lemma LawfulValues(policy: Policy, k: nat, value: string)
    requires Lawful(policy) && k < |policy.secretValues|
    ensures Ordered(policy.secretValues[k](value), 0, |value|)
  {
  }

  lemma SecretStage(policy: Policy, replacement: string, k: nat, value: string)
    requires Lawful(policy) && k < |policy.secretValues|
    ensures StageText(policy, replacement, SecretValue(k), value)
            == Splice(value, (LawfulValues(policy, k, value);
                              ValueEdits(replacement, policy.secretValues[k](value), 0, |value|)), 0)
  {
    hide KeyBlockEdits, ArmorEdits, MarkedEdits, QuotedEdits, UnquotedEdits, YamlEdits, FieldEdits, UrlEdits,
         SchemeEdits, ValueEdits, WellFormed, Families, Lawful;
  }
}
