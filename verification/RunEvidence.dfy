/**
 * Run execution evidence (contract/runs.ts): the closed-shape check at the boundary between the runner and the core.
 * An accepted value has exactly the declared keys, and the evidence built from it carries the same data.
 */
module RunEvidence {
  import opened Text
  import opened Order
  import opened CanonicalJson
  import opened ClosedRecords
  import Events = BackgroundEvents

  // ----- scalars -----

  predicate IsHex(c: char) { '0' <= c <= '9' || 'a' <= c <= 'f' }

  predicate IsDigest(s: string) { |s| == 71 && s[..7] == "sha256:" && forall k :: 7 <= k < 71 ==> IsHex(s[k]) }

  function Digest(v: Value): (s: Option<string>)
    ensures s.Some? ==> v == Str(s.value) && IsDigest(s.value)
  {
    if v.Str? && IsDigest(v.chars) then Some(v.chars) else None
  }

  function Token(v: Value): (s: Option<string>)
    ensures s.Some? ==> v == Str(s.value)
  {
    Events.Token(v)
  }

  function Positive(v: Value): (n: Option<nat>)
    ensures n.Some? ==> v == Finite(Decimal(n.value)) && n.value >= 1
  {
    Events.Integer(v, 1, Events.MAX_SAFE_INTEGER)
  }

  // ----- artifacts and providers -----

  const ARTIFACT_KEYS := ["digest", "immutable"]

  /** `assertRunExecutionArtifact`. */
  function ParseArtifact(v: Value): Option<string> {
    var r :- Exact(v, ARTIFACT_KEYS);
    if Get(r, "immutable") != Bool(true) then None else Digest(Get(r, "digest"))
  }

  function ArtifactValue(digest: string): Value { Record(ARTIFACT_KEYS, [Str(digest), Bool(true)]) }

  datatype Provider = Provider(source: string, digest: string)

  const PROVIDER_KEYS := ["source", "digest", "attested"]

  function ParseProvider(v: Value): Option<Provider> {
    var r :- Exact(v, PROVIDER_KEYS);
    if Get(r, "attested") != Bool(true) then None
    else
      var source :- Token(Get(r, "source"));
      var digest :- Digest(Get(r, "digest"));
      Some(Provider(source, digest))
  }

  function ProviderValue(p: Provider): Value { Record(PROVIDER_KEYS, [Str(p.source), Str(p.digest), Bool(true)]) }

  function ParseProviders(vs: seq<Value>): (ps: Option<seq<Provider>>)
    ensures ps.Some? ==> |ps.value| == |vs| && forall k :: 0 <= k < |vs| ==> ParseProvider(vs[k]) == Some(ps.value[k])
    ensures ps.None? ==> exists k :: 0 <= k < |vs| && ParseProvider(vs[k]).None?
  {
    if vs == [] then Some([])
    else
      var first, rest := ParseProvider(vs[0]), ParseProviders(vs[1..]);
      if first.None? then None
      else if rest.None? then
        var k :| 0 <= k < |vs[1..]| && ParseProvider(vs[1..][k]).None?;
        assert ParseProvider(vs[k + 1]).None?;
        None
      else Some([first.value] + rest.value)
  }

  function ProviderValues(ps: seq<Provider>): (vs: seq<Value>)
    ensures |vs| == |ps| && forall k :: 0 <= k < |ps| ==> vs[k] == ProviderValue(ps[k])
  {
    seq(|ps|, k requires 0 <= k < |ps| => ProviderValue(ps[k]))
  }

  /** By source, then by digest. */
  predicate Later(a: Provider, b: Provider) {
    Less(b.source, a.source) || (a.source == b.source && Less(b.digest, a.digest))
  }

  /** No provider stands before one that it is later than. */
  predicate Ascending(ps: seq<Provider>) { forall i, j :: 0 <= i < j < |ps| ==> !Later(ps[i], ps[j]) }

  lemma NotLaterTransitive(a: Provider, b: Provider, c: Provider)
    requires !Later(a, b) && !Later(b, c)
    ensures !Later(a, c)
  {
    hide Less;
    LessTotal(a.source, b.source);
    LessTotal(b.source, c.source);
    LessTotal(a.source, c.source);
    LessTotal(a.digest, b.digest);
    LessTotal(b.digest, c.digest);
    LessTotal(a.digest, c.digest);
    if Less(a.source, b.source) && Less(b.source, c.source) { LessTransitive(a.source, b.source, c.source); }
    if Less(a.digest, b.digest) && Less(b.digest, c.digest) { LessTransitive(a.digest, b.digest, c.digest); }
  }

  /** The loop over neighbours decides whether the whole list is ascending. */
  method ProvidersSorted(ps: seq<Provider>) returns (sorted: bool)
    ensures sorted == Ascending(ps)
  {
    hide Later;
    var index := 1;
    while index < |ps|
      invariant 1 <= index && (index <= |ps| || |ps| == 0)
      invariant forall i, j :: 0 <= i < j < index && j < |ps| ==> !Later(ps[i], ps[j])
    {
      if Later(ps[index - 1], ps[index]) { return false; }
      forall i | 0 <= i < index ensures !Later(ps[i], ps[index]) {
        if i < index - 1 { NotLaterTransitive(ps[i], ps[index - 1], ps[index]); }
      }
      index := index + 1;
    }
    sorted := true;
  }

  // ----- authority -----

  datatype Authority = Authority(controller: string, runner: string, profileId: string, executorId: string,
                                 executor: string, providers: seq<Provider>)

  const AUTHORITY_KEYS := ["controllerArtifact", "runnerArtifact", "runnerProfileId", "executorId", "executorArtifact",
                           "providerArtifacts"]

  /** `assertRunExecutionAuthority`. */
  function ParseAuthority(v: Value): Option<Authority> {
    var r :- Exact(v, AUTHORITY_KEYS);
    var list := Get(r, "providerArtifacts");
    if !list.Arr? then None
    else
      var providers :- ParseProviders(list.items);
      if !Ascending(providers) then None
      else
        var controller :- ParseArtifact(Get(r, "controllerArtifact"));
        var runner :- ParseArtifact(Get(r, "runnerArtifact"));
        var profileId :- Token(Get(r, "runnerProfileId"));
        var executorId :- Token(Get(r, "executorId"));
        var executor :- ParseArtifact(Get(r, "executorArtifact"));
        Some(Authority(controller, runner, profileId, executorId, executor, providers))
  }

  function AuthorityValues(a: Authority): seq<Value> {
    [ArtifactValue(a.controller), ArtifactValue(a.runner), Str(a.profileId), Str(a.executorId),
     ArtifactValue(a.executor), Arr(ProviderValues(a.providers))]
  }

  function AuthorityValue(a: Authority): Value { Record(AUTHORITY_KEYS, AuthorityValues(a)) }

  // ----- commits -----

  datatype Commit = Destroyed(state: Option<string>) | StateOnly(stateId: string)
    | Output(stateId: string, outputId: string)

  const OUTPUT_KEYS := ["stateVersionId", "outputId"]

  function KeyText(props: seq<Entry<Value>>): string { Join(SortUnique(Keys(props)), ',') }

  /** `assertRunExecutionCommit`. */
  function ParseCommit(v: Value): Option<Commit> {
    if !v.Obj? then None
    else if Get(v.props, "destroyed") == Bool(true) then
      var state := Get(v.props, "stateVersionId");
      if KeyText(v.props) != "destroyed" && KeyText(v.props) != "destroyed,stateVersionId" then None
      else if state == Undefined then Some(Destroyed(None))
      else
        var id :- Token(state);
        Some(Destroyed(Some(id)))
    else if KeyText(v.props) == "stateVersionId" then
      var id :- Token(Get(v.props, "stateVersionId"));
      Some(StateOnly(id))
    else
      var r :- Exact(v, OUTPUT_KEYS);
      var id :- Token(Get(r, "stateVersionId"));
      var outputId :- Token(Get(r, "outputId"));
      Some(Output(id, outputId))
  }

  function CommitKeys(c: Commit): seq<string> {
    match c
    case Destroyed(None) => ["destroyed"]
    case Destroyed(Some(_)) => ["destroyed", "stateVersionId"]
    case StateOnly(_) => ["stateVersionId"]
    case Output(_, _) => OUTPUT_KEYS
  }

  function CommitValues(c: Commit): (vs: seq<Value>)
    ensures |vs| == |CommitKeys(c)|
  {
    match c
    case Destroyed(None) => [Bool(true)]
    case Destroyed(Some(id)) => [Bool(true), Str(id)]
    case StateOnly(id) => [Str(id)]
    case Output(id, outputId) => [Str(id), Str(outputId)]
  }

  function CommitValue(c: Commit): Value { Record(CommitKeys(c), CommitValues(c)) }

  // ----- evidence -----

  datatype Evidence = Evidence(runId: string, planRunId: string, action: string, outcome: string, authority: Authority,
                               planDigest: string, artifactDigest: string, commit: Commit,
                               operationId: string, version: nat, fence: nat, committedAt: string)

  const FORMAT := "takosumi.run-execution-evidence/v1"
  const EVIDENCE_KEYS := ["format", "runId", "planRunId", "action", "outcome", "authority", "plan", "commit",
                          "receipt", "committedAt"]
  const PLAN_KEYS := ["digest", "artifactDigest"]
  const RECEIPT_KEYS := ["operationId", "version", "fence"]

  function ParsePlan(v: Value): Option<(string, string)> {
    var r :- Exact(v, PLAN_KEYS);
    var digest :- Digest(Get(r, "digest"));
    var artifact :- Digest(Get(r, "artifactDigest"));
    Some((digest, artifact))
  }

  function PlanValue(digest: string, artifact: string): Value { Record(PLAN_KEYS, [Str(digest), Str(artifact)]) }

  function ParseReceipt(v: Value): Option<(string, nat, nat)> {
    var r :- Exact(v, RECEIPT_KEYS);
    var operationId :- Token(Get(r, "operationId"));
    var version :- Positive(Get(r, "version"));
    var fence :- Positive(Get(r, "fence"));
    Some((operationId, version, fence))
  }

  function ReceiptValue(operationId: string, version: nat, fence: nat): Value {
    Record(RECEIPT_KEYS, [Str(operationId), Finite(Decimal(version)), Finite(Decimal(fence))])
  }

  function OneOf(v: Value, texts: seq<string>): (s: Option<string>)
    ensures s.Some? ==> v == Str(s.value) && s.value in texts
  {
    if v.Str? && v.chars in texts then Some(v.chars) else None
  }

  /** `assertRunExecutionEvidence`; None is the TypeError. */
  function ParseEvidence(isTime: string -> bool, v: Value): Option<Evidence> {
    var r :- Exact(v, EVIDENCE_KEYS);
    if Get(r, "format") != Str(FORMAT) then None
    else
      var runId :- Token(Get(r, "runId"));
      var planRunId :- Token(Get(r, "planRunId"));
      var action :- OneOf(Get(r, "action"), ["apply", "destroy"]);
      var outcome :- OneOf(Get(r, "outcome"), ["committed", "provider_failed_state_persisted"]);
      var authority :- ParseAuthority(Get(r, "authority"));
      var plan :- ParsePlan(Get(r, "plan"));
      var commit :- ParseCommit(Get(r, "commit"));
      var receipt :- ParseReceipt(Get(r, "receipt"));
      var committedAt :- Events.Time(isTime, Get(r, "committedAt"));
      Some(Evidence(runId, planRunId, action, outcome, authority, plan.0, plan.1, commit, receipt.0, receipt.1,
                    receipt.2, committedAt))
  }

  function EvidenceValues(e: Evidence): seq<Value> {
    [Str(FORMAT), Str(e.runId), Str(e.planRunId), Str(e.action), Str(e.outcome), AuthorityValue(e.authority),
     PlanValue(e.planDigest, e.artifactDigest), CommitValue(e.commit), ReceiptValue(e.operationId, e.version, e.fence),
     Str(e.committedAt)]
  }

  /** The evidence as the object that the check returns. */
  function EvidenceValue(e: Evidence): Value { Record(EVIDENCE_KEYS, EvidenceValues(e)) }

  // ----- closed shapes -----

  lemma ExactShape(v: Value, keys: seq<string>)
    requires keys != [] && Exact(v, keys).Some? && (v.Obj? ==> forall y :: y in keys ==> Get(v.props, y) != Undefined)
    ensures ObjectWith(v, keys) && Exact(v, keys).value == v.props
  {
    hide Join, SortUnique, Get;
    ClosedShape(v, keys);
  }

  lemma ArtifactClosed(v: Value)
    requires ParseArtifact(v).Some?
    ensures ObjectWith(v, ARTIFACT_KEYS)
  {
    hide Exact, Get, ObjectWith, IsDigest;
    ExactIsObject(v, ARTIFACT_KEYS);
    ExactShape(v, ARTIFACT_KEYS);
  }

  lemma ProviderClosed(v: Value)
    requires ParseProvider(v).Some?
    ensures ObjectWith(v, PROVIDER_KEYS)
  {
    hide Exact, Get, ObjectWith, IsDigest;
    ExactIsObject(v, PROVIDER_KEYS);
    ExactShape(v, PROVIDER_KEYS);
  }

  lemma PlanClosed(v: Value)
    requires ParsePlan(v).Some?
    ensures ObjectWith(v, PLAN_KEYS)
  {
    hide Exact, Get, ObjectWith, IsDigest;
    ExactIsObject(v, PLAN_KEYS);
    ExactShape(v, PLAN_KEYS);
  }

  lemma ReceiptClosed(v: Value)
    requires ParseReceipt(v).Some?
    ensures ObjectWith(v, RECEIPT_KEYS)
  {
    hide Exact, Get, ObjectWith, Decimal;
    ExactIsObject(v, RECEIPT_KEYS);
    ExactShape(v, RECEIPT_KEYS);
  }

  ghost predicate AuthorityShape(v: Value) {
    && ObjectWith(v, AUTHORITY_KEYS)
    && ObjectWith(Get(v.props, "controllerArtifact"), ARTIFACT_KEYS)
    && ObjectWith(Get(v.props, "runnerArtifact"), ARTIFACT_KEYS)
    && ObjectWith(Get(v.props, "executorArtifact"), ARTIFACT_KEYS)
    && Get(v.props, "providerArtifacts").Arr?
    && forall p :: p in Get(v.props, "providerArtifacts").items ==> ObjectWith(p, PROVIDER_KEYS)
  }

  lemma AuthorityClosed(v: Value)
    requires ParseAuthority(v).Some?
    ensures AuthorityShape(v)
  {
    hide Exact, Get, HasExactly, ParseArtifact, ParseProvider, ParseProviders, Ascending;
    ExactIsObject(v, AUTHORITY_KEYS);
    ArtifactClosed(Get(v.props, "controllerArtifact"));
    ArtifactClosed(Get(v.props, "runnerArtifact"));
    ArtifactClosed(Get(v.props, "executorArtifact"));
    ExactShape(v, AUTHORITY_KEYS);
    var items := Get(v.props, "providerArtifacts").items;
    forall p | p in items ensures ObjectWith(p, PROVIDER_KEYS) {
      var k :| 0 <= k < |items| && items[k] == p;
      assert ParseProvider(items[k]).Some?;
      ProviderClosed(p);
    }
  }

  lemma CommaBetween(list: seq<string>)
    ensures |list| > 1 ==> ',' in Join(list, ',')
  {
    if |list| > 1 { assert Join(list, ',')[|list[0]|] == ','; }
  }

  /** A joined text without commas has one part. */
  lemma OnePart(list: seq<string>, text: string)
    requires Join(list, ',') == text && text != "" && ',' !in text
    ensures list == [text]
  {
    CommaBetween(list);
  }

  lemma OnlyComma(a: string, b: string, k: nat)
    requires ',' !in a && ',' !in b && k < |a + [','] + b| && k != |a|
    ensures (a + [','] + b)[k] != ','
  {
    if k < |a| {
      assert (a + [','] + b)[k] == a[k];
    } else {
      assert (a + [','] + b)[k] == b[k - |a| - 1];
    }
  }

  lemma SplitAtComma(a: string, b: string, c: string, d: string)
    requires a + [','] + b == c + [','] + d && ',' !in a && ',' !in b
    ensures a == c && b == d
  {
    var text := a + [','] + b;
    assert text[|c|] == ',';
    assert |c| == |a| by { if |c| != |a| { OnlyComma(a, b, |c|); } }
    assert a == text[..|a|] == c && b == text[|a| + 1..] == d;
  }

  lemma LonePart(list: seq<string>, a: string)
    requires a in list
    ensures |list| == 1 ==> Join(list, ',') == a
  {
  }

  /** A joined text with one comma has the two parts, unless one part spells both. */
  lemma TwoParts(list: seq<string>, a: string, b: string)
    requires Join(list, ',') == a + [','] + b && b != "" && ',' !in a && ',' !in b && a in list
    ensures list == [a, b]
  {
    LonePart(list, a);
    SplitAtComma(a, b, list[0], Join(list[1..], ','));
    OnePart(list[1..], b);
  }

  /** The keys a destroy commit may have: the state id may also be present and undefined. */
  ghost predicate CommitShape(v: Value) {
    || ObjectWith(v, ["destroyed"]) || ObjectWith(v, ["destroyed", "stateVersionId"])
    || ObjectWith(v, ["stateVersionId"]) || ObjectWith(v, OUTPUT_KEYS)
  }

  lemma KeysOfText(props: seq<Entry<Value>>, list: seq<string>)
    requires SortUnique(Keys(props)) == list
    ensures HasExactly(props, list)
  {
  }

  lemma CommitClosed(v: Value)
    requires ParseCommit(v).Some?
    ensures CommitShape(v)
    ensures ParseCommit(v).value.Destroyed? ==>
              ObjectWith(v, ["destroyed"]) || ObjectWith(v, ["destroyed", "stateVersionId"])
    ensures !ParseCommit(v).value.Destroyed? ==> ObjectWith(v, CommitKeys(ParseCommit(v).value))
  {
    hide Exact, Get, HasExactly, SortUnique, Join;
    var keys := SortUnique(Keys(v.props));
    if Get(v.props, "destroyed") == Bool(true) {
      DefinedIsPresent(v.props, "destroyed");
      assert "destroyed" in keys;
      DestroyText();
      if KeyText(v.props) == "destroyed" {
        OnePart(keys, "destroyed");
        KeysOfText(v.props, ["destroyed"]);
      } else {
        TwoParts(keys, "destroyed", "stateVersionId");
        KeysOfText(v.props, ["destroyed", "stateVersionId"]);
      }
    } else if KeyText(v.props) == "stateVersionId" {
      DestroyText();
      OnePart(keys, "stateVersionId");
      KeysOfText(v.props, ["stateVersionId"]);
    } else {
      ExactIsObject(v, OUTPUT_KEYS);
      ExactShape(v, OUTPUT_KEYS);
    }
  }

  lemma DestroyText()
    ensures "destroyed,stateVersionId" == "destroyed" + [','] + "stateVersionId"
    ensures ',' !in "destroyed" && ',' !in "stateVersionId"
  {
  }

  ghost predicate EvidenceShape(v: Value) {
    && ObjectWith(v, EVIDENCE_KEYS)
    && AuthorityShape(Get(v.props, "authority"))
    && ObjectWith(Get(v.props, "plan"), PLAN_KEYS)
    && CommitShape(Get(v.props, "commit"))
    && ObjectWith(Get(v.props, "receipt"), RECEIPT_KEYS)
  }

  /** Accepted evidence has a closed shape throughout. */
  lemma EvidenceClosed(isTime: string -> bool, v: Value)
    requires ParseEvidence(isTime, v).Some?
    ensures EvidenceShape(v)
  {
    hide Exact, Get, ObjectWith, AuthorityShape, CommitShape, ParseAuthority, ParsePlan, ParseCommit, ParseReceipt,
         Token, OneOf;
    ExactIsObject(v, EVIDENCE_KEYS);
    AuthorityClosed(Get(v.props, "authority"));
    PlanClosed(Get(v.props, "plan"));
    CommitClosed(Get(v.props, "commit"));
    ReceiptClosed(Get(v.props, "receipt"));
    ParsedAreDefined(v.props);
    ExactShape(v, EVIDENCE_KEYS);
  }

  lemma ParsedAreDefined(r: seq<Entry<Value>>)
    ensures ParseAuthority(Get(r, "authority")).Some? ==> Get(r, "authority") != Undefined
    ensures ParsePlan(Get(r, "plan")).Some? ==> Get(r, "plan") != Undefined
    ensures ParseCommit(Get(r, "commit")).Some? ==> Get(r, "commit") != Undefined
    ensures ParseReceipt(Get(r, "receipt")).Some? ==> Get(r, "receipt") != Undefined
  {
    hide Get;
  }

  // ----- the same data -----

  lemma {:induction false} TidyGet(props: seq<Entry<Value>>, key: string)
    requires forall k :: 0 <= k < |props| ==> Tidy(props[k].value)
    ensures Tidy(Get(props, key))
  {
    if props != [] {
      TidyGet(props[1..], key);
    }
  }

  lemma TidyMember(v: Value, key: string)
    requires Tidy(v) && v.Obj?
    ensures Distinct(v.props) && Tidy(Get(v.props, key))
  {
    TidyGet(v.props, key);
  }

  ghost predicate SameData(v: Value, w: Value) { Denote(v).Some? && Denote(v) == Denote(w) }

  lemma ScalarData(v: Value)
    requires v.Str? || v.Bool? || v.Finite?
    ensures SameData(v, v)
  {
  }

  lemma DefinedData(v: Value, w: Value)
    requires SameData(v, w)
    ensures v != Undefined && w != Undefined
  {
  }

  /** An object whose defined properties are the listed ones has the data of the record that lists them. */
  ghost predicate Covers(props: seq<Entry<Value>>, keys: seq<string>, values: seq<Value>)
    requires |keys| == |values|
  {
    && (forall p :: p in props && p.value != Undefined ==> p.key in keys)
    && (forall k :: 0 <= k < |keys| ==> SameData(Get(props, keys[k]), values[k]))
  }

  lemma GetMember(props: seq<Entry<Value>>, p: Entry<Value>)
    requires Distinct(props) && p in props
    ensures Get(props, p.key) == p.value
  {
    var k :| 0 <= k < |props| && props[k] == p;
    GetAt(props, k);
  }

  lemma {:induction false} GetIsMember(props: seq<Entry<Value>>, key: string)
    requires Get(props, key) != Undefined
    ensures Entry(key, Get(props, key)) in props
  {
    if props[0].key != key {
      GetIsMember(props[1..], key);
      assert Entry(key, Get(props, key)) in props[1..];
    } else {
      assert props[0] == Entry(key, Get(props, key));
    }
  }

  lemma CoveredMembers(props: seq<Entry<Value>>, keys: seq<string>, values: seq<Value>, e: Entry<Json>)
    requires Distinct(props) && AllDistinct(keys) && |keys| == |values| && Covers(props, keys, values)
    ensures Defines(props, e) <==> Defines(Record(keys, values).props, e)
  {
    hide Denote, Get;
    var record := Record(keys, values).props;
    if Defines(props, e) {
      var p :| p in props && p.value != Undefined && Denote(p.value) == Some(e.value) && p.key == e.key;
      var k :| 0 <= k < |keys| && keys[k] == p.key;
      GetMember(props, p);
      DefinedData(p.value, values[k]);
      assert record[k] == Entry(keys[k], values[k]) && record[k] in record;
    }
    if Defines(record, e) {
      var p :| p in record && p.value != Undefined && Denote(p.value) == Some(e.value) && p.key == e.key;
      var k :| 0 <= k < |record| && record[k] == p;
      DefinedData(Get(props, keys[k]), values[k]);
      GetIsMember(props, keys[k]);
    }
  }

  lemma PropsDenote(props: seq<Entry<Value>>)
    requires forall p :: p in props && p.value != Undefined ==> Denote(p.value).Some?
    ensures DenoteProps(props).Some? && Denote(Obj(props)) == Some(JObject(SortEntries(DenoteProps(props).value)))
  {
    DenotePropsMembers(props);
  }

  lemma RecordData(v: Value, keys: seq<string>, values: seq<Value>)
    requires v.Obj? && Distinct(v.props) && AllDistinct(keys) && |keys| == |values| && Covers(v.props, keys, values)
    ensures SameData(v, Record(keys, values))
  {
    hide Denote, Get, SortEntries, DenoteProps;
    var props, record := v.props, Record(keys, values).props;
    forall p | p in props && p.value != Undefined ensures Denote(p.value).Some? {
      var k :| 0 <= k < |keys| && keys[k] == p.key;
      GetMember(props, p);
    }
    forall p | p in record && p.value != Undefined ensures Denote(p.value).Some? {
      var k :| 0 <= k < |record| && record[k] == p;
    }
    PropsDenote(props);
    PropsDenote(record);
    DenotePropsMembers(props);
    DenotePropsMembers(record);
    DenotePropsDistinct(props);
    assert Distinct(record);
    DenotePropsDistinct(record);
    var x, y := DenoteProps(props).value, DenoteProps(record).value;
    forall e ensures e in x <==> e in y { CoveredMembers(props, keys, values, e); }
    SortIsSorted(x);
    SortIsSorted(y);
    EntriesByMembers(SortEntries(x), SortEntries(y));
  }

  lemma ShapeCovers(v: Value, keys: seq<string>, values: seq<Value>)
    requires ObjectWith(v, keys) && |keys| == |values|
    requires forall k :: 0 <= k < |keys| ==> SameData(Get(v.props, keys[k]), values[k])
    ensures Covers(v.props, keys, values)
  {
    hide SameData, Get;
    forall p | p in v.props && p.value != Undefined ensures p.key in keys { KeyMember(v.props, p.key); }
  }

  lemma ShapedData(v: Value, keys: seq<string>, values: seq<Value>)
    requires Tidy(v) && ObjectWith(v, keys) && AllDistinct(keys) && |keys| == |values|
    requires forall k :: 0 <= k < |keys| ==> SameData(Get(v.props, keys[k]), values[k])
    ensures SameData(v, Record(keys, values))
  {
    hide SameData, Get, ObjectWith, Record, Covers;
    assert v.Obj? && Distinct(v.props) by { ObjectIsDistinct(v, keys); }
    ShapeCovers(v, keys, values);
    RecordData(v, keys, values);
  }

  lemma ObjectIsDistinct(v: Value, keys: seq<string>)
    requires Tidy(v) && ObjectWith(v, keys)
    ensures v.Obj? && Distinct(v.props)
  {
  }

  lemma ArtifactData(v: Value)
    requires Tidy(v) && ParseArtifact(v).Some?
    ensures SameData(v, ArtifactValue(ParseArtifact(v).value))
  {
    hide Exact, Get, ObjectWith, IsDigest, SameData, Record, Tidy;
    ArtifactClosed(v);
    ExactIsObject(v, ARTIFACT_KEYS);
    ScalarData(Get(v.props, "digest"));
    ScalarData(Get(v.props, "immutable"));
    ShapedData(v, ARTIFACT_KEYS, [Str(ParseArtifact(v).value), Bool(true)]);
  }

  lemma ProviderData(v: Value)
    requires Tidy(v) && ParseProvider(v).Some?
    ensures SameData(v, ProviderValue(ParseProvider(v).value))
  {
    hide Exact, Get, ObjectWith, IsDigest, SameData, Record, Tidy;
    ProviderClosed(v);
    ExactIsObject(v, PROVIDER_KEYS);
    ScalarData(Get(v.props, "source"));
    ScalarData(Get(v.props, "digest"));
    ScalarData(Get(v.props, "attested"));
    var p := ParseProvider(v).value;
    ShapedData(v, PROVIDER_KEYS, [Str(p.source), Str(p.digest), Bool(true)]);
  }

  lemma {:induction false} ItemsSame(vs: seq<Value>, ws: seq<Value>)
    requires |vs| == |ws| && forall k :: 0 <= k < |vs| ==> SameData(vs[k], ws[k])
    ensures DenoteItems(vs).Some? && DenoteItems(vs) == DenoteItems(ws)
  {
    hide Denote;
    if vs != [] { ItemsSame(vs[1..], ws[1..]); }
  }

  lemma ArraySame(vs: seq<Value>, ws: seq<Value>)
    requires |vs| == |ws| && forall k :: 0 <= k < |vs| ==> SameData(vs[k], ws[k])
    ensures SameData(Arr(vs), Arr(ws))
  {
    ItemsSame(vs, ws);
  }

  lemma ProvidersData(v: Value)
    requires v.Arr? && Tidy(v) && ParseProviders(v.items).Some?
    ensures SameData(v, Arr(ProviderValues(ParseProviders(v.items).value)))
  {
    hide SameData, ParseProvider, ParseProviders, ProviderValue;
    var ps := ParseProviders(v.items).value;
    var ws := ProviderValues(ps);
    forall k | 0 <= k < |v.items| ensures SameData(v.items[k], ws[k]) { ProviderData(v.items[k]); }
    ArraySame(v.items, ws);
  }

  lemma AuthorityData(v: Value)
    requires Tidy(v) && ParseAuthority(v).Some?
    ensures SameData(v, AuthorityValue(ParseAuthority(v).value))
  {
    hide Exact, Get, ObjectWith, SameData, Record, Tidy, ParseArtifact, ParseProviders, ArtifactValue, ProviderValues,
         Ascending, AllDistinct, AuthorityShape;
    AuthorityIsObject(v);
    ExactIsObject(v, AUTHORITY_KEYS);
    TidyMember(v, "controllerArtifact");
    TidyMember(v, "runnerArtifact");
    TidyMember(v, "executorArtifact");
    TidyMember(v, "providerArtifacts");
    ArtifactData(Get(v.props, "controllerArtifact"));
    ArtifactData(Get(v.props, "runnerArtifact"));
    ScalarData(Get(v.props, "runnerProfileId"));
    ScalarData(Get(v.props, "executorId"));
    ArtifactData(Get(v.props, "executorArtifact"));
    ProvidersData(Get(v.props, "providerArtifacts"));
    AuthorityKeysDistinct();
    ShapedData(v, AUTHORITY_KEYS, AuthorityValues(ParseAuthority(v).value));
  }

  lemma AuthorityIsObject(v: Value)
    requires ParseAuthority(v).Some?
    ensures ObjectWith(v, AUTHORITY_KEYS)
  {
    hide ParseAuthority, ObjectWith;
    AuthorityClosed(v);
  }

  lemma AuthorityKeysDistinct()
    ensures AllDistinct(AUTHORITY_KEYS)
  {
    var k := AUTHORITY_KEYS;
    assert |k[0]| == 18 && |k[1]| == 14 && |k[2]| == 15 && |k[3]| == 10 && |k[4]| == 16 && |k[5]| == 17;
  }

  lemma PlanData(v: Value)
    requires Tidy(v) && ParsePlan(v).Some?
    ensures SameData(v, PlanValue(ParsePlan(v).value.0, ParsePlan(v).value.1))
  {
    hide Exact, Get, ObjectWith, IsDigest, SameData, Record, Tidy;
    PlanClosed(v);
    ExactIsObject(v, PLAN_KEYS);
    ScalarData(Get(v.props, "digest"));
    ScalarData(Get(v.props, "artifactDigest"));
    ShapedData(v, PLAN_KEYS, [Str(ParsePlan(v).value.0), Str(ParsePlan(v).value.1)]);
  }

  lemma ReceiptData(v: Value)
    requires Tidy(v) && ParseReceipt(v).Some?
    ensures var r := ParseReceipt(v).value; SameData(v, ReceiptValue(r.0, r.1, r.2))
  {
    hide Exact, Get, ObjectWith, Decimal, SameData, Record, Tidy;
    ReceiptClosed(v);
    ExactIsObject(v, RECEIPT_KEYS);
    ScalarData(Get(v.props, "operationId"));
    ScalarData(Get(v.props, "version"));
    ScalarData(Get(v.props, "fence"));
    var r := ParseReceipt(v).value;
    ShapedData(v, RECEIPT_KEYS, [Str(r.0), Finite(Decimal(r.1)), Finite(Decimal(r.2))]);
  }

  lemma DestroyCovers(v: Value)
    requires Tidy(v) && ParseCommit(v).Some? && ParseCommit(v).value.Destroyed?
    ensures Covers(v.props, CommitKeys(ParseCommit(v).value), CommitValues(ParseCommit(v).value))
  {
    hide Get, SameData, Join, SortUnique;
    CommitClosed(v);
    TidyMember(v, "destroyed");
    var c := ParseCommit(v).value;
    ScalarData(Bool(true));
    if c.state.Some? { ScalarData(Str(c.state.value)); }
    forall p | p in v.props && p.value != Undefined ensures p.key in CommitKeys(c) {
      KeyMember(v.props, p.key);
      GetMember(v.props, p);
    }
  }

  lemma CommitData(v: Value)
    requires Tidy(v) && ParseCommit(v).Some?
    ensures SameData(v, CommitValue(ParseCommit(v).value))
  {
    hide Exact, Get, SameData, Record, Covers, KeyText;
    var c := ParseCommit(v).value;
    CommitClosed(v);
    TidyMember(v, "stateVersionId");
    CommitKeysDistinct(c);
    if c.Destroyed? {
      DestroyCovers(v);
      RecordData(v, CommitKeys(c), CommitValues(c));
    } else {
      if c.Output? { ExactIsObject(v, OUTPUT_KEYS); }
      ScalarData(Get(v.props, "stateVersionId"));
      if c.Output? { ScalarData(Get(v.props, "outputId")); }
      ShapedData(v, CommitKeys(c), CommitValues(c));
    }
  }

  lemma CommitKeysDistinct(c: Commit)
    ensures AllDistinct(CommitKeys(c))
  {
    assert |"destroyed"| != |"stateVersionId"| && |"stateVersionId"| != |"outputId"|;
  }

  lemma EvidenceKeysDistinct()
    ensures AllDistinct(EVIDENCE_KEYS)
  {
    var k := EVIDENCE_KEYS;
    assert k[0][0] == 'f' && k[1][0] == 'r' && k[2][0] == 'p' && k[3][1] == 'c' && k[4][0] == 'o';
    assert k[5][1] == 'u' && k[6][0] == 'p' && |k[6]| == 4 && k[7][0] == 'c' && |k[7]| == 6 && |k[8]| == 7
      && |k[9]| == 11;
  }

  /** The evidence that the check returns carries exactly the data of the accepted value. */
  lemma EvidenceKeepsData(isTime: string -> bool, v: Value)
    requires Tidy(v) && ParseEvidence(isTime, v).Some?
    ensures SameData(v, EvidenceValue(ParseEvidence(isTime, v).value))
  {
    hide Exact, Get, ObjectWith, ParseEvidence, ParseAuthority, ParsePlan, ParseCommit, ParseReceipt, EvidenceShape,
         SameData, Record, Tidy, AuthorityValue, PlanValue, CommitValue, ReceiptValue, AllDistinct;
    EvidenceFields(isTime, v);
    var e, r := ParseEvidence(isTime, v).value, v.props;
    TidyMember(v, "authority");
    TidyMember(v, "plan");
    TidyMember(v, "commit");
    TidyMember(v, "receipt");
    ScalarData(Get(r, "format"));
    ScalarData(Get(r, "runId"));
    ScalarData(Get(r, "planRunId"));
    ScalarData(Get(r, "action"));
    ScalarData(Get(r, "outcome"));
    ScalarData(Get(r, "committedAt"));
    AuthorityData(Get(r, "authority"));
    PlanData(Get(r, "plan"));
    CommitData(Get(r, "commit"));
    ReceiptData(Get(r, "receipt"));
    EvidenceKeysDistinct();
    ShapedData(v, EVIDENCE_KEYS, EvidenceValues(e));
  }

  /** What each field of the evidence was read from. */
  lemma EvidenceFields(isTime: string -> bool, v: Value)
    requires ParseEvidence(isTime, v).Some?
    ensures ObjectWith(v, EVIDENCE_KEYS) && v.Obj?
    ensures var e := ParseEvidence(isTime, v).value;
            && Get(v.props, "format") == Str(FORMAT) && Get(v.props, "runId") == Str(e.runId)
            && Get(v.props, "planRunId") == Str(e.planRunId) && Get(v.props, "action") == Str(e.action)
            && Get(v.props, "outcome") == Str(e.outcome) && Get(v.props, "committedAt") == Str(e.committedAt)
            && ParseAuthority(Get(v.props, "authority")) == Some(e.authority)
            && ParsePlan(Get(v.props, "plan")) == Some((e.planDigest, e.artifactDigest))
            && ParseCommit(Get(v.props, "commit")) == Some(e.commit)
            && ParseReceipt(Get(v.props, "receipt")) == Some((e.operationId, e.version, e.fence))
  {
    hide Exact, Get, AuthorityShape, CommitShape, ParseAuthority, ParsePlan, ParseCommit, ParseReceipt, HasExactly;
    EvidenceClosed(isTime, v);
    ExactIsObject(v, EVIDENCE_KEYS);
  }
}
