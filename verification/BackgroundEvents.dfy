/**
 Background event envelopes (contract/background-events.ts): the closed-shape parser, and the
 canonical text that the envelope digest is taken of.
 */
module BackgroundEvents {
  import opened Text
  import opened CanonicalJson
  import opened ClosedRecords

  const MAX_SAFE_INTEGER := 9_007_199_254_740_991
  const ABI := "takosumi.background-event/v2"

  // ----- scalars -----

  predicate IsControl(c: char) { c as int < 0x20 || c as int == 0x7f }

  predicate IsToken(s: string) {
    1 <= |s| <= 256 && Trim(s) != "" && forall k :: 0 <= k < |s| ==> !IsControl(s[k])
  }

  function Token(v: Value): (s: Option<string>)
    ensures s.Some? ==> v == Str(s.value) && IsToken(s.value)
  {
    if v.Str? && IsToken(v.chars) then Some(v.chars) else None
  }

  /** A safe integer from `low` to `high`; the JSON text of an integer is its canonical decimal. */
  function Integer(v: Value, low: nat, high: nat): (n: Option<nat>)
    ensures n.Some? ==> v == Finite(Decimal(n.value)) && low <= n.value <= high && n.value <= MAX_SAFE_INTEGER
  {
    if v.Finite? && IsDigits(v.digits) && Decimal(DecimalValue(v.digits)) == v.digits
       && low <= DecimalValue(v.digits) <= high && DecimalValue(v.digits) <= MAX_SAFE_INTEGER
    then Some(DecimalValue(v.digits)) else None
  }

  lemma IntegerReads(n: nat, low: nat, high: nat)
    requires low <= n <= high && n <= MAX_SAFE_INTEGER
    ensures Integer(Finite(Decimal(n)), low, high) == Some(n)
  {
    DecimalRoundTrip(n);
  }

  /** `canonicalTime`; which texts are canonical UTC timestamps is a parameter. */
  function Time(isTime: string -> bool, v: Value): (s: Option<string>)
    ensures s.Some? ==> v == Str(s.value) && IsToken(s.value) && isTime(s.value)
  {
    var s :- Token(v);
    if isTime(s) then Some(s) else None
  }

  predicate IsLineTerminator(c: char) { c == '\n' || c == '\r' || c as int == 0x2028 || c as int == 0x2029 }

  /** `/^tkrn:([^:]+):([^:]+):(.+)$/`, with its first two groups. */
  function ResourceName(id: string): Option<(string, string)> {
    var parts := Split(id, ':');
    if |parts| < 4 || parts[0] != "tkrn" || parts[1] == "" || parts[2] == "" then None
    else
      var name := Join(parts[3..], ':');
      if name == "" || exists k :: 0 <= k < |name| && IsLineTerminator(name[k]) then None
      else Some((parts[1], parts[2]))
  }

  // ----- parsed data -----

  datatype Resource = Resource(workspaceId: string, resourceId: string, generation: nat, revisionId: string)

  predicate ResourceFits(r: Resource, kind: Option<string>) {
    && IsToken(r.workspaceId) && IsToken(r.resourceId) && IsToken(r.revisionId)
    && 1 <= r.generation <= MAX_SAFE_INTEGER
    && match ResourceName(r.resourceId)
       case None => false
       case Some((workspace, name)) => workspace == r.workspaceId && (kind.Some? ==> name == kind.value)
  }

  const RESOURCE_KEYS := ["workspaceId", "resourceId", "resourceGeneration", "resourceRevisionId"]

  /** The record has the four properties of the resource. */
  predicate SaysResource(v: Value, r: Resource)
    requires v.Obj?
  {
    && Get(v.props, "workspaceId") == Str(r.workspaceId) && Get(v.props, "resourceId") == Str(r.resourceId)
    && Get(v.props, "resourceGeneration") == Finite(Decimal(r.generation))
    && Get(v.props, "resourceRevisionId") == Str(r.revisionId)
  }

  function ParseResource(v: Value, kind: Option<string>): (r: Option<Resource>)
    ensures r.Some? ==> v.Obj? && ResourceFits(r.value, kind)
    ensures r.Some? ==>
              && Get(v.props, "workspaceId") == Str(r.value.workspaceId)
              && Get(v.props, "resourceId") == Str(r.value.resourceId)
    ensures r.Some? ==> Get(v.props, "resourceGeneration") == Finite(Decimal(r.value.generation))
                        && Get(v.props, "resourceRevisionId") == Str(r.value.revisionId)
  {
    if !v.Obj? then None
    else
      var workspaceId :- Token(Get(v.props, "workspaceId"));
      var resourceId :- Token(Get(v.props, "resourceId"));
      var generation :- Integer(Get(v.props, "resourceGeneration"), 1, MAX_SAFE_INTEGER);
      var revisionId :- Token(Get(v.props, "resourceRevisionId"));
      var r := Resource(workspaceId, resourceId, generation, revisionId);
      if ResourceFits(r, kind) then Some(r) else None
  }

  /** A resource is accepted exactly when the record says it and it fits its name and kind. */
  lemma ParsesResourceIff(v: Value, kind: Option<string>, r: Resource)
    ensures ParseResource(v, kind) == Some(r) <==> v.Obj? && SaysResource(v, r) && ResourceFits(r, kind)
  {
    hide Get, IsToken, Decimal, ResourceName;
    if v.Obj? && SaysResource(v, r) && ResourceFits(r, kind) {
      IntegerReads(r.generation, 1, MAX_SAFE_INTEGER);
      TokenReads(r.workspaceId);
      TokenReads(r.resourceId);
      TokenReads(r.revisionId);
    }
  }

  lemma TokenReads(s: string)
    requires IsToken(s)
    ensures Token(Str(s)) == Some(s)
  {
  }

  function ResourceValues(r: Resource): seq<Value> {
    [Str(r.workspaceId), Str(r.resourceId), Finite(Decimal(r.generation)), Str(r.revisionId)]
  }

  datatype Principal = Principal(workspaceId: string, capsuleId: string, installingPrincipalId: string)

  const PRINCIPAL_KEYS := ["kind", "workspaceId", "capsuleId", "installingPrincipalId"]

  function ParsePrincipal(v: Value): Option<Principal> {
    var r :- Exact(v, PRINCIPAL_KEYS);
    if Get(r, "kind") != Str("CapsuleHostBackground") then None
    else
      var workspaceId :- Token(Get(r, "workspaceId"));
      var capsuleId :- Token(Get(r, "capsuleId"));
      var installingPrincipalId :- Token(Get(r, "installingPrincipalId"));
      Some(Principal(workspaceId, capsuleId, installingPrincipalId))
  }

  function PrincipalValues(p: Principal): seq<Value> {
    [Str("CapsuleHostBackground"), Str(p.workspaceId), Str(p.capsuleId), Str(p.installingPrincipalId)]
  }

  function PrincipalValue(p: Principal): Value {
    Record(PRINCIPAL_KEYS, PrincipalValues(p))
  }

  datatype Source = Queue(resource: Resource, deadLetter: Option<Resource>) | Schedule(resource: Resource)

  const SCHEDULE_KEYS := RESOURCE_KEYS + ["kind"]
  const DEAD_LETTER_KEYS := RESOURCE_KEYS + ["kind", "deadLetterQueue"]

  function ParseSource(v: Value): Option<Source> {
    if !v.Obj? then None
    else if Get(v.props, "kind") == Str("Queue") then
      var deadValue := Get(v.props, "deadLetterQueue");
      var r :- Exact(v, if deadValue == Undefined then SCHEDULE_KEYS else DEAD_LETTER_KEYS);
      var resource :- ParseResource(v, Some("Queue"));
      if deadValue == Undefined then Some(Queue(resource, None))
      else
        var dead :- ParseResource(deadValue, Some("Queue"));
        if dead.resourceId == resource.resourceId then None else Some(Queue(resource, Some(dead)))
    else
      var r :- Exact(v, SCHEDULE_KEYS);
      if Get(r, "kind") != Str("Schedule") then None
      else
        var resource :- ParseResource(v, Some("Schedule"));
        Some(Schedule(resource))
  }

  function ResourceValue(r: Resource): Value { Record(RESOURCE_KEYS, ResourceValues(r)) }

  function SourceValue(s: Source): Value {
    match s
    case Schedule(r) => Record(SCHEDULE_KEYS, ResourceValues(r) + [Str("Schedule")])
    case Queue(r, None) => Record(SCHEDULE_KEYS, ResourceValues(r) + [Str("Queue")])
    case Queue(r, Some(dead)) => Record(DEAD_LETTER_KEYS, ResourceValues(r) + [Str("Queue"), ResourceValue(dead)])
  }

  datatype Target = Target(resource: Resource, entrypoint: string)

  const TARGET_KEYS := RESOURCE_KEYS + ["kind", "entrypoint"]

  function ParseTarget(v: Value): Option<Target> {
    var r :- Exact(v, TARGET_KEYS);
    if Get(r, "kind") != Str("EdgeWorker") then None
    else
      var resource :- ParseResource(v, Some("EdgeWorker"));
      var entrypoint :- Token(Get(r, "entrypoint"));
      Some(Target(resource, entrypoint))
  }

  function TargetValues(t: Target): seq<Value> { ResourceValues(t.resource) + [Str("EdgeWorker"), Str(t.entrypoint)] }

  function TargetValue(t: Target): Value {
    Record(TARGET_KEYS, TargetValues(t))
  }

  datatype Retry = Retry(maxAttempts: nat, retryDelaySeconds: nat, deadLetters: bool)

  const RETRY_KEYS := ["maxAttempts", "retryDelaySeconds", "onExhausted"]

  function OnExhausted(deadLetters: bool): string { if deadLetters then "dead_letter" else "fail" }

  function ParseRetry(v: Value, source: Source): Option<Retry> {
    var r :- Exact(v, RETRY_KEYS);
    var maxAttempts :- Integer(Get(r, "maxAttempts"), 1, 100);
    var retryDelaySeconds :- Integer(Get(r, "retryDelaySeconds"), 0, 86_400);
    var exhausted := Get(r, "onExhausted");
    if exhausted == Str("fail") then Some(Retry(maxAttempts, retryDelaySeconds, false))
    else if exhausted == Str("dead_letter") && source.Queue? && source.deadLetter.Some? then
      Some(Retry(maxAttempts, retryDelaySeconds, true))
    else None
  }

  function RetryValues(r: Retry): seq<Value> {
    [Finite(Decimal(r.maxAttempts)), Finite(Decimal(r.retryDelaySeconds)), Str(OnExhausted(r.deadLetters))]
  }

  function RetryValue(r: Retry): Value {
    Record(RETRY_KEYS, RetryValues(r))
  }

  datatype Message = Message(id: string, timestamp: string, attempts: nat, body: Value)

  const MESSAGE_KEYS := ["id", "timestamp", "attempts", "body"]

  function ParseMessage(isTime: string -> bool, v: Value): Option<Message> {
    var r :- Exact(v, MESSAGE_KEYS);
    var text :- Stable(Get(r, "body"));
    var id :- Token(Get(r, "id"));
    var timestamp :- Time(isTime, Get(r, "timestamp"));
    var attempts :- Integer(Get(r, "attempts"), 1, 101);
    Some(Message(id, timestamp, attempts, Get(r, "body")))
  }

  function MessageParts(m: Message): seq<Value> { [Str(m.id), Str(m.timestamp), Finite(Decimal(m.attempts)), m.body] }

  function MessageValue(m: Message): Value {
    Record(MESSAGE_KEYS, MessageParts(m))
  }

  function ParseMessages(isTime: string -> bool, vs: seq<Value>): (ms: Option<seq<Message>>)
    ensures ms.Some? ==>
              |ms.value| == |vs| && forall k :: 0 <= k < |vs| ==> ParseMessage(isTime, vs[k]) == Some(ms.value[k])
    ensures ms.None? ==> exists k :: 0 <= k < |vs| && ParseMessage(isTime, vs[k]).None?
  {
    if vs == [] then Some([])
    else
      var first, rest := ParseMessage(isTime, vs[0]), ParseMessages(isTime, vs[1..]);
      if first.None? then None
      else if rest.None? then
        var k :| 0 <= k < |vs[1..]| && ParseMessage(isTime, vs[1..][k]).None?;
        assert ParseMessage(isTime, vs[k + 1]).None?;
        None
      else Some([first.value] + rest.value)
  }

  function MessageValues(ms: seq<Message>): (vs: seq<Value>)
    ensures |vs| == |ms| && forall k :: 0 <= k < |ms| ==> vs[k] == MessageValue(ms[k])
  {
    seq(|ms|, k requires 0 <= k < |ms| => MessageValue(ms[k]))
  }

  datatype Event =
    | QueueEvent(deliveryId: string, occurredAt: string, attempt: nat, source: Resource, messages: seq<Message>)
    | ScheduleEvent(deliveryId: string, occurredAt: string, attempt: nat, source: Resource, scheduledAt: string,
                    cron: string)

  const QUEUE_EVENT_KEYS := ["kind", "deliveryId", "occurredAt", "attempt", "source", "messages"]
  const SCHEDULE_EVENT_KEYS := ["kind", "deliveryId", "occurredAt", "attempt", "source", "scheduledAt", "cron"]

  function ParseEvent(isTime: string -> bool, v: Value): Option<Event> {
    if !v.Obj? then None
    else if Get(v.props, "kind") == Str("queue") then
      var r :- Exact(v, QUEUE_EVENT_KEYS);
      var messages := Get(r, "messages");
      if !messages.Arr? || !(1 <= |messages.items| <= 100) then None
      else
        var deliveryId :- Token(Get(r, "deliveryId"));
        var occurredAt :- Time(isTime, Get(r, "occurredAt"));
        var attempt :- Integer(Get(r, "attempt"), 1, 101);
        var source :- ParseResource(Get(r, "source"), None);
        var ms :- ParseMessages(isTime, messages.items);
        Some(QueueEvent(deliveryId, occurredAt, attempt, source, ms))
    else
      var r :- Exact(v, SCHEDULE_EVENT_KEYS);
      if Get(r, "kind") != Str("schedule") then None
      else
        var deliveryId :- Token(Get(r, "deliveryId"));
        var occurredAt :- Time(isTime, Get(r, "occurredAt"));
        var attempt :- Integer(Get(r, "attempt"), 1, 101);
        var source :- ParseResource(Get(r, "source"), None);
        var scheduledAt :- Time(isTime, Get(r, "scheduledAt"));
        var cron :- Token(Get(r, "cron"));
        Some(ScheduleEvent(deliveryId, occurredAt, attempt, source, scheduledAt, cron))
  }

  function EventKeys(e: Event): seq<string> { if e.QueueEvent? then QUEUE_EVENT_KEYS else SCHEDULE_EVENT_KEYS }

  function EventParts(e: Event): (vs: seq<Value>)
    ensures |vs| == |EventKeys(e)|
  {
    match e
    case QueueEvent(deliveryId, occurredAt, attempt, source, messages) =>
      [Str("queue"), Str(deliveryId), Str(occurredAt), Finite(Decimal(attempt)), ResourceValue(source),
       Arr(MessageValues(messages))]
    case ScheduleEvent(deliveryId, occurredAt, attempt, source, scheduledAt, cron) =>
      [Str("schedule"), Str(deliveryId), Str(occurredAt), Finite(Decimal(attempt)), ResourceValue(source),
       Str(scheduledAt), Str(cron)]
  }

  function EventValue(e: Event): Value { Record(EventKeys(e), EventParts(e)) }

  datatype Envelope = Envelope(activationId: string, activationRevisionId: string, principal: Principal,
                               source: Source, target: Target, retry: Retry, event: Event)

  const ENVELOPE_KEYS := ["abi", "activationId", "activationRevisionId", "principal", "source", "target", "retry",
                          "event"]

  /** The checks that span several parts of the envelope. */
  predicate Agrees(source: Source, target: Target, principal: Principal, event: Event) {
    && source.resource.workspaceId == target.resource.workspaceId == principal.workspaceId
    && (source.Queue? <==> event.QueueEvent?) && event.source == source.resource
  }

  /** `parseTakosumiBackgroundEventEnvelope`; None is the TypeError. */
  function Parse(isTime: string -> bool, v: Value): Option<Envelope> {
    var r :- Exact(v, ENVELOPE_KEYS);
    if Get(r, "abi") != Str(ABI) then None
    else
      var source :- ParseSource(Get(r, "source"));
      var target :- ParseTarget(Get(r, "target"));
      var principal :- ParsePrincipal(Get(r, "principal"));
      var retry :- ParseRetry(Get(r, "retry"), source);
      var event :- ParseEvent(isTime, Get(r, "event"));
      var activationId :- Token(Get(r, "activationId"));
      var activationRevisionId :- Token(Get(r, "activationRevisionId"));
      if !Agrees(source, target, principal, event) then None
      else Some(Envelope(activationId, activationRevisionId, principal, source, target, retry, event))
  }

  function EnvelopeParts(e: Envelope): seq<Value> {
    [Str(ABI), Str(e.activationId), Str(e.activationRevisionId), PrincipalValue(e.principal),
     SourceValue(e.source), TargetValue(e.target), RetryValue(e.retry), EventValue(e.event)]
  }

  /** The parsed envelope as the object that the parser returns. */
  function EnvelopeValue(e: Envelope): Value {
    Record(ENVELOPE_KEYS, EnvelopeParts(e))
  }
}
