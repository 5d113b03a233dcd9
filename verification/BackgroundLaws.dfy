/**
 What the background event contract (contract/background-events.ts) promises of its parser:
 closed shapes, idempotent parsing, and a digest text that identifies the envelope.
 */
module BackgroundLaws {
  import opened Text
  import opened CanonicalJson
  import opened ClosedRecords
  import opened BackgroundEvents

  // ----- closed shapes -----

  lemma PrincipalClosed(v: Value)
    requires ParsePrincipal(v).Some?
    ensures v.Obj? && HasExactly(v.props, PRINCIPAL_KEYS)
  {
    hide Exact, Get, IsToken, HasExactly;
    ExactIsObject(v, PRINCIPAL_KEYS);
    ClosedShape(v, PRINCIPAL_KEYS);
  }

  lemma TargetClosed(v: Value)
    requires ParseTarget(v).Some?
    ensures v.Obj? && HasExactly(v.props, TARGET_KEYS)
  {
    hide Exact, Get, IsToken, HasExactly, ResourceFits;
    ExactIsObject(v, TARGET_KEYS);
    ClosedShape(v, TARGET_KEYS);
  }

  lemma SourceClosed(v: Value)
    requires ParseSource(v).Some?
    ensures v.Obj? && (HasExactly(v.props, SCHEDULE_KEYS) || HasExactly(v.props, DEAD_LETTER_KEYS))
  {
    hide Exact, Get, IsToken, HasExactly, ResourceFits;
    var keys := if Get(v.props, "kind") == Str("Queue") && Get(v.props, "deadLetterQueue") != Undefined
                then DEAD_LETTER_KEYS else SCHEDULE_KEYS;
    ExactIsObject(v, keys);
    ClosedShape(v, keys);
  }

  lemma RetryClosed(v: Value, source: Source)
    requires ParseRetry(v, source).Some?
    ensures v.Obj? && HasExactly(v.props, RETRY_KEYS)
  {
    hide Exact, Get, HasExactly;
    ExactIsObject(v, RETRY_KEYS);
    ClosedShape(v, RETRY_KEYS);
  }

  lemma MessageClosed(isTime: string -> bool, v: Value)
    requires ParseMessage(isTime, v).Some?
    ensures v.Obj? && HasExactly(v.props, MESSAGE_KEYS)
  {
    hide Exact, Get, HasExactly, IsToken;
    ExactIsObject(v, MESSAGE_KEYS);
    ClosedShape(v, MESSAGE_KEYS);
  }

  lemma EventClosed(isTime: string -> bool, v: Value)
    requires ParseEvent(isTime, v).Some?
    ensures v.Obj?
    ensures ParseEvent(isTime, v).value.QueueEvent? ==>
              HasExactly(v.props, QUEUE_EVENT_KEYS) && Get(v.props, "messages").Arr?
    ensures ParseEvent(isTime, v).value.ScheduleEvent? ==> HasExactly(v.props, SCHEDULE_EVENT_KEYS)
    ensures ParseEvent(isTime, v).value.QueueEvent? ==> forall m :: m in Get(v.props, "messages").items ==>
              m.Obj? && HasExactly(m.props, MESSAGE_KEYS)
  {
    hide Exact, Get, HasExactly, IsToken, ResourceFits, ParseMessage;
    var keys := if Get(v.props, "kind") == Str("queue") then QUEUE_EVENT_KEYS else SCHEDULE_EVENT_KEYS;
    ExactIsObject(v, keys);
    ClosedShape(v, keys);
    if Get(v.props, "kind") == Str("queue") {
      var items := Get(v.props, "messages").items;
      forall m | m in items ensures m.Obj? && HasExactly(m.props, MESSAGE_KEYS) {
        var k :| 0 <= k < |items| && items[k] == m;
        assert ParseMessage(isTime, items[k]).Some?;
        MessageClosed(isTime, m);
      }
    }
  }

  /** Every object that the parser checks by joined keys has exactly the expected keys. */
  ghost predicate Closed(v: Value) {
    && v.Obj? && HasExactly(v.props, ENVELOPE_KEYS)
    && ObjectWith(Get(v.props, "principal"), PRINCIPAL_KEYS)
    && ObjectWith(Get(v.props, "target"), TARGET_KEYS)
    && ObjectWith(Get(v.props, "retry"), RETRY_KEYS)
    && (ObjectWith(Get(v.props, "source"), SCHEDULE_KEYS) || ObjectWith(Get(v.props, "source"), DEAD_LETTER_KEYS))
    && (|| ObjectWith(Get(v.props, "event"), SCHEDULE_EVENT_KEYS)
        || (&& ObjectWith(Get(v.props, "event"), QUEUE_EVENT_KEYS)
            && Get(Get(v.props, "event").props, "messages").Arr?
            && forall m :: m in Get(Get(v.props, "event").props, "messages").items ==> ObjectWith(m, MESSAGE_KEYS)))
  }

  /** An accepted envelope has a closed shape throughout, although keys are compared as joined text. */
  lemma EnvelopeClosed(isTime: string -> bool, v: Value)
    requires Parse(isTime, v).Some?
    ensures Closed(v)
  {
    hide Exact, Get, HasExactly, IsToken, ParseSource, ParseTarget, ParsePrincipal, ParseRetry, ParseEvent, Agrees;
    ExactIsObject(v, ENVELOPE_KEYS);
    var r := v.props;
    SourceClosed(Get(r, "source"));
    TargetClosed(Get(r, "target"));
    PrincipalClosed(Get(r, "principal"));
    RetryClosed(Get(r, "retry"), ParseSource(Get(r, "source")).value);
    EventClosed(isTime, Get(r, "event"));
    ClosedShape(v, ENVELOPE_KEYS);
  }

  // ----- parsing is idempotent -----

  lemma KeysDistinct()
    ensures AllDistinct(PRINCIPAL_KEYS) && AllDistinct(RESOURCE_KEYS) && AllDistinct(SCHEDULE_KEYS)
    ensures AllDistinct(DEAD_LETTER_KEYS) && AllDistinct(TARGET_KEYS) && AllDistinct(RETRY_KEYS)
            && AllDistinct(MESSAGE_KEYS)
  {
  }

  lemma EventKeysDistinct()
    ensures AllDistinct(QUEUE_EVENT_KEYS) && AllDistinct(SCHEDULE_EVENT_KEYS) && AllDistinct(ENVELOPE_KEYS)
  {
  }

  lemma PrincipalReads(v: Value)
    requires ParsePrincipal(v).Some?
    ensures ParsePrincipal(PrincipalValue(ParsePrincipal(v).value)) == ParsePrincipal(v)
  {
    hide Exact, Get, IsToken, Record;
    var p := ParsePrincipal(v).value;
    KeysDistinct();
    var values := [Str("CapsuleHostBackground"), Str(p.workspaceId), Str(p.capsuleId), Str(p.installingPrincipalId)];
    RecordReads(PRINCIPAL_KEYS, values);
    var props := Record(PRINCIPAL_KEYS, values).props;
    assert Get(props, PRINCIPAL_KEYS[0]) == values[0] && Get(props, PRINCIPAL_KEYS[1]) == values[1];
    assert Get(props, PRINCIPAL_KEYS[2]) == values[2] && Get(props, PRINCIPAL_KEYS[3]) == values[3];
  }

  /** The first four properties of a record built on the resource keys. */
  lemma ResourceProps(keys: seq<string>, values: seq<Value>, r: Resource)
    requires |keys| == |values| && AllDistinct(keys) && 4 <= |keys|
    requires keys[..4] == RESOURCE_KEYS && values[..4] == ResourceValues(r)
    ensures var props := Record(keys, values).props;
            && Get(props, "workspaceId") == Str(r.workspaceId) && Get(props, "resourceId") == Str(r.resourceId)
            && Get(props, "resourceGeneration") == Finite(Decimal(r.generation))
            && Get(props, "resourceRevisionId") == Str(r.revisionId)
  {
    hide Get, Record, Decimal, Exact;
    RecordReads(keys, values);
    var props := Record(keys, values).props;
    assert keys[..4][0] == keys[0] && keys[..4][1] == keys[1] && keys[..4][2] == keys[2] && keys[..4][3] == keys[3];
    assert values[..4][0] == values[0] && values[..4][1] == values[1] && values[..4][2] == values[2]
      && values[..4][3] == values[3];
    assert Get(props, keys[0]) == values[0] && Get(props, keys[1]) == values[1];
    assert Get(props, keys[2]) == values[2] && Get(props, keys[3]) == values[3];
  }

  lemma PlainResourceReads(r: Resource, kind: Option<string>)
    requires ResourceFits(r, kind)
    ensures ParseResource(ResourceValue(r), kind) == Some(r)
  {
    hide Get, Record, ResourceFits, Decimal;
    KeysDistinct();
    assert RESOURCE_KEYS[..4] == RESOURCE_KEYS && ResourceValues(r)[..4] == ResourceValues(r);
    ResourceProps(RESOURCE_KEYS, ResourceValues(r), r);
    ParsesResourceIff(ResourceValue(r), kind, r);
  }

  lemma SourceReads(v: Value)
    requires ParseSource(v).Some?
    ensures ParseSource(SourceValue(ParseSource(v).value)) == ParseSource(v)
  {
    hide Get, Record, ResourceFits, Exact, ResourceValues, ParseResource;
    var s := ParseSource(v).value;
    KeysDistinct();
    match s
    case Schedule(r) => SourceReadsPlain(r, "Schedule");
    case Queue(r, None) => SourceReadsPlain(r, "Queue");
    case Queue(r, Some(dead)) => SourceReadsDead(r, dead);
  }

  lemma SourceReadsPlain(r: Resource, kind: string)
    requires ResourceFits(r, Some(kind))
    ensures var w := Record(SCHEDULE_KEYS, ResourceValues(r) + [Str(kind)]);
            && Exact(w, SCHEDULE_KEYS) == Some(w.props) && Get(w.props, "kind") == Str(kind)
            && Get(w.props, "deadLetterQueue") == Undefined && ParseResource(w, Some(kind)) == Some(r)
  {
    hide Get, Record, ResourceFits, Exact, Decimal;
    KeysDistinct();
    var values := ResourceValues(r) + [Str(kind)];
    var w := Record(SCHEDULE_KEYS, values);
    RecordReads(SCHEDULE_KEYS, values);
    assert Get(w.props, SCHEDULE_KEYS[4]) == values[4];
    assert SCHEDULE_KEYS[..4] == RESOURCE_KEYS && values[..4] == ResourceValues(r);
    ResourceProps(SCHEDULE_KEYS, values, r);
    ParsesResourceIff(w, Some(kind), r);
    AbsentKey(w.props, "deadLetterQueue");
  }

  lemma {:induction false} AbsentKey(props: seq<Entry<Value>>, key: string)
    requires key !in Keys(props)
    ensures Get(props, key) == Undefined
  {
    if props != [] {
      assert Keys(props)[0] == props[0].key;
      assert forall k :: 0 <= k < |props[1..]| ==> Keys(props[1..])[k] == Keys(props)[k + 1];
      AbsentKey(props[1..], key);
    }
  }

  lemma SourceReadsDead(r: Resource, dead: Resource)
    requires ResourceFits(r, Some("Queue")) && ResourceFits(dead, Some("Queue"))
    ensures var w := Record(DEAD_LETTER_KEYS, ResourceValues(r) + [Str("Queue"), ResourceValue(dead)]);
            && Exact(w, DEAD_LETTER_KEYS) == Some(w.props) && Get(w.props, "kind") == Str("Queue")
            && Get(w.props, "deadLetterQueue") == ResourceValue(dead)
            && ParseResource(w, Some("Queue")) == Some(r)
            && ParseResource(ResourceValue(dead), Some("Queue")) == Some(dead)
  {
    hide Get, Record, ResourceFits, Exact, Decimal, ResourceValue;
    KeysDistinct();
    var values := ResourceValues(r) + [Str("Queue"), ResourceValue(dead)];
    var w := Record(DEAD_LETTER_KEYS, values);
    RecordReads(DEAD_LETTER_KEYS, values);
    assert Get(w.props, DEAD_LETTER_KEYS[4]) == values[4] && Get(w.props, DEAD_LETTER_KEYS[5]) == values[5];
    assert DEAD_LETTER_KEYS[..4] == RESOURCE_KEYS && values[..4] == ResourceValues(r);
    ResourceProps(DEAD_LETTER_KEYS, values, r);
    ParsesResourceIff(w, Some("Queue"), r);
    PlainResourceReads(dead, Some("Queue"));
  }

  lemma TargetReads(v: Value)
    requires ParseTarget(v).Some?
    ensures ParseTarget(TargetValue(ParseTarget(v).value)) == ParseTarget(v)
  {
    hide Get, Record, ResourceFits, Exact, Decimal, IsToken;
    var t := ParseTarget(v).value;
    KeysDistinct();
    var values := ResourceValues(t.resource) + [Str("EdgeWorker"), Str(t.entrypoint)];
    var w := Record(TARGET_KEYS, values);
    RecordReads(TARGET_KEYS, values);
    assert Get(w.props, TARGET_KEYS[4]) == values[4] && Get(w.props, TARGET_KEYS[5]) == values[5];
    assert TARGET_KEYS[..4] == RESOURCE_KEYS && values[..4] == ResourceValues(t.resource);
    ResourceProps(TARGET_KEYS, values, t.resource);
    ParsesResourceIff(w, Some("EdgeWorker"), t.resource);
  }

  lemma RetryReads(v: Value, source: Source)
    requires ParseRetry(v, source).Some?
    ensures ParseRetry(RetryValue(ParseRetry(v, source).value), source) == ParseRetry(v, source)
  {
    hide Get, Record, Exact, Decimal;
    var r := ParseRetry(v, source).value;
    KeysDistinct();
    var values := [Finite(Decimal(r.maxAttempts)), Finite(Decimal(r.retryDelaySeconds)),
                   Str(OnExhausted(r.deadLetters))];
    var w := Record(RETRY_KEYS, values);
    RecordReads(RETRY_KEYS, values);
    assert Get(w.props, RETRY_KEYS[0]) == values[0] && Get(w.props, RETRY_KEYS[1]) == values[1]
      && Get(w.props, RETRY_KEYS[2]) == values[2];
    IntegerReads(r.maxAttempts, 1, 100);
    IntegerReads(r.retryDelaySeconds, 0, 86_400);
  }

  lemma MessageReads(isTime: string -> bool, v: Value)
    requires ParseMessage(isTime, v).Some?
    ensures ParseMessage(isTime, MessageValue(ParseMessage(isTime, v).value)) == ParseMessage(isTime, v)
  {
    hide Get, Record, Exact, Decimal, IsToken, Stable;
    var m := ParseMessage(isTime, v).value;
    KeysDistinct();
    var values := [Str(m.id), Str(m.timestamp), Finite(Decimal(m.attempts)), m.body];
    var w := Record(MESSAGE_KEYS, values);
    RecordReads(MESSAGE_KEYS, values);
    assert Get(w.props, MESSAGE_KEYS[0]) == values[0] && Get(w.props, MESSAGE_KEYS[1]) == values[1];
    assert Get(w.props, MESSAGE_KEYS[2]) == values[2] && Get(w.props, MESSAGE_KEYS[3]) == values[3];
    IntegerReads(m.attempts, 1, 101);
  }

  lemma MessagesRead(isTime: string -> bool, vs: seq<Value>)
    requires ParseMessages(isTime, vs).Some?
    ensures ParseMessages(isTime, MessageValues(ParseMessages(isTime, vs).value)) == ParseMessages(isTime, vs)
  {
    hide ParseMessage, MessageValue, ParseMessages;
    var ms := ParseMessages(isTime, vs).value;
    var ws := MessageValues(ms);
    forall k | 0 <= k < |ms| ensures ParseMessage(isTime, ws[k]) == Some(ms[k]) {
      assert ParseMessage(isTime, vs[k]) == Some(ms[k]);
      MessageReads(isTime, vs[k]);
    }
    assert ParseMessages(isTime, ws).Some?;
    assert ParseMessages(isTime, ws).value == ms;
  }

  lemma EventReads(isTime: string -> bool, v: Value)
    requires ParseEvent(isTime, v).Some?
    ensures ParseEvent(isTime, EventValue(ParseEvent(isTime, v).value)) == ParseEvent(isTime, v)
  {
    hide Get, Record, Exact, Decimal, IsToken, ResourceFits, ResourceValue, ParseMessages, MessageValues;
    var e := ParseEvent(isTime, v).value;
    EventKeysDistinct();
    IntegerReads(e.attempt, 1, 101);
    PlainResourceReads(e.source, None);
    match e
    case QueueEvent(deliveryId, occurredAt, attempt, source, messages) =>
      ExactIsObject(v, QUEUE_EVENT_KEYS);
      MessagesRead(isTime, Get(v.props, "messages").items);
      QueueEventReads(isTime, e);
    case ScheduleEvent(deliveryId, occurredAt, attempt, source, scheduledAt, cron) =>
      ScheduleEventReads(isTime, e);
  }

  lemma QueueEventReads(isTime: string -> bool, e: Event)
    requires e.QueueEvent? && 1 <= |e.messages| <= 100
    requires IsToken(e.deliveryId) && IsToken(e.occurredAt) && isTime(e.occurredAt) && 1 <= e.attempt <= 101
    requires ParseResource(ResourceValue(e.source), None) == Some(e.source)
    requires ParseMessages(isTime, MessageValues(e.messages)) == Some(e.messages)
    ensures ParseEvent(isTime, EventValue(e)) == Some(e)
  {
    hide Get, Record, Exact, Decimal, IsToken, ParseResource, ResourceValue, ParseMessages, MessageValues;
    EventKeysDistinct();
    var keys := QUEUE_EVENT_KEYS;
    var values := [Str("queue"), Str(e.deliveryId), Str(e.occurredAt), Finite(Decimal(e.attempt)),
                   ResourceValue(e.source), Arr(MessageValues(e.messages))];
    RecordReads(keys, values);
    var p := Record(keys, values).props;
    assert Get(p, keys[0]) == values[0] && Get(p, keys[1]) == values[1] && Get(p, keys[2]) == values[2];
    assert Get(p, keys[3]) == values[3] && Get(p, keys[4]) == values[4] && Get(p, keys[5]) == values[5];
    IntegerReads(e.attempt, 1, 101);
    MessageCount(e.messages);
  }

  lemma MessageCount(ms: seq<Message>)
    ensures |MessageValues(ms)| == |ms|
  {
  }

  lemma ScheduleEventReads(isTime: string -> bool, e: Event)
    requires e.ScheduleEvent?
    requires IsToken(e.deliveryId) && IsToken(e.occurredAt) && isTime(e.occurredAt) && 1 <= e.attempt <= 101
    requires IsToken(e.scheduledAt) && isTime(e.scheduledAt) && IsToken(e.cron)
    requires ParseResource(ResourceValue(e.source), None) == Some(e.source)
    ensures ParseEvent(isTime, EventValue(e)) == Some(e)
  {
    hide Get, Record, Exact, Decimal, IsToken, ParseResource, ResourceValue;
    EventKeysDistinct();
    var keys := SCHEDULE_EVENT_KEYS;
    var values := [Str("schedule"), Str(e.deliveryId), Str(e.occurredAt), Finite(Decimal(e.attempt)),
                   ResourceValue(e.source), Str(e.scheduledAt), Str(e.cron)];
    RecordReads(keys, values);
    var p := Record(keys, values).props;
    assert Get(p, keys[0]) == values[0] && Get(p, keys[1]) == values[1] && Get(p, keys[2]) == values[2];
    assert Get(p, keys[3]) == values[3] && Get(p, keys[4]) == values[4] && Get(p, keys[5]) == values[5]
      && Get(p, keys[6]) == values[6];
    IntegerReads(e.attempt, 1, 101);
  }

  /** Parsing the parser's own result gives the same envelope. */
  lemma ParseIdempotent(isTime: string -> bool, v: Value)
    requires Parse(isTime, v).Some?
    ensures Parse(isTime, EnvelopeValue(Parse(isTime, v).value)) == Parse(isTime, v)
  {
    hide Get, Record, Exact, IsToken, ParseSource, ParseTarget, ParsePrincipal, ParseRetry, ParseEvent, Agrees,
         PrincipalValue, SourceValue, TargetValue, RetryValue, EventValue;
    var e := Parse(isTime, v).value;
    var r := Exact(v, ENVELOPE_KEYS).value;
    SourceReads(Get(r, "source"));
    TargetReads(Get(r, "target"));
    PrincipalReads(Get(r, "principal"));
    RetryReads(Get(r, "retry"), e.source);
    EventReads(isTime, Get(r, "event"));
    EventKeysDistinct();
    var keys := ENVELOPE_KEYS;
    var values := [Str(ABI), Str(e.activationId), Str(e.activationRevisionId), PrincipalValue(e.principal),
                   SourceValue(e.source), TargetValue(e.target), RetryValue(e.retry), EventValue(e.event)];
    RecordReads(keys, values);
    var p := Record(keys, values).props;
    assert Get(p, keys[0]) == values[0] && Get(p, keys[1]) == values[1] && Get(p, keys[2]) == values[2]
      && Get(p, keys[3]) == values[3];
    assert Get(p, keys[4]) == values[4] && Get(p, keys[5]) == values[5] && Get(p, keys[6]) == values[6]
      && Get(p, keys[7]) == values[7];
  }

  // ----- records and the data they denote -----

  /** Every value of the record denotes data. */
  ghost predicate Solid(values: seq<Value>) { forall k :: 0 <= k < |values| ==> Denote(values[k]).Some? }

  lemma SolidIsDefined(v: Value)
    ensures Denote(v).Some? ==> v != Undefined
  {
  }

  lemma RecordDenotes(keys: seq<string>, values: seq<Value>)
    requires |keys| == |values| && Solid(values)
    ensures Denote(Record(keys, values)).Some?
  {
    hide Denote;
    var props := Record(keys, values).props;
    DenotePropsMembers(props);
    forall p | p in props ensures Denote(p.value).Some? {
      var k :| 0 <= k < |props| && props[k] == p;
      assert p.value == values[k];
    }
    ObjectDenotes(props);
  }

  lemma ObjectDenotes(props: seq<Entry<Value>>)
    ensures Denote(Obj(props)).Some? <==> DenoteProps(props).Some?
    ensures DenoteProps(props).Some? ==> Denote(Obj(props)) == Some(JObject(SortEntries(DenoteProps(props).value)))
  {
  }

  /** The members of a record's data are its keys with the data of its values. */
  lemma RecordMembers(keys: seq<string>, values: seq<Value>, e: Entry<Json>)
    requires |keys| == |values| && Solid(values) && Denote(Record(keys, values)).Some?
    ensures e in Denote(Record(keys, values)).value.members
            <==> exists k :: 0 <= k < |keys| && keys[k] == e.key && Denote(values[k]) == Some(e.value)
  {
    hide Denote, SortEntries, DenoteProps;
    var props := Record(keys, values).props;
    ObjectDenotes(props);
    DenotePropsMembers(props);
    if Defines(props, e) {
      var p :| p in props && p.value != Undefined && Denote(p.value) == Some(e.value) && p.key == e.key;
      var k :| 0 <= k < |props| && props[k] == p;
      assert keys[k] == e.key && Denote(values[k]) == Some(e.value);
    }
    if k :| 0 <= k < |keys| && keys[k] == e.key && Denote(values[k]) == Some(e.value) {
      assert props[k] in props && props[k] == Entry(keys[k], values[k]);
      SolidIsDefined(values[k]);
      assert Defines(props, e);
    }
  }

  /** Records with equal data agree on every shared key. */
  lemma RecordsAgree(keys: seq<string>, values: seq<Value>, keys': seq<string>, values': seq<Value>, i: nat, j: nat)
    requires |keys| == |values| && |keys'| == |values'| && AllDistinct(keys) && AllDistinct(keys')
    requires Solid(values) && Solid(values') && i < |keys| && j < |keys'| && keys[i] == keys'[j]
    requires Denote(Record(keys, values)).Some? && Denote(Record(keys, values)) == Denote(Record(keys', values'))
    ensures Denote(values[i]) == Denote(values'[j])
  {
    hide Denote, Record;
    var e := Entry(keys[i], Denote(values[i]).value);
    RecordMembers(keys, values, e);
    RecordMembers(keys', values', e);
    var k :| 0 <= k < |keys'| && keys'[k] == e.key && Denote(values'[k]) == Some(e.value);
    assert k == j;
  }

  lemma RecordsShareKeys(keys: seq<string>, values: seq<Value>, keys': seq<string>, values': seq<Value>, i: nat)
    requires |keys| == |values| && |keys'| == |values'| && Solid(values) && Solid(values') && i < |keys|
    requires Denote(Record(keys, values)).Some? && Denote(Record(keys, values)) == Denote(Record(keys', values'))
    ensures keys[i] in keys'
  {
    hide Denote, Record;
    var e := Entry(keys[i], Denote(values[i]).value);
    RecordMembers(keys, values, e);
    RecordMembers(keys', values', e);
  }

  /** Values with equal data make records with equal data. */
  lemma RecordsEqual(keys: seq<string>, values: seq<Value>, values': seq<Value>)
    requires |keys| == |values| == |values'| && Solid(values)
    requires forall k :: 0 <= k < |keys| ==> Denote(values[k]) == Denote(values'[k])
    ensures Denote(Record(keys, values)) == Denote(Record(keys, values'))
  {
    hide Denote, DenoteProps, SortEntries;
    var p, q := Record(keys, values).props, Record(keys, values').props;
    forall k | 0 <= k < |p|
      ensures p[k].key == q[k].key && p[k].value != Undefined && q[k].value != Undefined
              && Denote(p[k].value) == Denote(q[k].value)
    {
      SolidIsDefined(values[k]);
      SolidIsDefined(values'[k]);
    }
    PropsEqual(p, q);
    ObjectDenotes(p);
    ObjectDenotes(q);
  }

  lemma {:induction false} PropsEqual(p: seq<Entry<Value>>, q: seq<Entry<Value>>)
    requires |p| == |q|
    requires forall k :: 0 <= k < |p| ==>
               p[k].key == q[k].key && p[k].value != Undefined && q[k].value != Undefined
                 && Denote(p[k].value) == Denote(q[k].value)
    ensures DenoteProps(p) == DenoteProps(q)
  {
    hide Denote;
    if p != [] { PropsEqual(p[1..], q[1..]); }
  }

  // ----- the digest text identifies the envelope -----

  ghost predicate SameMessage(a: Message, b: Message) {
    a.id == b.id && a.timestamp == b.timestamp && a.attempts == b.attempts && Denote(a.body) == Denote(b.body)
  }

  ghost predicate SameEvent(a: Event, b: Event) {
    if a.QueueEvent? && b.QueueEvent? then
      && a.deliveryId == b.deliveryId && a.occurredAt == b.occurredAt && a.attempt == b.attempt && a.source == b.source
      && |a.messages| == |b.messages|
      && forall k :: 0 <= k < |a.messages| ==> SameMessage(a.messages[k], b.messages[k])
    else a == b
  }

  /** Equal envelopes, where message bodies count as JSON data. */
  ghost predicate SameEnvelope(e: Envelope, f: Envelope) {
    && e.activationId == f.activationId && e.activationRevisionId == f.activationRevisionId
    && e.principal == f.principal && e.source == f.source && e.target == f.target && e.retry == f.retry
    && SameEvent(e.event, f.event)
  }

  lemma TextData(a: string, b: string)
    ensures Denote(Str(a)).Some? && (Denote(Str(a)) == Denote(Str(b)) <==> a == b)
  {
  }

  lemma NumberData(a: nat, b: nat)
    ensures Denote(Finite(Decimal(a))).Some? && (Denote(Finite(Decimal(a))) == Denote(Finite(Decimal(b))) <==> a == b)
  {
    DecimalRoundTrip(a);
    DecimalRoundTrip(b);
  }

  lemma ResourceSolid(r: Resource)
    ensures Solid(ResourceValues(r)) && Denote(ResourceValue(r)).Some?
  {
    hide Denote, Decimal;
    TextData(r.workspaceId, ""); TextData(r.resourceId, ""); TextData(r.revisionId, "");
    NumberData(r.generation, 0);
    RecordDenotes(RESOURCE_KEYS, ResourceValues(r));
  }

  /** Records that start with two resources and have equal data have equal resources. */
  lemma ResourcesAgree(keys: seq<string>, values: seq<Value>, keys': seq<string>, values': seq<Value>, r: Resource,
                       r': Resource)
    requires |keys| == |values| && |keys'| == |values'| && AllDistinct(keys) && AllDistinct(keys') && 4 <= |keys|
             && 4 <= |keys'|
    requires Solid(values) && Solid(values')
    requires keys[..4] == keys'[..4] && values[..4] == ResourceValues(r) && values'[..4] == ResourceValues(r')
    requires Denote(Record(keys, values)).Some? && Denote(Record(keys, values)) == Denote(Record(keys', values'))
    ensures r == r'
  {
    hide Denote, Record, Decimal;
    forall k | 0 <= k < 4 ensures Denote(ResourceValues(r)[k]) == Denote(ResourceValues(r')[k]) {
      assert keys[..4][k] == keys[k] && keys'[..4][k] == keys'[k] && values[..4][k] == values[k]
        && values'[..4][k] == values'[k];
      RecordsAgree(keys, values, keys', values', k, k);
    }
    var a, b := ResourceValues(r), ResourceValues(r');
    assert Denote(a[0]) == Denote(b[0]) && Denote(a[1]) == Denote(b[1]) && Denote(a[2]) == Denote(b[2])
      && Denote(a[3]) == Denote(b[3]);
    TextData(r.workspaceId, r'.workspaceId);
    TextData(r.resourceId, r'.resourceId);
    TextData(r.revisionId, r'.revisionId);
    NumberData(r.generation, r'.generation);
  }

  lemma ResourceData(r: Resource, r': Resource)
    requires Denote(ResourceValue(r)) == Denote(ResourceValue(r'))
    ensures r == r'
  {
    hide Denote, Record;
    KeysDistinct();
    ResourceSolid(r);
    ResourceSolid(r');
    assert ResourceValues(r)[..4] == ResourceValues(r) && ResourceValues(r')[..4] == ResourceValues(r');
    ResourcesAgree(RESOURCE_KEYS, ResourceValues(r), RESOURCE_KEYS, ResourceValues(r'), r, r');
  }

  lemma PrincipalData(p: Principal, q: Principal)
    ensures Denote(PrincipalValue(p)).Some?
    ensures Denote(PrincipalValue(p)) == Denote(PrincipalValue(q)) ==> p == q
  {
    hide Denote, Record;
    KeysDistinct();
    TextData("CapsuleHostBackground", "");
    TextData(p.workspaceId, q.workspaceId); TextData(q.workspaceId, "");
    TextData(p.capsuleId, q.capsuleId); TextData(q.capsuleId, "");
    TextData(p.installingPrincipalId, q.installingPrincipalId); TextData(q.installingPrincipalId, "");
    var a, b := PrincipalValues(p), PrincipalValues(q);
    RecordDenotes(PRINCIPAL_KEYS, a);
    if Denote(PrincipalValue(p)) == Denote(PrincipalValue(q)) {
      RecordsAgree(PRINCIPAL_KEYS, a, PRINCIPAL_KEYS, b, 1, 1);
      RecordsAgree(PRINCIPAL_KEYS, a, PRINCIPAL_KEYS, b, 2, 2);
      RecordsAgree(PRINCIPAL_KEYS, a, PRINCIPAL_KEYS, b, 3, 3);
    }
  }

  lemma SolidConcat(a: seq<Value>, b: seq<Value>)
    requires Solid(a) && Solid(b)
    ensures Solid(a + b)
  {
  }

  lemma TargetData(t: Target, u: Target)
    ensures Denote(TargetValue(t)).Some?
    ensures Denote(TargetValue(t)) == Denote(TargetValue(u)) ==> t == u
  {
    hide Denote, Record, ResourceValues;
    KeysDistinct();
    ResourceSolid(t.resource);
    ResourceSolid(u.resource);
    FourValues(t.resource);
    FourValues(u.resource);
    TextData("EdgeWorker", "");
    TextData(t.entrypoint, u.entrypoint);
    TextData(u.entrypoint, "");
    SolidConcat(ResourceValues(t.resource), [Str("EdgeWorker"), Str(t.entrypoint)]);
    SolidConcat(ResourceValues(u.resource), [Str("EdgeWorker"), Str(u.entrypoint)]);
    var a, b := TargetValues(t), TargetValues(u);
    RecordDenotes(TARGET_KEYS, a);
    if Denote(TargetValue(t)) == Denote(TargetValue(u)) {
      assert a[..4] == ResourceValues(t.resource) && b[..4] == ResourceValues(u.resource);
      ResourcesAgree(TARGET_KEYS, a, TARGET_KEYS, b, t.resource, u.resource);
      RecordsAgree(TARGET_KEYS, a, TARGET_KEYS, b, 5, 5);
      assert a[5] == Str(t.entrypoint) && b[5] == Str(u.entrypoint);
    }
  }

  lemma FourValues(r: Resource)
    ensures |ResourceValues(r)| == 4
  {
  }

  lemma RetryData(r: Retry, q: Retry)
    ensures Denote(RetryValue(r)).Some?
    ensures Denote(RetryValue(r)) == Denote(RetryValue(q)) ==> r == q
  {
    hide Denote, Record, Decimal;
    KeysDistinct();
    NumberData(r.maxAttempts, q.maxAttempts); NumberData(q.maxAttempts, 0);
    NumberData(r.retryDelaySeconds, q.retryDelaySeconds); NumberData(q.retryDelaySeconds, 0);
    TextData(OnExhausted(r.deadLetters), OnExhausted(q.deadLetters)); TextData(OnExhausted(q.deadLetters), "");
    var a, b := RetryValues(r), RetryValues(q);
    RecordDenotes(RETRY_KEYS, a);
    assert |"fail"| != |"dead_letter"|;
    if Denote(RetryValue(r)) == Denote(RetryValue(q)) {
      RecordsAgree(RETRY_KEYS, a, RETRY_KEYS, b, 0, 0);
      RecordsAgree(RETRY_KEYS, a, RETRY_KEYS, b, 1, 1);
      RecordsAgree(RETRY_KEYS, a, RETRY_KEYS, b, 2, 2);
    }
  }

  // ----- sources -----

  function SourceKeys(s: Source): seq<string> {
    if s.Queue? && s.deadLetter.Some? then DEAD_LETTER_KEYS else SCHEDULE_KEYS
  }

  function SourceKind(s: Source): string { if s.Queue? then "Queue" else "Schedule" }

  function SourceTail(s: Source): seq<Value> {
    if s.Queue? && s.deadLetter.Some? then [Str("Queue"), ResourceValue(s.deadLetter.value)] else [Str(SourceKind(s))]
  }

  function SourceValues(s: Source): seq<Value> { ResourceValues(s.resource) + SourceTail(s) }

  lemma SourceShape(s: Source)
    ensures |SourceKeys(s)| == |SourceValues(s)| && SourceValue(s) == Record(SourceKeys(s), SourceValues(s))
    ensures AllDistinct(SourceKeys(s)) && Solid(SourceValues(s)) && Denote(SourceValue(s)).Some?
    ensures SourceKeys(s)[..4] == RESOURCE_KEYS && SourceValues(s)[..4] == ResourceValues(s.resource)
    ensures |SourceKeys(s)| >= 5 && SourceKeys(s)[4] == "kind" && SourceValues(s)[4] == Str(SourceKind(s))
    ensures |SourceKeys(s)| == 6 <==> s.Queue? && s.deadLetter.Some?
    ensures |SourceKeys(s)| == 6 ==>
              SourceKeys(s)[5] == "deadLetterQueue" && SourceValues(s)[5] == ResourceValue(s.deadLetter.value)
  {
    hide Denote, Record, ResourceValues, ResourceValue;
    KeysDistinct();
    FourValues(s.resource);
    ResourceSolid(s.resource);
    TextData(SourceKind(s), "");
    if s.Queue? && s.deadLetter.Some? { ResourceSolid(s.deadLetter.value); }
    SolidConcat(ResourceValues(s.resource), SourceTail(s));
    RecordDenotes(SourceKeys(s), SourceValues(s));
  }

  lemma SourceData(s: Source, t: Source)
    requires Denote(SourceValue(s)) == Denote(SourceValue(t))
    ensures s == t
  {
    hide Denote, Record, ResourceValues, ResourceValue, SourceKeys, SourceValues, SourceValue;
    SourceShape(s);
    SourceShape(t);
    var ks, vs, kt, vt := SourceKeys(s), SourceValues(s), SourceKeys(t), SourceValues(t);
    ResourcesAgree(ks, vs, kt, vt, s.resource, t.resource);
    RecordsAgree(ks, vs, kt, vt, 4, 4);
    TextData(SourceKind(s), SourceKind(t));
    SameDeadLetter(s, t);
    SameDeadLetter(t, s);
    if |ks| == 6 {
      RecordsAgree(ks, vs, kt, vt, 5, 5);
      ResourceData(s.deadLetter.value, t.deadLetter.value);
    }
  }

  lemma SameDeadLetter(s: Source, t: Source)
    requires Denote(SourceValue(s)) == Denote(SourceValue(t))
    ensures |SourceKeys(s)| == 6 ==> |SourceKeys(t)| == 6
  {
    hide Denote, Record, ResourceValues, ResourceValue, SourceValues, SourceValue;
    SourceShape(s);
    SourceShape(t);
    if |SourceKeys(s)| == 6 {
      RecordsShareKeys(SourceKeys(s), SourceValues(s), SourceKeys(t), SourceValues(t), 5);
      assert "deadLetterQueue" !in SCHEDULE_KEYS;
    }
  }

  // ----- messages and events -----

  lemma MessageData(m: Message, n: Message)
    requires Denote(m.body).Some? && Denote(n.body).Some?
    ensures Denote(MessageValue(m)).Some?
    ensures Denote(MessageValue(m)) == Denote(MessageValue(n)) <==> SameMessage(m, n)
  {
    hide Denote, Record, Decimal;
    KeysDistinct();
    TextData(m.id, n.id); TextData(n.id, "");
    TextData(m.timestamp, n.timestamp); TextData(n.timestamp, "");
    NumberData(m.attempts, n.attempts); NumberData(n.attempts, 0);
    var a, b := MessageParts(m), MessageParts(n);
    RecordDenotes(MESSAGE_KEYS, a);
    if Denote(MessageValue(m)) == Denote(MessageValue(n)) {
      RecordsAgree(MESSAGE_KEYS, a, MESSAGE_KEYS, b, 0, 0);
      RecordsAgree(MESSAGE_KEYS, a, MESSAGE_KEYS, b, 1, 1);
      RecordsAgree(MESSAGE_KEYS, a, MESSAGE_KEYS, b, 2, 2);
      RecordsAgree(MESSAGE_KEYS, a, MESSAGE_KEYS, b, 3, 3);
    }
    if SameMessage(m, n) { RecordsEqual(MESSAGE_KEYS, a, b); }
  }

  ghost predicate BodiesDenote(ms: seq<Message>) { forall k :: 0 <= k < |ms| ==> Denote(ms[k].body).Some? }

  lemma {:induction false} ItemsData(vs: seq<Value>)
    requires Solid(vs)
    ensures DenoteItems(vs).Some? && |DenoteItems(vs).value| == |vs|
    ensures forall k :: 0 <= k < |vs| ==> Some(DenoteItems(vs).value[k]) == Denote(vs[k])
  {
    hide Denote;
    if vs != [] { ItemsData(vs[1..]); }
  }

  lemma ArrayData(vs: seq<Value>, ws: seq<Value>)
    requires Solid(vs) && Solid(ws)
    ensures Denote(Arr(vs)).Some?
    ensures Denote(Arr(vs)) == Denote(Arr(ws))
            <==> |vs| == |ws| && forall k :: 0 <= k < |vs| ==> Denote(vs[k]) == Denote(ws[k])
  {
    hide DenoteItems;
    ItemsData(vs);
    ItemsData(ws);
    if |vs| == |ws| && forall k :: 0 <= k < |vs| ==> Denote(vs[k]) == Denote(ws[k]) {
      assert DenoteItems(vs).value == DenoteItems(ws).value;
    }
  }

  lemma MessagesData(ms: seq<Message>, ns: seq<Message>)
    requires BodiesDenote(ms) && BodiesDenote(ns)
    ensures Denote(Arr(MessageValues(ms))).Some?
    ensures Denote(Arr(MessageValues(ms))) == Denote(Arr(MessageValues(ns)))
            <==> |ms| == |ns| && forall k :: 0 <= k < |ms| ==> SameMessage(ms[k], ns[k])
  {
    hide Denote, MessageValue;
    var vs, ws := MessageValues(ms), MessageValues(ns);
    forall k | 0 <= k < |ms| ensures Denote(vs[k]).Some? { MessageData(ms[k], ms[k]); }
    forall k | 0 <= k < |ns| ensures Denote(ws[k]).Some? { MessageData(ns[k], ns[k]); }
    ArrayData(vs, ws);
    forall k | 0 <= k < |ms| && k < |ns| ensures Denote(vs[k]) == Denote(ws[k]) <==> SameMessage(ms[k], ns[k]) {
      MessageData(ms[k], ns[k]);
    }
  }

  ghost predicate EventDenotes(e: Event) { e.QueueEvent? ==> BodiesDenote(e.messages) }

  lemma EventShape(e: Event)
    requires EventDenotes(e)
    ensures |EventKeys(e)| == |EventParts(e)| && EventValue(e) == Record(EventKeys(e), EventParts(e))
    ensures AllDistinct(EventKeys(e)) && Solid(EventParts(e)) && Denote(EventValue(e)).Some?
  {
    hide Denote, Record, Decimal, MessageValues, ResourceValue;
    EventKeysDistinct();
    TextData(if e.QueueEvent? then "queue" else "schedule", "");
    TextData(e.deliveryId, ""); TextData(e.occurredAt, "");
    NumberData(e.attempt, 0);
    ResourceSolid(e.source);
    if e.QueueEvent? {
      MessagesData(e.messages, e.messages);
    } else {
      TextData(e.scheduledAt, "");
      TextData(e.cron, "");
    }
    RecordDenotes(EventKeys(e), EventParts(e));
  }

  lemma EventData(e: Event, f: Event)
    requires EventDenotes(e) && EventDenotes(f)
    ensures Denote(EventValue(e)) == Denote(EventValue(f)) <==> SameEvent(e, f)
  {
    hide Denote, Record, Decimal, MessageValues, ResourceValue, EventValue;
    EventShape(e);
    EventShape(f);
    if Denote(EventValue(e)) == Denote(EventValue(f)) { EventsAgree(e, f); }
    if SameEvent(e, f) && e.QueueEvent? {
      MessagesData(e.messages, f.messages);
      RecordsEqual(EventKeys(e), EventParts(e), EventParts(f));
    }
  }

  lemma EventsAgree(e: Event, f: Event)
    requires EventDenotes(e) && EventDenotes(f) && Denote(EventValue(e)) == Denote(EventValue(f))
    ensures SameEvent(e, f)
  {
    hide Denote, Record, Decimal, MessageValues, ResourceValue, EventValue, SameMessage;
    EventShape(e);
    EventShape(f);
    var ke, ve, kf, vf := EventKeys(e), EventParts(e), EventKeys(f), EventParts(f);
    RecordsAgree(ke, ve, kf, vf, 0, 0);
    RecordsAgree(ke, ve, kf, vf, 1, 1);
    RecordsAgree(ke, ve, kf, vf, 2, 2);
    RecordsAgree(ke, ve, kf, vf, 3, 3);
    RecordsAgree(ke, ve, kf, vf, 4, 4);
    TextData(if e.QueueEvent? then "queue" else "schedule", if f.QueueEvent? then "queue" else "schedule");
    assert |"queue"| != |"schedule"|;
    TextData(e.deliveryId, f.deliveryId);
    TextData(e.occurredAt, f.occurredAt);
    NumberData(e.attempt, f.attempt);
    ResourceData(e.source, f.source);
    RecordsAgree(ke, ve, kf, vf, 5, 5);
    if e.QueueEvent? {
      MessagesData(e.messages, f.messages);
    } else {
      RecordsAgree(ke, ve, kf, vf, 6, 6);
      TextData(e.scheduledAt, f.scheduledAt);
      TextData(e.cron, f.cron);
    }
  }

  // ----- envelopes -----

  lemma EnvelopeSolid(e: Envelope)
    requires EventDenotes(e.event)
    ensures Solid(EnvelopeParts(e)) && Denote(EnvelopeValue(e)).Some?
  {
    hide Denote, Record, PrincipalValue, SourceValue, TargetValue, RetryValue, EventValue;
    TextData(ABI, ""); TextData(e.activationId, ""); TextData(e.activationRevisionId, "");
    PrincipalData(e.principal, e.principal);
    SourceShape(e.source);
    TargetData(e.target, e.target);
    RetryData(e.retry, e.retry);
    EventShape(e.event);
    RecordDenotes(ENVELOPE_KEYS, EnvelopeParts(e));
  }

  lemma EnvelopeData(e: Envelope, f: Envelope)
    requires EventDenotes(e.event) && EventDenotes(f.event)
    ensures Denote(EnvelopeValue(e)) == Denote(EnvelopeValue(f)) <==> SameEnvelope(e, f)
  {
    hide Denote, Record, PrincipalValue, SourceValue, TargetValue, RetryValue, EventValue, SameEvent;
    EventKeysDistinct();
    EnvelopeSolid(e);
    EnvelopeSolid(f);
    var a, b := EnvelopeParts(e), EnvelopeParts(f);
    EventData(e.event, f.event);
    if Denote(EnvelopeValue(e)) == Denote(EnvelopeValue(f)) {
      forall k | 0 <= k < 8 ensures Denote(a[k]) == Denote(b[k]) {
        RecordsAgree(ENVELOPE_KEYS, a, ENVELOPE_KEYS, b, k, k);
      }
      assert Denote(a[1]) == Denote(b[1]) && Denote(a[2]) == Denote(b[2]) && Denote(a[3]) == Denote(b[3])
        && Denote(a[4]) == Denote(b[4]);
      assert Denote(a[5]) == Denote(b[5]) && Denote(a[6]) == Denote(b[6]) && Denote(a[7]) == Denote(b[7]);
      TextData(e.activationId, f.activationId);
      TextData(e.activationRevisionId, f.activationRevisionId);
      PrincipalData(e.principal, f.principal);
      SourceData(e.source, f.source);
      TargetData(e.target, f.target);
      RetryData(e.retry, f.retry);
    }
    if SameEnvelope(e, f) { RecordsEqual(ENVELOPE_KEYS, a, b); }
  }

  // ----- numbers stay numbers -----

  lemma {:induction false} NumericGet(props: seq<Entry<Value>>, key: string)
    requires NumericProps(props)
    ensures Numeric(Get(props, key))
  {
    if props != [] && props[0].key != key { NumericGet(props[1..], key); }
  }

  lemma {:induction false} NumericAt(items: seq<Value>, k: nat)
    requires NumericItems(items) && k < |items|
    ensures Numeric(items[k])
  {
    if k > 0 { NumericAt(items[1..], k - 1); }
  }

  lemma {:induction false} NumericAll(items: seq<Value>)
    requires forall k :: 0 <= k < |items| ==> Numeric(items[k])
    ensures NumericItems(items)
  {
    hide Numeric;
    if items != [] { NumericAll(items[1..]); }
  }

  lemma {:induction false} NumericPropsAll(props: seq<Entry<Value>>)
    requires forall k :: 0 <= k < |props| ==> Numeric(props[k].value)
    ensures NumericProps(props)
  {
    hide Numeric;
    if props != [] { NumericPropsAll(props[1..]); }
  }

  lemma NumericRecord(keys: seq<string>, values: seq<Value>)
    requires |keys| == |values| && forall k :: 0 <= k < |values| ==> Numeric(values[k])
    ensures Numeric(Record(keys, values))
  {
    NumericPropsAll(Record(keys, values).props);
  }

  lemma NumericNat(n: nat)
    ensures Numeric(Finite(Decimal(n)))
  {
    DecimalRoundTrip(n);
  }

  lemma NumericText(s: string)
    ensures Numeric(Str(s))
  {
  }

  lemma ResourceNumeric(r: Resource)
    ensures Numeric(ResourceValue(r)) && forall k :: 0 <= k < 4 ==> Numeric(ResourceValues(r)[k])
  {
    hide Numeric, Record;
    NumericText(r.workspaceId); NumericText(r.resourceId); NumericText(r.revisionId);
    NumericNat(r.generation);
    NumericRecord(RESOURCE_KEYS, ResourceValues(r));
  }

  lemma PartsNumeric(e: Envelope)
    ensures Numeric(PrincipalValue(e.principal)) && Numeric(SourceValue(e.source))
    ensures Numeric(TargetValue(e.target)) && Numeric(RetryValue(e.retry))
  {
    hide Numeric, Record, ResourceValues, ResourceValue, Decimal, SourceValue, Denote, Solid;
    NumericText("CapsuleHostBackground");
    NumericText(e.principal.workspaceId); NumericText(e.principal.capsuleId);
    NumericText(e.principal.installingPrincipalId);
    NumericRecord(PRINCIPAL_KEYS, PrincipalValues(e.principal));
    FourValues(e.target.resource);
    ResourceNumeric(e.target.resource);
    NumericText("EdgeWorker"); NumericText(e.target.entrypoint);
    NumericRecord(TARGET_KEYS, TargetValues(e.target));
    NumericNat(e.retry.maxAttempts); NumericNat(e.retry.retryDelaySeconds);
    NumericText(OnExhausted(e.retry.deadLetters));
    NumericRecord(RETRY_KEYS, RetryValues(e.retry));
    SourceNumeric(e.source);
  }

  lemma SourceNumeric(s: Source)
    ensures Numeric(SourceValue(s))
  {
    hide Numeric, Record, ResourceValues, ResourceValue, SourceValue, Denote, Solid;
    SourceShape(s);
    FourValues(s.resource);
    ResourceNumeric(s.resource);
    NumericText(SourceKind(s));
    if s.Queue? && s.deadLetter.Some? { ResourceNumeric(s.deadLetter.value); }
    NumericRecord(SourceKeys(s), SourceValues(s));
  }

  ghost predicate BodiesNumeric(e: Event) {
    e.QueueEvent? ==> forall k :: 0 <= k < |e.messages| ==> Numeric(e.messages[k].body)
  }

  lemma EventNumeric(e: Event)
    requires EventDenotes(e) && BodiesNumeric(e)
    ensures Numeric(EventValue(e))
  {
    hide Numeric, Record, ResourceValue, Decimal, MessageValues, Denote, Solid, EventValue;
    EventShape(e);
    NumericText("queue"); NumericText("schedule"); NumericText(e.deliveryId); NumericText(e.occurredAt);
    NumericNat(e.attempt);
    ResourceNumeric(e.source);
    if e.QueueEvent? { MessagesNumeric(e); } else { NumericText(e.scheduledAt); NumericText(e.cron); }
    NumericRecord(EventKeys(e), EventParts(e));
  }

  lemma MessagesNumeric(e: Event)
    requires e.QueueEvent? && BodiesNumeric(e)
    ensures Numeric(Arr(MessageValues(e.messages)))
  {
    hide Record, Decimal;
    forall k | 0 <= k < |e.messages| ensures Numeric(MessageValues(e.messages)[k]) {
      hide Numeric;
      var m := e.messages[k];
      NumericText(m.id); NumericText(m.timestamp);
      NumericNat(m.attempts);
      NumericRecord(MESSAGE_KEYS, MessageParts(m));
    }
    NumericAll(MessageValues(e.messages));
  }

  /** Everything a parsed message carries denotes data. */
  lemma ParsedEventDenotes(isTime: string -> bool, v: Value)
    requires ParseEvent(isTime, v).Some? && Numeric(v)
    ensures EventDenotes(ParseEvent(isTime, v).value) && BodiesNumeric(ParseEvent(isTime, v).value)
  {
    hide Numeric, Denote, ParseMessage, ParseMessages, ParseResource, Exact, Get, IsToken, Decimal;
    if Get(v.props, "kind") == Str("queue") {
      ExactIsObject(v, QUEUE_EVENT_KEYS);
      ObjectNumeric(v, "messages");
      ParsedMessagesDenote(isTime, Get(v.props, "messages"));
    }
  }

  lemma ParsedMessagesDenote(isTime: string -> bool, v: Value)
    requires v.Arr? && Numeric(v) && ParseMessages(isTime, v.items).Some?
    ensures BodiesDenote(ParseMessages(isTime, v.items).value)
    ensures forall m :: m in ParseMessages(isTime, v.items).value ==> Numeric(m.body)
  {
    hide Numeric, Denote, ParseMessage, ParseMessages;
    var ms := ParseMessages(isTime, v.items).value;
    forall k | 0 <= k < |ms| ensures Denote(ms[k].body).Some? && Numeric(ms[k].body) {
      ArrayNumeric(v, k);
      ParsedMessageDenotes(isTime, v.items[k]);
    }
  }

  lemma ObjectNumeric(v: Value, key: string)
    requires v.Obj? && Numeric(v)
    ensures Numeric(Get(v.props, key))
  {
    NumericGet(v.props, key);
  }

  lemma ArrayNumeric(v: Value, k: nat)
    requires v.Arr? && Numeric(v) && k < |v.items|
    ensures Numeric(v.items[k])
  {
    NumericAt(v.items, k);
  }

  lemma ParsedMessageDenotes(isTime: string -> bool, v: Value)
    requires ParseMessage(isTime, v).Some? && Numeric(v)
    ensures Denote(ParseMessage(isTime, v).value.body).Some? && Numeric(ParseMessage(isTime, v).value.body)
  {
    hide Numeric, Denote, Stable, Exact, Get;
    ExactIsObject(v, MESSAGE_KEYS);
    ObjectNumeric(v, "body");
    StableIsRender(Get(v.props, "body"));
  }

  /**
   * The text that is hashed for an envelope: two accepted inputs have the same text exactly when the parsed
   * envelopes are the same, whatever the order of the properties in either input.
   */
  lemma DigestTextIffSameEnvelope(isTime: string -> bool, v: Value, w: Value)
    requires Numeric(v) && Numeric(w) && Parse(isTime, v).Some? && Parse(isTime, w).Some?
    ensures Stable(EnvelopeValue(Parse(isTime, v).value)).Some?
    ensures Stable(EnvelopeValue(Parse(isTime, v).value)) == Stable(EnvelopeValue(Parse(isTime, w).value))
            <==> SameEnvelope(Parse(isTime, v).value, Parse(isTime, w).value)
  {
    hide Numeric, Denote, Stable, Parse, EnvelopeValue, SameEnvelope;
    var e, f := Parse(isTime, v).value, Parse(isTime, w).value;
    ParsedEnvelopeData(isTime, v);
    ParsedEnvelopeData(isTime, w);
    StableIsRender(EnvelopeValue(e));
    StableIffSameData(EnvelopeValue(e), EnvelopeValue(f));
    EnvelopeData(e, f);
  }

  lemma ParsedEnvelopeData(isTime: string -> bool, v: Value)
    requires Numeric(v) && Parse(isTime, v).Some?
    ensures EventDenotes(Parse(isTime, v).value.event)
    ensures Numeric(EnvelopeValue(Parse(isTime, v).value)) && Denote(EnvelopeValue(Parse(isTime, v).value)).Some?
  {
    hide Numeric, Denote, Get, Record, Exact, IsToken, ParseSource, ParseTarget, ParsePrincipal, ParseRetry, ParseEvent,
         Agrees, PrincipalValue, SourceValue, TargetValue, RetryValue, EventValue, EventDenotes, BodiesNumeric;
    var e := Parse(isTime, v).value;
    ExactIsObject(v, ENVELOPE_KEYS);
    ObjectNumeric(v, "event");
    ParsedEventDenotes(isTime, Get(v.props, "event"));
    EnvelopeSolid(e);
    PartsNumeric(e);
    EventNumeric(e.event);
    NumericText(ABI); NumericText(e.activationId); NumericText(e.activationRevisionId);
    NumericRecord(ENVELOPE_KEYS, EnvelopeParts(e));
  }
}
