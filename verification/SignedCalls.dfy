/**
 Signing and verifying internal calls (contract/internal-rpc.ts), and the nonce store that makes
 every signed envelope single-use.
 */
module SignedCalls {
  import opened Text
  import opened InternalRpc

  // ----- constant-time comparison -----

  function BitXor(a: nat, b: nat): nat {
    if a == 0 && b == 0 then 0 else (if a % 2 == b % 2 then 0 else 1) + 2 * BitXor(a / 2, b / 2)
  }

  function BitOr(a: nat, b: nat): nat {
    if a == 0 && b == 0 then 0 else (if a % 2 == 0 && b % 2 == 0 then 0 else 1) + 2 * BitOr(a / 2, b / 2)
  }

  lemma {:induction false} XorZero(a: nat, b: nat)
    ensures BitXor(a, b) == 0 <==> a == b
    decreases a + b
  {
    if a != 0 || b != 0 { XorZero(a / 2, b / 2); }
  }

  lemma {:induction false} OrZero(a: nat, b: nat)
    ensures BitOr(a, b) == 0 <==> a == 0 && b == 0
    decreases a + b
  {
    if a != 0 || b != 0 { OrZero(a / 2, b / 2); }
  }

  function CodeAt(s: string, i: nat): nat { if i < |s| then s[i] as int else 0 }

  /** `timingSafeEqualHex` folds lengths and characters into one difference, and is equality. */
  method TimingSafeEqual(a: string, b: string) returns (same: bool)
    ensures same <==> a == b
  {
    var length := if |a| > |b| then |a| else |b|;
    var diff := BitXor(|a|, |b|);
    XorZero(|a|, |b|);
    for i := 0 to length
      invariant diff == 0 <==> |a| == |b| && a[..Prefix(i, |a|)] == b[..Prefix(i, |b|)]
    {
      var x := BitXor(CodeAt(a, i), CodeAt(b, i));
      XorZero(CodeAt(a, i), CodeAt(b, i));
      OrZero(diff, x);
      if |a| == |b| {
        assert a[..i + 1] == a[..i] + [a[i]] && b[..i + 1] == b[..i] + [b[i]];
      }
      diff := BitOr(diff, x);
    }
    assert a[..|a|] == a && b[..|b|] == b;
    same := diff == 0;
  }

  function Prefix(i: nat, n: nat): nat { if i < n then i else n }

  // ----- signing -----

  /** The headers of a signed call, one field each; a missing header reads as the empty text. */
  datatype Headers = Headers(protocol: string, signature: string, timestamp: string, requestId: string, actor: string,
                             bodyDigest: string, nonce: string, caller: string, audience: string, capabilities: string)

  datatype Outgoing = Outgoing(verb: string, path: string, query: Option<string>, body: string, actor: Actor,
                               caller: string, audience: string, capabilities: seq<string>,
                               requestId: string, nonce: string, timestamp: string, secret: string)

  /** `signTakosumiInternalRequest`; None when a field holds a newline. */
  function Sign(c: Crypto, out: Outgoing): Option<Headers> {
    var actorHeader, bodyDigest := c.encodeActor(out.actor), c.digest(out.body);
    var capabilities := NormalizeCapabilities(out.capabilities);
    match CanonicalRequest(c, Request(out.verb, out.path, out.query, bodyDigest, actorHeader, out.caller, out.audience,
                                      capabilities, out.requestId, out.nonce, out.timestamp))
    case None => None
    case Some(text) =>
      Some(Headers(RPC_VERSION, c.hmac(out.secret, text), out.timestamp, out.requestId, actorHeader, bodyDigest,
                   out.nonce, out.caller, out.audience, Join(capabilities, ',')))
  }

  // ----- verifying -----

  datatype Incoming = Incoming(verb: string, path: string, query: Option<string>, body: string, headers: Headers)

  datatype Expected = Expected(secret: string, skew: nat, callers: Option<seq<string>>, audience: string,
                               required: seq<string>)

  datatype Verified = Verified(actor: Actor, caller: string, audience: string, capabilities: seq<string>,
                               requestId: string, nonce: string, timestamp: string)

  predicate WithinSkew(c: Crypto, timestamp: string, skew: nat, now: int) {
    match c.parseDate(timestamp)
    case None => false
    case Some(at) => at - skew <= now <= at + skew
  }

  function RequestOf(call: Incoming): Request {
    var h := call.headers;
    Request(call.verb, call.path, call.query, h.bodyDigest, h.actor, h.caller, h.audience,
            NormalizeCapabilities(ParseCapabilities(h.capabilities)), h.requestId, h.nonce, h.timestamp)
  }

  predicate HasAllHeaders(h: Headers) {
    && h.protocol == RPC_VERSION && h.signature != "" && h.timestamp != "" && h.requestId != "" && h.nonce != ""
    && h.caller != "" && h.audience != "" && h.bodyDigest != "" && h.actor != ""
  }

  predicate Admitted(e: Expected, h: Headers, capabilities: seq<string>) {
    && (e.callers.Some? ==> h.caller in e.callers.value)
    && (e.audience != "" ==> h.audience == e.audience)
    && (forall k :: 0 <= k < |e.required| ==> e.required[k] in capabilities)
  }

  /** The checks of `verifyTakosumiInternalRequestFromHeaders` before the nonce store, with the clock at `now`. */
  function Authenticate(c: Crypto, e: Expected, call: Incoming, now: int): Option<Verified> {
    var h, r := call.headers, RequestOf(call);
    if !HasAllHeaders(h) || !WithinSkew(c, h.timestamp, e.skew, now) || !Admitted(e, h, r.capabilities) then None
    else if c.digest(call.body) != h.bodyDigest then None
    else match c.decodeActor(h.actor)
      case None => None
      case Some(actor) =>
        if actor.requestId != h.requestId then None
        else match CanonicalRequest(c, r)
          case None => None
          case Some(text) =>
            if c.hmac(e.secret, text) != h.signature then None
            else Some(Verified(actor, h.caller, h.audience, r.capabilities, h.requestId, h.nonce, h.timestamp))
  }

  /** The call that carries the headers of a signed request. */
  function Delivered(c: Crypto, out: Outgoing, verb: string): Incoming
    requires Sign(c, out).Some?
  {
    Incoming(verb, out.path, out.query, out.body, Sign(c, out).value)
  }

  /** What the verifier reports of a call that arrives as it was signed. */
  function AsSigned(out: Outgoing): Verified {
    Verified(out.actor, out.caller, out.audience, NormalizeCapabilities(out.capabilities), out.requestId, out.nonce,
             out.timestamp)
  }

  /**
   A signed call verifies as it was signed, whatever the case of its method, exactly when its headers are complete, it
   arrives inside the skew window, it is admitted, its actor survives the codec with the same request id, and no
   capability holds a comma.
   */
  lemma SignedCallVerifies(c: Crypto, e: Expected, out: Outgoing, verb: string, now: int)
    requires Sign(c, out).Some? && e.secret == out.secret && c.upper(verb) == c.upper(out.verb)
    ensures Authenticate(c, e, Delivered(c, out, verb), now) == Some(AsSigned(out)) <==>
              && HasAllHeaders(Sign(c, out).value) && WithinSkew(c, out.timestamp, e.skew, now)
              && Admitted(e, Sign(c, out).value, NormalizeCapabilities(out.capabilities))
              && c.decodeActor(c.encodeActor(out.actor)) == Some(out.actor) && out.actor.requestId == out.requestId
              && CommaFree(out.capabilities)
  {
    hide Join, Split, NormalizeCapabilities, PathWithQuery, ParseCapabilities, CommaFree;
    var norm, call := NormalizeCapabilities(out.capabilities), Delivered(c, out, verb);
    var signed := Request(out.verb, out.path, out.query, c.digest(out.body), c.encodeActor(out.actor), out.caller,
                          out.audience, norm, out.requestId, out.nonce, out.timestamp);
    NormalizeMembers(norm);
    ReadBackIffCommaFree(out.capabilities);
    if CommaFree(out.capabilities) {
      assert RequestOf(call).capabilities == norm;
      assert RequestFields(c, RequestOf(call)) == RequestFields(c, signed);
    }
  }

  /**
   With a comma the call can verify as something else: signed with the one capability `a,b`, it is accepted with the two
   capabilities `a` and `b`, and so where `a` is required.
   */
  lemma CommaCallGainsCapabilities(c: Crypto, e: Expected, out: Outgoing, now: int)
    requires Sign(c, out).Some? && HasAllHeaders(Sign(c, out).value) && e.secret == out.secret
    requires c.decodeActor(c.encodeActor(out.actor)) == Some(out.actor) && out.actor.requestId == out.requestId
    requires WithinSkew(c, out.timestamp, e.skew, now)
    requires out.capabilities == ["a,b"] && e.required == ["a"] && Admitted(e.(required := []), Sign(c, out).value, [])
    ensures Authenticate(c, e, Delivered(c, out, out.verb), now) == Some(AsSigned(out).(capabilities := ["a", "b"]))
    ensures "a" !in NormalizeCapabilities(out.capabilities)
  {
    hide Join, Split, NormalizeCapabilities, PathWithQuery, ParseCapabilities;
    ExampleCapabilities();
    ExampleReadBack();
    var call := Delivered(c, out, out.verb);
    var signed := Request(out.verb, out.path, out.query, c.digest(out.body), c.encodeActor(out.actor), out.caller,
                          out.audience, ["a,b"], out.requestId, out.nonce, out.timestamp);
    assert RequestOf(call).capabilities == ["a", "b"];
    assert RequestFields(c, RequestOf(call)) == RequestFields(c, signed);
  }

  lemma ExampleReadBack()
    ensures NormalizeCapabilities(ParseCapabilities("a,b")) == ["a", "b"]
  {
    hide NormalizeCapabilities;
    SplitOfJoin(["a", "b"], ',');
    ExampleCapabilities();
    TrimmedStays("a");
    TrimmedStays("b");
    assert ["a", "b"][1..] == ["b"] && ["b"][1..] == [];
    assert TrimAll(["a", "b"]) == ["a", "b"];
  }

  /** Two different messages with one signature. */
  ghost predicate HmacCollision(c: Crypto, key: string, a: string, b: string) {
    a != b && c.hmac(key, a) == c.hmac(key, b)
  }

  ghost predicate DigestCollision(c: Crypto, a: string, b: string) { a != b && c.digest(a) == c.digest(b) }

  /** The text that the signature of an accepted call was made of. */
  function SignedText(c: Crypto, call: Incoming): string {
    var text := CanonicalRequest(c, RequestOf(call));
    if text.None? then "" else text.value
  }

  /**
   Two accepted calls with one signature bind the same values, verify to the same result and carry the same body, unless
   their canonical texts collide under the HMAC or their bodies under the digest.
   */
  lemma OneSignatureOneCall(c: Crypto, e: Expected, a: Incoming, b: Incoming, now: int, later: int)
    requires Authenticate(c, e, a, now).Some? && Authenticate(c, e, b, later).Some?
    requires a.headers.signature == b.headers.signature
    ensures || HmacCollision(c, e.secret, SignedText(c, a), SignedText(c, b))
            || (BoundOf(c, RequestOf(a)) == BoundOf(c, RequestOf(b))
                && Authenticate(c, e, a, now) == Authenticate(c, e, b, later))
    ensures HmacCollision(c, e.secret, SignedText(c, a), SignedText(c, b)) || a.body == b.body
            || DigestCollision(c, a.body, b.body)
  {
    hide Join, Split, NormalizeCapabilities, PathWithQuery, ParseCapabilities, CapabilitySet, CommaFree;
    var ra, rb := RequestOf(a), RequestOf(b);
    ParsedAreCommaFree(a.headers.capabilities);
    ParsedAreCommaFree(b.headers.capabilities);
    CanonicalRequestInjective(c, ra, rb);
    NormalizeMembers(ra.capabilities);
    NormalizeMembers(rb.capabilities);
    CapabilitySetsEqual(ra.capabilities, rb.capabilities);
  }

  // ----- responses -----

  datatype ResponseHeaders = ResponseHeaders(signature: string, timestamp: string, requestId: string)

  /** `signInternalResponse`; None when a field of the prefix holds a newline. */
  function SignResponse(c: Crypto, secret: string, r: Response): Option<ResponseHeaders> {
    match CanonicalResponse(c, r)
    case None => None
    case Some(text) => Some(ResponseHeaders(c.hmac(secret, text), r.timestamp, r.requestId))
  }

  /** What the caller of a request knows when the response arrives; an empty expected id is none. */
  datatype Exchange = Exchange(secret: string, skew: nat, expectedId: string)

  /** The response that the caller sees, with the timestamp and the request id that the headers claim. */
  function Seen(verb: string, path: string, status: nat, body: string, h: ResponseHeaders): Response {
    Response(verb, path, status, h.timestamp, h.requestId, body)
  }

  /**
   `verifySignedInternalResponseFromHeaders` with the clock at `now`; None is the error for a newline in the prefix.
   */
  function VerifyResponse(c: Crypto, x: Exchange, r: Response, signature: string, now: int): Option<bool> {
    if signature == "" || r.timestamp == "" || r.requestId == "" then Some(false)
    else if !WithinSkew(c, r.timestamp, x.skew, now) then Some(false)
    else if x.expectedId != "" && x.expectedId != r.requestId then Some(false)
    else match CanonicalResponse(c, r)
      case None => None
      case Some(text) => Some(c.hmac(x.secret, text) == signature)
  }

  /** The headers are complete, the response is in time and it answers the request that was sent. */
  predicate InTime(c: Crypto, x: Exchange, h: ResponseHeaders, now: int) {
    && h.signature != "" && h.timestamp != "" && h.requestId != "" && WithinSkew(c, h.timestamp, x.skew, now)
    && (x.expectedId == "" || x.expectedId == h.requestId)
  }

  /** A signed response verifies exactly when it is in time, whatever the case of the method. */
  lemma SignedResponseVerifies(c: Crypto, x: Exchange, r: Response, verb: string, now: int)
    requires SignResponse(c, x.secret, r).Some? && c.upper(verb) == c.upper(r.verb)
    ensures var h := SignResponse(c, x.secret, r).value;
            var seen := Seen(verb, r.path, r.status, r.body, h);
            VerifyResponse(c, x, seen, h.signature, now) == Some(InTime(c, x, h, now))
  {
    hide Join;
    assert ResponsePrefix(c, r.(verb := verb)) == ResponsePrefix(c, r);
    assert Seen(verb, r.path, r.status, r.body, SignResponse(c, x.secret, r).value) == r.(verb := verb);
  }

  /** Two accepted responses with one signature are the same response, or their texts collide under the HMAC. */
  lemma OneSignatureOneResponse(c: Crypto, x: Exchange, a: Response, b: Response, signature: string, now: int,
                                later: int)
    requires VerifyResponse(c, x, a, signature, now) == Some(true)
    requires VerifyResponse(c, x, b, signature, later) == Some(true)
    ensures || HmacCollision(c, x.secret, CanonicalResponse(c, a).value, CanonicalResponse(c, b).value)
            || (c.upper(a.verb) == c.upper(b.verb) && a.(verb := b.verb) == b)
  {
    hide CanonicalResponse;
    if CanonicalResponse(c, a) == CanonicalResponse(c, b) { CanonicalResponseInjective(c, a, b); }
  }

  /** The signature of an accepted request verifies no response under the same secret, up to a collision. */
  lemma RequestSignatureIsNoResponse(c: Crypto, e: Expected, call: Incoming, now: int, x: Exchange, r: Response,
                                     later: int)
    requires Authenticate(c, e, call, now).Some? && x.secret == e.secret
    requires VerifyResponse(c, x, r, call.headers.signature, later) == Some(true)
    ensures HmacCollision(c, e.secret, SignedText(c, call), CanonicalResponse(c, r).value)
  {
    hide CanonicalResponse, CanonicalRequest, RequestOf;
    RequestIsNotResponse(c, RequestOf(call), r);
  }

  // ----- the nonce store -----

  /** Skew of the timestamp check, delay allowed up to the nonce record, grace before forgetting. */
  datatype Timing = Timing(skew: nat, delay: nat, grace: nat)

  /** What single use is about: the signed timestamp and nonce. */
  datatype Ticket = Ticket(timestamp: int, nonce: string)

  /** A verification between its timestamp check and its nonce record. */
  datatype Pending = Pending(ticket: Ticket, checkedAt: int)

  datatype World = World(now: int, store: map<string, int>, pending: seq<Pending>, accepted: seq<Ticket>)

  datatype Step =
    | Tick(to: int)
    | Check(ticket: Ticket)
    | Record(index: nat)
    | Forget(nonce: string)

  predicate Enabled(t: Timing, w: World, step: Step) {
    match step
    case Tick(to) => w.now <= to
    case Check(ticket) => ticket.timestamp - t.skew <= w.now <= ticket.timestamp + t.skew
    case Record(k) => k < |w.pending| && w.now <= w.pending[k].checkedAt + t.delay
    case Forget(nonce) => nonce in w.store && w.now > w.store[nonce] + t.grace
  }

  /** The store records and checks in one moment; a seen nonce is refused. */
  function Do(t: Timing, w: World, step: Step): World
    requires Enabled(t, w, step)
  {
    match step
    case Tick(to) => w.(now := to)
    case Check(ticket) => w.(pending := w.pending + [Pending(ticket, w.now)])
    case Record(k) =>
      var ticket := w.pending[k].ticket;
      var rest := w.(pending := w.pending[..k] + w.pending[k + 1..]);
      if ticket.nonce in w.store then rest
      else rest.(store := w.store[ticket.nonce := ticket.timestamp + t.skew], accepted := w.accepted + [ticket])
    case Forget(nonce) => w.(store := w.store - {nonce})
  }

  function TicketOf(c: Crypto, v: Verified): Option<Ticket> {
    match c.parseDate(v.timestamp)
    case None => None
    case Some(at) => Some(Ticket(at, v.nonce))
  }

  function Begin(now: int): World { World(now, map[], [], []) }

  /** The world after a run, or None when some step was not enabled. */
  function Run(t: Timing, start: int, steps: seq<Step>): Option<World> {
    if steps == [] then Some(Begin(start))
    else
      var before, last := Run(t, start, steps[..|steps| - 1]), steps[|steps| - 1];
      if before.None? || !Enabled(t, before.value, last) then None else Some(Do(t, before.value, last))
  }

  /** An accepted ticket is still in the store, or no check made in time could still be recorded. */
  ghost predicate Guarded(t: Timing, w: World, ticket: Ticket) {
    || (ticket.nonce in w.store && w.store[ticket.nonce] == ticket.timestamp + t.skew)
    || w.now > ticket.timestamp + t.skew + t.grace
  }

  ghost predicate Safe(t: Timing, w: World) {
    && (forall k :: 0 <= k < |w.accepted| ==> Guarded(t, w, w.accepted[k]))
    && (forall k :: 0 <= k < |w.pending| ==> w.pending[k].checkedAt <= w.pending[k].ticket.timestamp + t.skew)
    && (forall j, k :: 0 <= j < k < |w.accepted| ==> w.accepted[j] != w.accepted[k])
  }

  lemma StepIsSafe(t: Timing, w: World, step: Step)
    requires t.delay <= t.grace && Safe(t, w) && Enabled(t, w, step)
    ensures Safe(t, Do(t, w, step))
  {
    var v := Do(t, w, step);
    match step
    case Tick(_) =>
      forall k | 0 <= k < |v.accepted| ensures Guarded(t, v, v.accepted[k]) { assert Guarded(t, w, w.accepted[k]); }
    case Check(_) =>
      forall k | 0 <= k < |v.accepted| ensures Guarded(t, v, v.accepted[k]) { assert Guarded(t, w, w.accepted[k]); }
    case Record(i) =>
      var ticket := w.pending[i].ticket;
      assert w.pending[i].checkedAt <= ticket.timestamp + t.skew;
      forall k | 0 <= k < |w.accepted|
        ensures Guarded(t, v, w.accepted[k]) && (ticket.nonce !in w.store ==> w.accepted[k] != ticket)
      {
        assert Guarded(t, w, w.accepted[k]);
      }
    case Forget(nonce) =>
      forall k | 0 <= k < |v.accepted| ensures Guarded(t, v, v.accepted[k]) { assert Guarded(t, w, w.accepted[k]); }
  }

  lemma {:induction false} RunIsSafe(t: Timing, start: int, steps: seq<Step>)
    requires t.delay <= t.grace && Run(t, start, steps).Some?
    ensures Safe(t, Run(t, start, steps).value)
  {
    if steps != [] {
      RunIsSafe(t, start, steps[..|steps| - 1]);
      StepIsSafe(t, Run(t, start, steps[..|steps| - 1]).value, steps[|steps| - 1]);
    }
  }

  ghost predicate AcceptsTwice(w: World) {
    exists j, k :: 0 <= j < k < |w.accepted| && w.accepted[j] == w.accepted[k]
  }

  /** Two checks at the last admissible moment, one record, a forgotten nonce, and the second record. */
  function ReplayRun(t: Timing): seq<Step> {
    var ticket := Ticket(0, "n");
    [Tick(t.skew), Check(ticket), Check(ticket), Record(0), Tick(t.skew + t.grace + 1), Forget("n"), Record(0)]
  }

  lemma RunStep(t: Timing, start: int, steps: seq<Step>, step: Step)
    requires Run(t, start, steps).Some? && Enabled(t, Run(t, start, steps).value, step)
    ensures Run(t, start, steps + [step]) == Some(Do(t, Run(t, start, steps).value, step))
  {
    assert (steps + [step])[..|steps|] == steps;
  }

  lemma ReplayRunReplays(t: Timing)
    requires t.grace < t.delay
    ensures Run(t, 0, ReplayRun(t)).Some? && AcceptsTwice(Run(t, 0, ReplayRun(t)).value)
  {
    hide Run;
    var ticket := Ticket(0, "n");
    var s := ReplayRun(t);
    assert Run(t, 0, []) == Some(Begin(0)) by { RunStarts(t, 0); }
    RunStep(t, 0, [], s[0]);
    assert [] + [s[0]] == s[..1];
    RunStep(t, 0, s[..1], s[1]);
    assert s[..1] + [s[1]] == s[..2];
    RunStep(t, 0, s[..2], s[2]);
    assert s[..2] + [s[2]] == s[..3];
    RunStep(t, 0, s[..3], s[3]);
    assert s[..3] + [s[3]] == s[..4];
    RunStep(t, 0, s[..4], s[4]);
    assert s[..4] + [s[4]] == s[..5];
    RunStep(t, 0, s[..5], s[5]);
    assert s[..5] + [s[5]] == s[..6];
    RunStep(t, 0, s[..6], s[6]);
    assert s[..6] + [s[6]] == s;
    var w := Run(t, 0, s).value;
    assert w.accepted[0] == w.accepted[1] == ticket;
  }

  lemma RunStarts(t: Timing, start: int)
    ensures Run(t, start, []) == Some(Begin(start))
  {
  }

  /** No run ever accepts a ticket twice exactly when forgetting waits at least as long as recording may. */
  lemma SingleUseIff(t: Timing)
    ensures (forall start, steps :: Run(t, start, steps).Some? ==> !AcceptsTwice(Run(t, start, steps).value))
            <==> t.delay <= t.grace
  {
    if t.delay <= t.grace {
      forall start, steps | Run(t, start, steps).Some? ensures !AcceptsTwice(Run(t, start, steps).value) {
        RunIsSafe(t, start, steps);
      }
    } else {
      ReplayRunReplays(t);
    }
  }

  // ----- the same for calls -----

  datatype Waiting = Waiting(call: Incoming, checkedAt: int)

  /** The verifier with its store: calls that are being verified and calls that were accepted. */
  datatype Gate = Gate(now: int, store: map<string, int>, waiting: seq<Waiting>, passed: seq<Incoming>)

  datatype GateStep = Later(till: int) | Arrive(call: Incoming) | Settle(index: nat) | Drop(nonce: string)

  function TicketFor(c: Crypto, call: Incoming): Ticket {
    Ticket(match c.parseDate(call.headers.timestamp) { case None => 0 case Some(at) => at }, call.headers.nonce)
  }

  /** A call arrives when every check before the nonce store accepts it at this moment. */
  predicate GateEnabled(c: Crypto, e: Expected, t: Timing, g: Gate, step: GateStep) {
    match step
    case Later(till) => g.now <= till
    case Arrive(call) => Authenticate(c, e, call, g.now).Some?
    case Settle(k) => k < |g.waiting| && g.now <= g.waiting[k].checkedAt + t.delay
    case Drop(nonce) => nonce in g.store && g.now > g.store[nonce] + t.grace
  }

  function GateDo(c: Crypto, e: Expected, t: Timing, g: Gate, step: GateStep): Gate
    requires GateEnabled(c, e, t, g, step)
  {
    match step
    case Later(till) => g.(now := till)
    case Arrive(call) => g.(waiting := g.waiting + [Waiting(call, g.now)])
    case Settle(k) =>
      var call := g.waiting[k].call;
      var rest := g.(waiting := g.waiting[..k] + g.waiting[k + 1..]);
      if call.headers.nonce in g.store then rest
      else rest.(store := g.store[call.headers.nonce := TicketFor(c, call).timestamp + e.skew],
                 passed := g.passed + [call])
    case Drop(nonce) => g.(store := g.store - {nonce})
  }

  function GateBegin(now: int): Gate { Gate(now, map[], [], []) }

  function GateRun(c: Crypto, e: Expected, t: Timing, start: int, steps: seq<GateStep>): Option<Gate> {
    if steps == [] then Some(GateBegin(start))
    else
      var before, last := GateRun(c, e, t, start, steps[..|steps| - 1]), steps[|steps| - 1];
      if before.None? || !GateEnabled(c, e, t, before.value, last) then None
        else Some(GateDo(c, e, t, before.value, last))
  }

  function WorldOf(c: Crypto, g: Gate): World {
    World(g.now, g.store,
          seq(|g.waiting|,
              k requires 0 <= k < |g.waiting| => Pending(TicketFor(c, g.waiting[k].call), g.waiting[k].checkedAt)),
          seq(|g.passed|, k requires 0 <= k < |g.passed| => TicketFor(c, g.passed[k])))
  }

  function StepOf(c: Crypto, step: GateStep): Step {
    match step
    case Later(till) => Tick(till)
    case Arrive(call) => Check(TicketFor(c, call))
    case Settle(k) => Record(k)
    case Drop(nonce) => Forget(nonce)
  }

  function StepsOf(c: Crypto, steps: seq<GateStep>): seq<Step> {
    seq(|steps|, k requires 0 <= k < |steps| => StepOf(c, steps[k]))
  }

  /** Every step of the verifier is a step of the ticket machine. */
  lemma GateStepRefines(c: Crypto, e: Expected, t: Timing, g: Gate, step: GateStep)
    requires t.skew == e.skew && GateEnabled(c, e, t, g, step)
    ensures Enabled(t, WorldOf(c, g), StepOf(c, step))
    ensures WorldOf(c, GateDo(c, e, t, g, step)) == Do(t, WorldOf(c, g), StepOf(c, step))
  {
    hide Authenticate;
    if step.Arrive? { AcceptedInTime(c, e, step.call, g.now); }
    var w, v := WorldOf(c, GateDo(c, e, t, g, step)), Do(t, WorldOf(c, g), StepOf(c, step));
    assert w.pending == v.pending && w.accepted == v.accepted;
  }

  lemma AcceptedInTime(c: Crypto, e: Expected, call: Incoming, now: int)
    requires Authenticate(c, e, call, now).Some?
    ensures var at := TicketFor(c, call).timestamp; at - e.skew <= now <= at + e.skew
    ensures c.parseDate(call.headers.timestamp) == Some(TicketFor(c, call).timestamp)
  {
  }

  ghost predicate Genuine(c: Crypto, e: Expected, call: Incoming) { exists now :: Authenticate(c, e, call, now).Some? }

  ghost predicate AllGenuine(c: Crypto, e: Expected, g: Gate) {
    && (forall k :: 0 <= k < |g.waiting| ==> Genuine(c, e, g.waiting[k].call))
    && (forall k :: 0 <= k < |g.passed| ==> Genuine(c, e, g.passed[k]))
  }

  lemma {:induction false} GateRunRefines(c: Crypto, e: Expected, t: Timing, start: int, steps: seq<GateStep>)
    requires t.skew == e.skew && GateRun(c, e, t, start, steps).Some?
    ensures Run(t, start, StepsOf(c, steps)) == Some(WorldOf(c, GateRun(c, e, t, start, steps).value))
    ensures AllGenuine(c, e, GateRun(c, e, t, start, steps).value)
    decreases |steps|
  {
    hide Authenticate, Do, Enabled;
    if steps == [] {
      assert WorldOf(c, GateBegin(start)) == Begin(start);
    } else {
      var front, last := steps[..|steps| - 1], steps[|steps| - 1];
      GateRunRefines(c, e, t, start, front);
      var before := GateRun(c, e, t, start, front).value;
      GateStepRefines(c, e, t, before, last);
      assert StepsOf(c, steps)[..|steps| - 1] == StepsOf(c, front);
      assert StepsOf(c, steps)[|steps| - 1] == StepOf(c, last);
    }
  }

  /**
   When forgetting waits at least as long as recording may, no run accepts two calls with one signature, unless their
   canonical texts collide under the HMAC.
   */
  lemma SignatureAcceptedOnce(c: Crypto, e: Expected, t: Timing, start: int, steps: seq<GateStep>, j: nat, k: nat)
    requires t.skew == e.skew && t.delay <= t.grace && GateRun(c, e, t, start, steps).Some?
    requires j < k < |GateRun(c, e, t, start, steps).value.passed|
    ensures var passed := GateRun(c, e, t, start, steps).value.passed;
            passed[j].headers.signature == passed[k].headers.signature
            ==> HmacCollision(c, e.secret, SignedText(c, passed[j]), SignedText(c, passed[k]))
  {
    hide Authenticate, GateRun, Run, HmacCollision, RequestOf, BoundOf, Safe, WorldOf, TicketOf, TicketFor, SignedText;
    GateRunRefines(c, e, t, start, steps);
    RunIsSafe(t, start, StepsOf(c, steps));
    var passed := GateRun(c, e, t, start, steps).value.passed;
    var a, b := passed[j], passed[k];
    TicketsDiffer(c, t, GateRun(c, e, t, start, steps).value, j, k);
    assert Genuine(c, e, a) && Genuine(c, e, b);
    var now :| Authenticate(c, e, a, now).Some?;
    var later :| Authenticate(c, e, b, later).Some?;
    VerifiedTicket(c, e, a, now);
    VerifiedTicket(c, e, b, later);
    if a.headers.signature == b.headers.signature { OneSignatureOneCall(c, e, a, b, now, later); }
  }

  lemma TicketsDiffer(c: Crypto, t: Timing, g: Gate, j: nat, k: nat)
    requires Safe(t, WorldOf(c, g)) && j < k < |g.passed|
    ensures TicketFor(c, g.passed[j]) != TicketFor(c, g.passed[k])
  {
    var accepted := WorldOf(c, g).accepted;
    assert accepted[j] != accepted[k];
  }

  lemma VerifiedTicket(c: Crypto, e: Expected, call: Incoming, now: int)
    requires Authenticate(c, e, call, now).Some?
    ensures TicketOf(c, Authenticate(c, e, call, now).value) == Some(TicketFor(c, call))
  {
  }

  // ----- and exactly then -----

  ghost predicate PassedTwice(g: Gate, call: Incoming) {
    exists j, k :: 0 <= j < k < |g.passed| && g.passed[j] == call && g.passed[k] == call
  }

  lemma AuthenticateAgain(c: Crypto, e: Expected, call: Incoming, now: int, later: int)
    requires Authenticate(c, e, call, now).Some?
             && TicketFor(c, call).timestamp <= later <= TicketFor(c, call).timestamp + e.skew
    ensures Authenticate(c, e, call, later).Some?
  {
  }

  lemma GateRunStep(c: Crypto, e: Expected, t: Timing, start: int, steps: seq<GateStep>, step: GateStep)
    requires GateRun(c, e, t, start, steps).Some? && GateEnabled(c, e, t, GateRun(c, e, t, start, steps).value, step)
    ensures GateRun(c, e, t, start, steps + [step]) == Some(GateDo(c, e, t, GateRun(c, e, t, start, steps).value, step))
  {
    hide Authenticate;
    assert (steps + [step])[..|steps|] == steps;
  }

  lemma GateRunStarts(c: Crypto, e: Expected, t: Timing, start: int)
    ensures GateRun(c, e, t, start, []) == Some(GateBegin(start))
  {
  }

  /** Two arrivals at the last admissible moment, one settled, the nonce dropped, and the second settled. */
  lemma GateReplays(c: Crypto, e: Expected, t: Timing, call: Incoming, now: int)
    returns (start: int, steps: seq<GateStep>)
    requires t.skew == e.skew && t.grace < t.delay && Authenticate(c, e, call, now).Some?
    ensures GateRun(c, e, t, start, steps).Some? && PassedTwice(GateRun(c, e, t, start, steps).value, call)
  {
    hide Authenticate, GateRun;
    var at, nonce := TicketFor(c, call).timestamp, call.headers.nonce;
    start, steps := at + e.skew, [];
    AuthenticateAgain(c, e, call, now, start);
    GateRunStarts(c, e, t, start);
    GateRunStep(c, e, t, start, steps, Arrive(call));
    steps := steps + [Arrive(call)];
    GateRunStep(c, e, t, start, steps, Arrive(call));
    steps := steps + [Arrive(call)];
    GateRunStep(c, e, t, start, steps, Settle(0));
    steps := steps + [Settle(0)];
    GateRunStep(c, e, t, start, steps, Later(start + t.grace + 1));
    steps := steps + [Later(start + t.grace + 1)];
    GateRunStep(c, e, t, start, steps, Drop(nonce));
    steps := steps + [Drop(nonce)];
    GateRunStep(c, e, t, start, steps, Settle(0));
    steps := steps + [Settle(0)];
    var passed := GateRun(c, e, t, start, steps).value.passed;
    assert passed[0] == call && passed[1] == call;
  }

  /** A genuine call is accepted at most once in every run exactly when the delay is at most the grace. */
  lemma CallAcceptedOnceIff(c: Crypto, e: Expected, t: Timing, call: Incoming, now: int)
    requires t.skew == e.skew && Authenticate(c, e, call, now).Some?
    ensures (forall start, steps :: GateRun(c, e, t, start, steps).Some?
               ==> !PassedTwice(GateRun(c, e, t, start, steps).value, call))
            <==> t.delay <= t.grace
  {
    hide Authenticate, GateRun, PassedTwice, SignedText;
    if t.delay <= t.grace {
      forall start, steps | GateRun(c, e, t, start, steps).Some?
        ensures !PassedTwice(GateRun(c, e, t, start, steps).value, call)
      {
        OnceInRun(c, e, t, call, start, steps);
      }
    } else {
      var start, steps := GateReplays(c, e, t, call, now);
    }
  }

  lemma OnceInRun(c: Crypto, e: Expected, t: Timing, call: Incoming, start: int, steps: seq<GateStep>)
    requires t.skew == e.skew && t.delay <= t.grace && GateRun(c, e, t, start, steps).Some?
    ensures !PassedTwice(GateRun(c, e, t, start, steps).value, call)
  {
    hide Authenticate, GateRun, SignedText;
    var passed := GateRun(c, e, t, start, steps).value.passed;
    forall j, k | 0 <= j < k < |passed| ensures passed[j] != passed[k] {
      SignatureAcceptedOnce(c, e, t, start, steps, j, k);
    }
  }
}
