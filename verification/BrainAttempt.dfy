/**
 One brain attempt: a first provider call, possibly a second one over a fresh packet,
 and a closing look at a third.  Provider, supplier and request builder answer as they
 please, call by call; the trace records every question asked of them in order.
 */
module BrainAttempt {
  import opened Prelude

  type Id = nat
  type Decision = nat
  type Response = nat

  datatype Mode = Direct | Roa | Moa | Tca | Aoa | V1Option | Audit
                | MoaReconcile | TcaReconcile | AoaReconcile | V1OptionReconcile | AuditReconcile
                | Prospective

  datatype Packet = Packet(fingerprint: nat, body: nat) | NotAPacket
  datatype Request = Request(fingerprint: nat, mode: Mode, packet: nat, selected: bool)
  datatype Attribution = Attribution(id: Id, session: nat)
  datatype Answer =
    | AttributionMismatch
    | MalformedResponse
    | TransportFailure
    | Returned(attribution: Option<Attribution>, response: Response)

  /** What the environment does at its n-th question; `None` is an exception. */
  datatype Environment = Environment(
    identity: nat -> Option<Id>,
    answer: nat -> Answer,
    supply: nat -> Option<Packet>,
    build: (nat, Packet, Mode, Option<Decision>) -> Option<Request>,
    validate: (Request, Response) -> Option<Decision>)

  datatype Event =
    | Look(id: Option<Id>)
    | Call(request: Request)
    | Supply(packet: Option<Packet>)
    | Build(source: Packet, mode: Mode, built: Option<Request>)

  datatype Code =
    | InputInvalid | StaleBeforeDecision | IdentityChanged | ResponseInvalid | Transport
    | StaleBeforeReturn | PacketUnavailable | PacketInvalid | StaleBeforeSecond

  datatype Outcome =
    | Done(decision: Decision, attributions: seq<Attribution>)
    | Failed(code: Code, invocations: nat)

  datatype Stage = Answered(decision: Decision, attribution: Attribution) | Refused(code: Code)

  function Calls(trace: seq<Event>): nat {
    if trace == [] then 0 else Calls(trace[..|trace| - 1]) + (if trace[|trace| - 1].Call? then 1 else 0)
  }

  predicate SingleCall(mode: Mode) {
    mode == Direct || mode == Roa
  }

  function Second(mode: Mode): Mode {
    match mode
    case Moa => MoaReconcile
    case Tca => TcaReconcile
    case Aoa => AoaReconcile
    case V1Option => V1OptionReconcile
    case _ => AuditReconcile
  }

  /** Whether whole requests are rebuilt and compared, not only packet fingerprints. */
  predicate Guarded(first: Request) {
    first.mode in {Moa, Tca, Aoa, V1Option} || first.selected
  }

  /** The n-th call was answered with this attribution, and its response validates to this decision. */
  ghost predicate Gave(env: Environment, n: nat, request: Request, decision: Decision, attribution: Attribution) {
    && env.answer(n).Returned? && env.answer(n).attribution == Some(attribution)
    && env.validate(request, env.answer(n).response) == Some(decision)
  }

  // ----- What the traces say -----

  /** Each call is made right after the provider was seen with its configured identity. */
  ghost predicate CallsAsConfigured(trace: seq<Event>, c: Id) {
    forall i :: 0 <= i < |trace| ==> CallAsConfigured(trace, i, c)
  }

  ghost predicate CallAsConfigured(trace: seq<Event>, i: nat, c: Id)
    requires i < |trace|
  {
    trace[i].Call? ==> i > 0 && trace[i - 1] == Look(Some(c))
  }

  lemma OneMoreEvent(trace: seq<Event>, e: Event, c: Id)
    requires CallsAsConfigured(trace, c)
    requires e.Call? ==> trace != [] && trace[|trace| - 1] == Look(Some(c))
    ensures CallsAsConfigured(trace + [e], c) && Calls(trace + [e]) == Calls(trace) + (if e.Call? then 1 else 0)
  {
    forall i | 0 <= i < |trace + [e]|
      ensures CallAsConfigured(trace + [e], i, c)
    {
      if i < |trace| {
        assert CallAsConfigured(trace, i, c);
      }
    }
    assert (trace + [e])[..|trace|] == trace;
  }

  /** A packet supplied in this stretch reproduces the first one, as closely as the mode demands. */
  ghost predicate Reproduces(stretch: seq<Event>, first: Request) {
    exists i, p :: 0 <= i < |stretch| && stretch[i] == Supply(Some(p)) && p.Packet? && p.fingerprint == first.packet &&
      (Guarded(first) ==> Rebuilt(stretch[i..], p, first))
  }

  ghost predicate Rebuilt(stretch: seq<Event>, p: Packet, first: Request) {
    exists k, r :: 0 <= k < |stretch| && stretch[k] == Build(p, first.mode, Some(r)) && r.fingerprint == first.fingerprint
  }

  /** A packet supplied in this stretch rebuilds into a request with the first one's fingerprint. */
  ghost predicate Closes(stretch: seq<Event>, first: Request) {
    exists i, p :: 0 <= i < |stretch| && stretch[i] == Supply(Some(p)) && Rebuilt(stretch[i..], p, first)
  }

  /** Two calls, the first with the first request, and between them a packet that reproduces it. */
  ghost predicate SecondIsFresh(trace: seq<Event>, first: Request) {
    exists a, b, second, c :: Split(trace, a, first, b, second, c) && Reproduces(b, first)
  }

  ghost predicate Split(trace: seq<Event>, a: seq<Event>, first: Request, b: seq<Event>, second: Request, c: seq<Event>) {
    && trace == a + [Call(first)] + b + [Call(second)] + c
    && Quiet(a) && Quiet(b) && Quiet(c)
  }

  ghost predicate Quiet(s: seq<Event>) {
    forall i :: 0 <= i < |s| ==> !s[i].Call?
  }

  /** However the calls of such a trace are found, a packet supplied between them reproduces the first request. */
  lemma FreshBetween(trace: seq<Event>, first: Request, i: nat, j: nat)
    requires SecondIsFresh(trace, first) && i < j < |trace| && trace[i].Call? && trace[j].Call?
    ensures trace[i] == Call(first) && Reproduces(trace[i + 1..j], first)
  {
    var a, b, second, c :| Split(trace, a, first, b, second, c) && Reproduces(b, first);
    CallPositions(trace, a, first, b, second, c, i);
    CallPositions(trace, a, first, b, second, c, j);
    assert trace[i + 1..j] == b;
  }

  lemma CallPositions(
    trace: seq<Event>, a: seq<Event>, first: Request, b: seq<Event>, second: Request, c: seq<Event>, i: nat)
    requires Split(trace, a, first, b, second, c) && i < |trace|
    ensures trace[i].Call? ==> i == |a| || i == |a| + 1 + |b|
  {
    if i < |a| {
      assert trace[i] == a[i];
    } else if |a| < i < |a| + 1 + |b| {
      assert trace[i] == b[i - |a| - 1];
    } else if |a| + 1 + |b| < i {
      assert trace[i] == c[i - |a| - |b| - 2];
    }
  }

  lemma {:induction false} NoCallsIsQuiet(s: seq<Event>)
    ensures Calls(s) == 0 <==> Quiet(s)
  {
    if s != [] {
      NoCallsIsQuiet(s[..|s| - 1]);
      assert s == s[..|s| - 1] + [s[|s| - 1]];
    }
  }

  lemma MoreStretch(before: seq<Event>, s: seq<Event>, after: seq<Event>, first: Request)
    requires Reproduces(s, first)
    ensures Reproduces(before + s + after, first)
  {
    var i, p :| 0 <= i < |s| && s[i] == Supply(Some(p)) && p.Packet? && p.fingerprint == first.packet &&
      (Guarded(first) ==> Rebuilt(s[i..], p, first));
    var all, at := before + s + after, |before| + i;
    assert all[at] == s[i] && all[at..] == s[i..] + after;
    if Guarded(first) {
      var k, r :| 0 <= k < |s[i..]| && s[i..][k] == Build(p, first.mode, Some(r)) && r.fingerprint == first.fingerprint;
      assert all[at..][k] == Build(p, first.mode, Some(r));
    }
  }

  lemma OneMoreSeen(s: seq<Event>, last: Event, first: Request)
    requires Reproduces(s, first) && !last.Call? && Quiet(s)
    ensures Reproduces(s + [last], first) && Quiet(s + [last])
  {
    MoreStretch([], s, [last], first);
    assert [] + s + [last] == s + [last];
  }

  /** The trace of two calls, put together from its parts. */
  lemma FreshTrace(
    a: seq<Event>, look: Event, first: Request, tail: seq<Event>, renewal: seq<Event>,
    again: Event, second: Request, rest: seq<Event>)
    requires Quiet(a) && Quiet(tail) && Quiet(renewal) && Quiet(rest) && !look.Call? && !again.Call?
    requires Reproduces(renewal, first)
    ensures SecondIsFresh(a + [look, Call(first)] + tail + renewal + [again, Call(second)] + rest, first)
  {
    var trace := a + [look, Call(first)] + tail + renewal + [again, Call(second)] + rest;
    MoreStretch(tail, renewal, [again], first);
    assert trace == (a + [look]) + [Call(first)] + (tail + renewal + [again]) + [Call(second)] + rest;
    assert Split(trace, a + [look], first, tail + renewal + [again], second, rest);
  }

  class Attempt {
    const env: Environment
    const configured: Id
    var count: nat
    var looks: nat
    var supplies: nat
    var builds: nat
    ghost var trace: seq<Event>

    ghost predicate Valid()
      reads this
    {
      count == Calls(trace) && CallsAsConfigured(trace, configured)
    }

    constructor (e: Environment, c: Id)
      ensures env == e && configured == c && count == 0 && trace == [] && Valid()
      ensures looks == 1 && supplies == 0 && builds == 0
    {
      env, configured, count, looks, supplies, builds, trace := e, c, 0, 1, 0, 0, [];
    }

    method IdentityChanged() returns (changed: bool, id: Option<Id>)
      requires Valid()
      modifies this`looks, this`trace
      ensures Valid() && trace == old(trace) + [Look(id)] && (changed <==> id != Some(configured))
      ensures id == env.identity(old(looks)) && looks == old(looks) + 1
    {
      id := env.identity(looks);
      looks := looks + 1;
      Note(Look(id));
      changed := id != Some(configured);
    }

    /** Records an event other than a call. */
    ghost method Note(e: Event)
      requires Valid() && !e.Call?
      modifies this`trace
      ensures Valid() && trace == old(trace) + [e]
    {
      OneMoreEvent(trace, e, configured);
      trace := trace + [e];
    }

    ghost method NoteCall(r: Request)
      requires Valid() && trace != [] && trace[|trace| - 1] == Look(Some(configured))
      modifies this`trace
      ensures trace == old(trace) + [Call(r)] && Calls(trace) == count + 1 && CallsAsConfigured(trace, configured)
    {
      OneMoreEvent(trace, Call(r), configured);
      trace := trace + [Call(r)];
    }

    method Supplied() returns (p: Option<Packet>)
      requires Valid()
      modifies this`supplies, this`trace
      ensures Valid() && trace == old(trace) + [Supply(p)] && p == env.supply(old(supplies)) && supplies == old(supplies) + 1
    {
      p := env.supply(supplies);
      supplies := supplies + 1;
      Note(Supply(p));
    }

    method Construct(p: Packet, mode: Mode, stage1: Option<Decision>) returns (r: Option<Request>)
      requires Valid()
      modifies this`builds, this`trace
      ensures Valid() && trace == old(trace) + [Build(p, mode, r)]
      ensures r == env.build(old(builds), p, mode, stage1) && builds == old(builds) + 1
    {
      r := env.build(builds, p, mode, stage1);
      builds := builds + 1;
      Note(Build(p, mode, r));
    }

    /** Everything after the provider has answered. */
    method Settle(request: Request, answer: Answer) returns (r: Stage, ghost tail: seq<Event>)
      requires Valid()
      modifies this`looks, this`trace
      ensures Valid() && Quiet(tail) && trace == old(trace) + tail
      ensures r.Answered? ==> tail == [Look(Some(configured)), Look(Some(configured))]
      ensures r.Answered? ==> answer.Returned? && answer.attribution == Some(r.attribution) && r.attribution.id == configured
      ensures r.Answered? ==> env.validate(request, answer.response) == Some(r.decision)
      ensures r == Settled(env, configured, old(looks), request, answer)
      ensures r.Answered? ==> looks == old(looks) + 2
    {
      var changed, id := IdentityChanged();
      tail := [Look(id)];
      if changed {
        return Refused(Code.IdentityChanged), tail;
      }
      match answer {
        case AttributionMismatch => return Refused(Code.IdentityChanged), tail;
        case MalformedResponse => return Refused(ResponseInvalid), tail;
        case TransportFailure => return Refused(Transport), tail;
        case Returned(attribution, response) =>
          if attribution.None? {
            return Refused(ResponseInvalid), tail;
          }
          if attribution.value.id != configured {
            return Refused(Code.IdentityChanged), tail;
          }
          var again, now := IdentityChanged();
          tail := [Look(id), Look(now)];
          if again {
            return Refused(Code.IdentityChanged), tail;
          }
          var decision := env.validate(request, response);
          if decision.None? {
            return Refused(ResponseInvalid), tail;
          }
          r := Answered(decision.value, attribution.value);
      }
    }

    /** One provider call with its identity checks before, between and after. */
    method Invoke(request: Request) returns (r: Stage, ghost tail: seq<Event>)
      requires Valid()
      modifies this`count, this`looks, this`trace
      ensures Valid() && Quiet(tail)
      ensures count == old(count) || count == old(count) + 1
      ensures count == old(count) ==> trace == old(trace) + tail
      ensures count > old(count) ==> trace == old(trace) + [Look(Some(configured)), Call(request)] + tail
      ensures r.Answered? ==> count == old(count) + 1 && r.attribution.id == configured
      ensures r.Answered? ==> Gave(env, old(count), request, r.decision, r.attribution)
      ensures r == if env.identity(old(looks)) != Some(configured) then Refused(Code.IdentityChanged)
                   else Settled(env, configured, old(looks) + 1, request, env.answer(old(count)))
      ensures count > old(count) <==> env.identity(old(looks)) == Some(configured)
      ensures r.Answered? ==> looks == old(looks) + 3
    {
      var changed, id := IdentityChanged();
      if changed {
        return Refused(Code.IdentityChanged), [Look(id)];
      }
      var answer := env.answer(count);
      NoteCall(request);
      count := count + 1;
      r, tail := Settle(request, answer);
    }

    /** The closing look: supply once more, rebuild, compare. */
    method Close(first: Request) returns (code: Option<Code>, ghost seen: seq<Event>)
      requires Valid()
      modifies this`supplies, this`builds, this`trace
      ensures Valid() && trace == old(trace) + seen && Quiet(seen)
      ensures code.None? ==> Closes(seen, first)
      ensures code.Some? && first.mode == Direct ==> code.value == StaleBeforeReturn
      ensures code == None <==> ClosesNow(env, old(supplies), old(builds), first)
    {
      var p := Supplied();
      seen := [Supply(p)];
      if p.None? {
        return Some(if first.mode == Direct then StaleBeforeReturn else PacketUnavailable), seen;
      }
      if p.value.NotAPacket? {
        return Some(if first.mode == Direct then StaleBeforeReturn else PacketInvalid), seen;
      }
      var r := Construct(p.value, first.mode, None);
      seen := [Supply(p), Build(p.value, first.mode, r)];
      if r.None? {
        return Some(if first.mode == Direct then StaleBeforeReturn else PacketInvalid), seen;
      }
      if r.value.fingerprint != first.fingerprint {
        return Some(StaleBeforeReturn), seen;
      }
      RebuiltBy(p.value, r.value, first);
      code := None;
    }

    /** A fresh packet compared with the first, as closely as the mode demands. */
    method Reproduce(first: Request) returns (code: Code, p: Option<Packet>, ghost seen: seq<Event>)
      requires Valid()
      modifies this`supplies, this`builds, this`trace
      ensures Valid() && trace == old(trace) + seen && Quiet(seen)
      ensures p.Some? ==> Reproduces(seen, first) && p == env.supply(old(supplies))
      ensures p.Some? <==> ReproducesNow(env, old(supplies), old(builds), first)
      ensures supplies == old(supplies) + 1 && (p.Some? ==> builds == old(builds) + if Guarded(first) then 1 else 0)
    {
      var supplied := Supplied();
      seen := [Supply(supplied)];
      if supplied.None? {
        return PacketUnavailable, None, seen;
      }
      var packet := supplied.value;
      if packet.NotAPacket? {
        return PacketInvalid, None, seen;
      }
      if Guarded(first) {
        var r := Construct(packet, first.mode, None);
        seen := [Supply(Some(packet)), Build(packet, first.mode, r)];
        if r.None? {
          return PacketInvalid, None, seen;
        }
        if r.value.fingerprint != first.fingerprint {
          return StaleBeforeSecond, None, seen;
        }
        RebuiltBy(packet, r.value, first);
      }
      if packet.fingerprint != first.packet {
        return StaleBeforeSecond, None, seen;
      }
      ReproducedBy(seen, packet, first);
      return InputInvalid, Some(packet), seen;
    }

    /** Between the calls: a reproduced packet, then the second request. */
    method Renew(first: Request, stage1: Decision) returns (code: Code, second: Option<Request>, ghost seen: seq<Event>)
      requires Valid()
      modifies this`supplies, this`builds, this`trace
      ensures Valid() && trace == old(trace) + seen && Quiet(seen)
      ensures second.Some? ==> Reproduces(seen, first)
      ensures second == Renewed(env, old(supplies), old(builds), first, stage1)
      ensures supplies == old(supplies) + 1
      ensures second.Some? ==> builds == old(builds) + if Guarded(first) then 2 else 1
    {
      var p;
      code, p, seen := Reproduce(first);
      if p.None? {
        return code, None, seen;
      }
      second := Construct(p.value, Second(first.mode), Some(stage1));
      ghost var last := Build(p.value, Second(first.mode), second);
      OneMoreSeen(seen, last, first);
      seen := seen + [last];
    }

    /** The first request, over a packet that the supplier still gives where that is demanded. */
    method Prepare(ask: Ask) returns (code: Code, first: Option<Request>)
      requires Valid() && count == 0
      modifies this`supplies, this`builds, this`trace
      ensures Valid()
      ensures first.Some? ==> BuiltFrom(trace, ask, first.value)
      ensures first == Prepared(env, ask, old(supplies), old(builds)) && looks == old(looks)
      ensures first.Some? ==> supplies == old(supplies) + Checks(ask) && builds == old(builds) + 1
    {
      if ask.admission {
        var current := Supplied();
        if current != Some(ask.packet) {
          return InputInvalid, None;
        }
      }
      code := InputInvalid;
      first := Construct(ask.packet, ask.asked, None);
      if first.Some? {
        assert trace[|trace| - 1] == Build(ask.packet, ask.asked, first);
        if ask.consultation {
          ghost var begun := trace;
          var current := Supplied();
          StillBuilt(begun, trace, ask, first.value);
          if current != Some(ask.packet) {
            return StaleBeforeDecision, None;
          }
        }
      }
    }

    /** The outcome agrees with the count, and what it returns is what the provider answered. */
    ghost predicate Accounts(o: Outcome)
      reads this
    {
      match o
      case Failed(_, invocations) => invocations == count
      case Done(decision, attributions) =>
        && |attributions| == count > 0 && Final(env, count - 1, decision)
        && forall k :: 0 <= k < count ==> Answers(env, k, attributions[k]) && attributions[k].id == configured
    }

    /** DIRECT and conformance: one call, then at most a closing look. */
    method FinishSingle(first: Request, s1: Stage) returns (o: Outcome)
      requires Valid() && count == 1 && s1.Answered? && s1.attribution.id == configured
      requires Gave(env, 0, first, s1.decision, s1.attribution)
      modifies this
      ensures Valid() && count == 1 && Accounts(o) && old(trace) <= trace
      ensures o.Done? && NeedsClosing(first) ==> EndsClosed(trace, first)
      ensures o.Done? <==> (EndsWithLook(first) ==> ClosesNow(env, old(supplies), old(builds), first))
    {
      if NeedsClosing(first) {
        ghost var called := trace;
        var code, closing := Close(first);
        if code.Some? {
          return Failed(code.value, count);
        }
        assert trace == called + closing;
      }
      o := Done(s1.decision, [s1.attribution]);
    }

    /** The second call, and under a guard the closing look. */
    method FinishSecond(first: Request, s1: Stage, second: Request,
                        ghost t0: seq<Event>, ghost tail: seq<Event>, ghost renewal: seq<Event>) returns (o: Outcome)
      requires Valid() && count == 1 && s1.Answered? && s1.attribution.id == configured
      requires Gave(env, 0, first, s1.decision, s1.attribution)
      requires trace == t0 + [Look(Some(configured)), Call(first)] + tail + renewal
      requires Quiet(t0) && Quiet(tail) && Quiet(renewal) && Reproduces(renewal, first)
      modifies this
      ensures Valid() && 1 <= count <= 2 && Accounts(o) && old(trace) <= trace
      ensures o.Done? ==> count == 2
      ensures count == 2 ==> SecondIsFresh(trace, first)
      ensures o.Done? && NeedsClosing(first) ==> EndsClosed(trace, first)
      ensures o.Done? <==>
                && env.identity(old(looks)) == Some(configured)
                && Settled(env, configured, old(looks) + 1, second, env.answer(1)).Answered?
                && (NeedsClosing(first) ==> ClosesNow(env, old(supplies), old(builds), first))
    {
      ghost var t1 := trace;
      var s2, rest := Invoke(second);
      if count == 1 {
        return Failed(s2.code, count);
      }
      if s2.Refused? || !NeedsClosing(first) {
        FreshTrace(t0, Look(Some(configured)), first, tail, renewal, Look(Some(configured)), second, rest);
        assert trace == t1 + [Look(Some(configured)), Call(second)] + rest;
        return if s2.Refused? then Failed(s2.code, count) else Done(s2.decision, [s1.attribution, s2.attribution]);
      }
      ghost var called := trace;
      var stale, closing := Close(first);
      FreshTrace(t0, Look(Some(configured)), first, tail, renewal, Look(Some(configured)), second, rest + closing);
      assert trace == called + closing == t1 + [Look(Some(configured)), Call(second)] + (rest + closing);
      o := if stale.Some? then Failed(stale.value, count) else Done(s2.decision, [s1.attribution, s2.attribution]);
    }

    /** A reproduced packet, the second call, and under a guard the closing look. */
    method FinishDouble(first: Request, s1: Stage, ghost t0: seq<Event>, ghost tail: seq<Event>) returns (o: Outcome)
      requires Valid() && count == 1 && s1.Answered? && s1.attribution.id == configured
      requires Gave(env, 0, first, s1.decision, s1.attribution) && first.mode != Direct
      requires trace == t0 + [Look(Some(configured)), Call(first)] + tail && Quiet(t0) && Quiet(tail)
      modifies this
      ensures Valid() && 1 <= count <= 2 && Accounts(o) && old(trace) <= trace
      ensures o.Done? ==> count == 2
      ensures count == 2 ==> SecondIsFresh(trace, first)
      ensures o.Done? && NeedsClosing(first) ==> EndsClosed(trace, first)
      ensures o.Done? <==> SecondSucceeds(env, configured, old(looks), old(supplies), old(builds), first, s1.decision)
    {
      var code, second, renewal := Renew(first, s1.decision);
      if second.None? {
        return Failed(code, count);
      }
      o := FinishSecond(first, s1, second.value, t0, tail, renewal);
    }

    /** All stages after the first request has been built. */
    method Stages(first: Request) returns (o: Outcome)
      requires Valid() && count == 0
      modifies this
      ensures Valid() && count <= 2 && Accounts(o) && old(trace) <= trace
      ensures o.Done? ==> count == if SingleCall(first.mode) then 1 else 2
      ensures count == 2 ==> SecondIsFresh(trace, first)
      ensures o.Done? && NeedsClosing(first) ==> EndsClosed(trace, first)
      ensures o.Done? <==> AttemptSucceeds(env, configured, old(looks), old(supplies), old(builds), first)
    {
      ghost var t0 := trace;
      NoCallsIsQuiet(t0);
      var s1, tail := Invoke(first);
      if s1.Refused? {
        return Failed(s1.code, count);
      }
      if SingleCall(first.mode) {
        o := FinishSingle(first, s1);
      } else {
        o := FinishDouble(first, s1, t0, tail);
      }
    }
  }

  // ----- When a step succeeds, in the answers of the environment -----

  /** How often the packet is checked before the first call. */
  function Checks(ask: Ask): nat {
    (if ask.admission then 1 else 0) + (if ask.consultation then 1 else 0)
  }

  /** The first request, where every check before it finds the packet unchanged. */
  ghost function Prepared(env: Environment, ask: Ask, supply: nat, build: nat): Option<Request> {
    if forall k :: supply <= k < supply + Checks(ask) ==> env.supply(k) == Some(ask.packet)
    then env.build(build, ask.packet, ask.asked, None)
    else None
  }

  /** What becomes of a provider's answer, given the looks that follow the call. */
  function Settled(env: Environment, c: Id, look: nat, request: Request, answer: Answer): Stage {
    if env.identity(look) != Some(c) || answer.AttributionMismatch? then Refused(Code.IdentityChanged)
    else if answer.TransportFailure? then Refused(Transport)
    else if answer.MalformedResponse? || answer.attribution.None? then Refused(ResponseInvalid)
    else if answer.attribution.value.id != c || env.identity(look + 1) != Some(c) then Refused(Code.IdentityChanged)
    else
      match env.validate(request, answer.response)
      case None => Refused(ResponseInvalid)
      case Some(decision) => Answered(decision, answer.attribution.value)
  }

  ghost predicate RebuildsNow(env: Environment, build: nat, p: Packet, first: Request) {
    var r := env.build(build, p, first.mode, None);
    r.Some? && r.value.fingerprint == first.fingerprint
  }

  ghost predicate ClosesNow(env: Environment, supply: nat, build: nat, first: Request) {
    var p := env.supply(supply);
    p.Some? && p.value.Packet? && RebuildsNow(env, build, p.value, first)
  }

  /** A packet with the first fingerprint that, in the four construct modes or under a selection, rebuilds the request. */
  ghost predicate ReproducesNow(env: Environment, supply: nat, build: nat, first: Request) {
    var p := env.supply(supply);
    && p.Some? && p.value.Packet? && p.value.fingerprint == first.packet
    && (first.selected || first.mode == Moa || first.mode == Tca || first.mode == Aoa || first.mode == V1Option ==>
          RebuildsNow(env, build, p.value, first))
  }

  /** The reconciliation that belongs to each construct mode. */
  ghost function Reconciles(mode: Mode): Mode {
    if mode == Moa then MoaReconcile else if mode == Tca then TcaReconcile else if mode == Aoa then AoaReconcile
    else if mode == V1Option then V1OptionReconcile else AuditReconcile
  }

  ghost function Renewed(env: Environment, supply: nat, build: nat, first: Request, stage1: Decision): Option<Request> {
    if !ReproducesNow(env, supply, build, first) then None
    else env.build(if Guarded(first) then build + 1 else build, env.supply(supply).value, Reconciles(first.mode), Some(stage1))
  }

  /** DIRECT under a selection, conformance, and every guarded attempt end with a closing look. */
  ghost predicate EndsWithLook(first: Request) {
    if first.mode == Direct then first.selected
    else first.mode == Roa || first.selected || first.mode == Moa || first.mode == Tca || first.mode == Aoa || first.mode == V1Option
  }

  /** The second half of a double attempt. */
  ghost predicate SecondSucceeds(env: Environment, c: Id, look: nat, supply: nat, build: nat, first: Request, stage1: Decision) {
    var second := Renewed(env, supply, build, first, stage1);
    && second.Some? && env.identity(look) == Some(c)
    && Settled(env, c, look + 1, second.value, env.answer(1)).Answered?
    && (EndsWithLook(first) ==> ClosesNow(env, supply + 1, if Guarded(first) then build + 2 else build + 1, first))
  }

  /** An attempt succeeds exactly if its first call does, and then whatever its mode demands. */
  ghost predicate AttemptSucceeds(env: Environment, c: Id, look: nat, supply: nat, build: nat, first: Request) {
    && env.identity(look) == Some(c)
    && var s1 := Settled(env, c, look + 1, first, env.answer(0));
    && s1.Answered?
    && (if first.mode == Direct || first.mode == Roa then
          EndsWithLook(first) ==> ClosesNow(env, supply, build, first)
        else SecondSucceeds(env, c, look + 3, supply, build, first, s1.decision))
  }

  ghost predicate Answers(env: Environment, n: nat, attribution: Attribution) {
    env.answer(n).Returned? && env.answer(n).attribution == Some(attribution)
  }

  ghost predicate EndsClosed(trace: seq<Event>, first: Request) {
    exists before, closing :: trace == before + closing && Quiet(closing) && Closes(closing, first)
  }

  /** The decision is what the response to the last call validates to. */
  ghost predicate Final(env: Environment, n: nat, decision: Decision) {
    env.answer(n).Returned? && exists r :: env.validate(r, env.answer(n).response) == Some(decision)
  }

  predicate NeedsClosing(first: Request) {
    if first.mode == Direct then first.selected else first.mode == Roa || Guarded(first)
  }

  lemma RebuiltBy(p: Packet, r: Request, first: Request)
    requires r.fingerprint == first.fingerprint
    ensures Rebuilt([Supply(Some(p)), Build(p, first.mode, Some(r))], p, first)
    ensures Closes([Supply(Some(p)), Build(p, first.mode, Some(r))], first)
  {
    var s := [Supply(Some(p)), Build(p, first.mode, Some(r))];
    assert s[1] == Build(p, first.mode, Some(r));
    assert s[0..] == s;
    assert s[0] == Supply(Some(p));
  }

  lemma ReproducedBy(s: seq<Event>, p: Packet, first: Request)
    requires s != [] && s[0] == Supply(Some(p)) && p.Packet? && p.fingerprint == first.packet
    requires Guarded(first) ==> Rebuilt(s, p, first)
    ensures Reproduces(s, first)
  {
    assert s[0..] == s;
  }

  /** What the caller asks for: the mode, whether admission and consultation each demand an unchanged packet. */
  datatype Ask = Ask(packet: Packet, asked: Mode, admission: bool, consultation: bool, suppliable: bool)

  /** The whole attempt. */
  method Perform(env: Environment, ask: Ask) returns (o: Outcome, attempt: Attempt?)
    ensures attempt == null ==> o == Failed(InputInvalid, 0)
    ensures attempt != null ==> fresh(attempt) && attempt.env == env && env.identity(0) == Some(attempt.configured)
    ensures attempt != null ==> attempt.Valid() && attempt.count <= 2 && attempt.Accounts(o)
    ensures o.Done? <==>
              && env.identity(0).Some? && (ask.asked == Direct || ask.suppliable) && Prepared(env, ask, 0, 0).Some?
              && AttemptSucceeds(env, env.identity(0).value, 1, Checks(ask), 1, Prepared(env, ask, 0, 0).value)
    ensures attempt != null && attempt.count > 0 ==>
              exists first :: BuiltFrom(attempt.trace, ask, first) && FollowsRequest(attempt.trace, attempt.count, o, first)
  {
    attempt := null;
    var id := env.identity(0);
    if id.None? || (ask.asked != Direct && !ask.suppliable) {
      return Failed(InputInvalid, 0), null;
    }
    attempt := new Attempt(env, id.value);
    var code, first := attempt.Prepare(ask);
    if first.None? {
      return Failed(code, 0), attempt;
    }
    ghost var begun := attempt.trace;
    o := attempt.Stages(first.value);
    StillBuilt(begun, attempt.trace, ask, first.value);
    assert FollowsRequest(attempt.trace, attempt.count, o, first.value);
  }

  lemma StillBuilt(trace: seq<Event>, longer: seq<Event>, ask: Ask, first: Request)
    requires trace <= longer && BuiltFrom(trace, ask, first)
    ensures BuiltFrom(longer, ask, first)
  {
    var i :| 0 <= i < |trace| && trace[i] == Build(ask.packet, ask.asked, Some(first));
    assert longer[i] == trace[i];
  }

  ghost predicate BuiltFrom(trace: seq<Event>, ask: Ask, first: Request) {
    Build(ask.packet, ask.asked, Some(first)) in trace
  }

  /** Success has the number of calls its mode prescribes, and every later call and return rests on a fresh packet. */
  ghost predicate FollowsRequest(trace: seq<Event>, count: nat, o: Outcome, first: Request) {
    && (o.Done? ==> count == if SingleCall(first.mode) then 1 else 2)
    && (count == 2 ==> SecondIsFresh(trace, first))
    && (o.Done? && NeedsClosing(first) ==> EndsClosed(trace, first))
  }
}
