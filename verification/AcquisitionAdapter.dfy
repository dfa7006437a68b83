/**
 One acquisition: an adapter acts as it likes between guard calls, and then returns or
 raises anything.  What it returned is read against the invocation and the hops as they
 stand then, and one report is made.
 */
module AcquisitionAdapter {
  import opened Prelude
  import opened Text
  import opened AcquisitionGuard

  // ----- What the adapter returns -----

  datatype Code = ToolUnavailable | AccessDenied | UnsafeDestination | NotFound | ResponseInvalid | AttributionMismatch
  datatype Kind = SourceContent | SourceMetadata | DiscoverySnippet
  datatype Receipt = Receipt(operations: int, retries: int, pages: int, expansions: int, fallbacks: int)
  datatype Status = Succeeded | Failed | OtherStatus

  /** `formed` covers the fields of an observation and that its provenance is a mapping. */
  datatype Raw = Raw(formed: bool, kind: Kind, scope: string, chain: seq<string>, effective: string, text: string)

  /** `failure` is the failure member: absent, a known code, or something else. */
  datatype FailureField = NoFailure | Known(code: Code) | UnknownFailure

  /** `formed` covers the fields, the header and the size. */
  datatype Native = Native(
    formed: bool, invocation: string, request: string, adapterRef: string,
    status: Status, receipt: Receipt, failure: FailureField, observations: seq<Raw>)

  datatype Ending = RaisesUnsafe | RaisesOther | Returns(native: Native)

  datatype Report = Report(
    invocation: string, adapterRef: string, request: string,
    observations: seq<Raw>, failure: Option<Code>, receipt: Receipt, hops: seq<Hop>)

  /**
   `observe` builds an observation from a raw one, `attempt` accepts the whole attempt,
   both against the invocation as it stands; `fits` is the final encoding of the report.
   */
  datatype Request = Request(
    policy: Policy, observe: (Bound, Raw) -> bool, attempt: (Bound, seq<Raw>, Option<Code>) -> bool,
    fits: Report -> bool)

  const ZERO := Receipt(0, 0, 0, 0, 0)

  predicate GoodReceipt(r: Receipt, success: bool) {
    && 0 <= r.operations <= 1 && (success ==> r.operations == 1)
    && r.retries == 0 && r.pages == 0 && r.expansions == 0 && r.fallbacks == 0
  }

  function AllowedKinds(t: Transport): set<Kind> {
    match t
    case PublicSearch => {DiscoverySnippet, SourceMetadata}
    case PublicHttp | RepositoryRead => {SourceContent, SourceMetadata}
    case AuthorizedConnector => {SourceContent, SourceMetadata, DiscoverySnippet}
  }

  predicate GoodObservation(q: Request, b: Bound, hops: seq<Hop>, raw: Raw)
    requires q.policy.transport == PublicHttp ==> hops != []
  {
    && raw.formed && raw.kind in AllowedKinds(q.policy.transport) && b.mode == Some(raw.scope) && q.observe(b, raw)
    && (q.policy.transport == PublicHttp ==>
          raw.chain == Urls(hops) && raw.effective == hops[|hops| - 1].url)
  }

  predicate GoodObservations(q: Request, b: Bound, hops: seq<Hop>, raws: seq<Raw>) {
    && (q.policy.transport == PublicHttp ==> hops != [])
    && forall i :: 0 <= i < |raws| ==> GoodObservation(q, b, hops, raws[i])
  }

  /** Everything a report is made of is still there. */
  predicate Complete(b: Bound) {
    b.request.Some? && b.invocation.Some? && b.adapterRef.Some? && b.rest.Some?
  }

  /** The access mode is gone when the first observation is compared with it. */
  predicate ModeMissed(q: Request, b: Bound, raws: seq<Raw>) {
    b.mode == None && raws != [] && raws[0].formed && raws[0].kind in AllowedKinds(q.policy.transport)
  }

  /** `Escapes` is an exception no handler expects. */
  datatype Reading = Malformed | Escapes | Settled(observations: seq<Raw>, failure: Option<Code>, receipt: Receipt)

  function Failing(code: Code): Reading {
    Settled([], Some(code), ZERO)
  }

  /** Reading a native return. */
  function Interpret(q: Request, b: Bound, hops: seq<Hop>, n: Native): Reading
    requires Complete(b)
  {
    if !n.formed then Malformed
    else if n.invocation != b.invocation.value || n.request != b.request.value.fingerprint ||
            n.adapterRef != b.adapterRef.value then Failing(AttributionMismatch)
    else if n.status == OtherStatus || !GoodReceipt(n.receipt, n.status == Succeeded) then Malformed
    else if n.status == Failed then
      if n.observations != [] || !n.failure.Known? then Malformed else Settled([], Some(n.failure.code), n.receipt)
    else if n.failure != NoFailure || |n.observations| > b.request.value.maxItems then Malformed
    else if q.policy.transport == PublicHttp && hops == [] then Malformed
    else if ModeMissed(q, b, n.observations) then Escapes
    else if GoodObservations(q, b, hops, n.observations) then Settled(n.observations, None, n.receipt)
    else Malformed
  }

  function Settle(q: Request, s: State, ending: Ending): Reading
    requires Complete(s.bound)
  {
    match ending
    case RaisesUnsafe => Failing(UnsafeDestination)
    case RaisesOther => Failing(if s.rejected then UnsafeDestination else ToolUnavailable)
    case Returns(native) =>
      if s.rejected then Failing(UnsafeDestination)
      else
        match Interpret(q, s.bound, s.hops, native)
        case Malformed => Failing(ResponseInvalid)
        case reading => reading
  }

  function Sign(q: Request, s: State, r: Reading): Result<Report>
    requires Complete(s.bound) && r.Settled?
  {
    var b := s.bound;
    var report := Report(b.invocation.value, b.adapterRef.value, b.request.value.fingerprint, r.observations, r.failure,
                         r.receipt, if q.policy.transport == PublicHttp then s.hops else []);
    if q.fits(report) then Accepted(report) else Rejected
  }

  /** The report of a run, or an exception when not even a failed attempt is accepted. */
  function Conclude(q: Request, s: State, ending: Ending): Result<Report> {
    if !Complete(s.bound) then Rejected
    else
      var r := Settle(q, s, ending);
      if !r.Settled? then Rejected
      else if q.attempt(s.bound, r.observations, r.failure) then Sign(q, s, r)
      else if r.failure.None? && q.attempt(s.bound, [], Some(ResponseInvalid)) then Sign(q, s, Failing(ResponseInvalid))
      else Rejected
  }

  function Reports(q: Request, b: Bound, moves: seq<Move>, ending: Ending): Result<Report> {
    Conclude(q, AfterMoves(q.policy, b, moves), ending)
  }

  // ----- What a report guarantees -----

  /** One refusal, whatever is done about it, leaves only a failed report with the unsafe destination. */
  lemma RefusalIsFinal(q: Request, b: Bound, moves: seq<Move>, ending: Ending)
    requires Ever(q.policy, b, moves, Refuses) && Reports(q, b, moves, ending).Accepted?
    ensures var r := Reports(q, b, moves, ending).value;
            r.failure == Some(UnsafeDestination) && r.observations == [] && r.receipt == ZERO
  {
    LatchMeansRefusal(q.policy, b, moves);
  }

  ghost predicate Clean(q: Request, b: Bound, moves: seq<Move>, n: Native) {
    var now := BoundAfter(b, moves);
    && !Ever(q.policy, b, moves, Refuses) && Complete(now)
    && n.formed && n.status == Succeeded && n.failure == NoFailure
    && n.invocation == now.invocation.value && n.request == now.request.value.fingerprint
    && n.adapterRef == now.adapterRef.value
    && GoodReceipt(n.receipt, true) && |n.observations| <= now.request.value.maxItems
    && GoodObservations(q, now, AfterMoves(q.policy, b, moves).hops, n.observations)
    && q.attempt(now, n.observations, None)
    && Sign(q, AfterMoves(q.policy, b, moves).(bound := now), Settled(n.observations, None, n.receipt)).Accepted?
  }

  ghost predicate Succeeds(q: Request, b: Bound, moves: seq<Move>, ending: Ending) {
    Reports(q, b, moves, ending).Accepted? && Reports(q, b, moves, ending).value.failure == None
  }

  /** A report succeeds exactly when nothing was refused and the return is a good one against the invocation as left. */
  lemma SuccessExactly(q: Request, b: Bound, moves: seq<Move>, ending: Ending)
    ensures Succeeds(q, b, moves, ending) <==> ending.Returns? && Clean(q, b, moves, ending.native)
  {
    LatchMeansRefusal(q.policy, b, moves);
    BoundIsLastWritten(q.policy, b, moves);
    var s := AfterMoves(q.policy, b, moves);
    if Complete(s.bound) {
      var r := Settle(q, s, ending);
      assert Succeeds(q, b, moves, ending) <==>
        r.Settled? && r.failure == None && q.attempt(s.bound, r.observations, None) && Sign(q, s, r).Accepted?;
      if ending.Returns? && GoodObservations(q, s.bound, s.hops, ending.native.observations) {
        FirstIsGood(q, s.bound, s.hops, ending.native.observations);
      }
    }
  }

  lemma FirstIsGood(q: Request, b: Bound, hops: seq<Hop>, raws: seq<Raw>)
    requires GoodObservations(q, b, hops, raws)
    ensures !ModeMissed(q, b, raws)
  {
    if raws != [] {
      assert GoodObservation(q, b, hops, raws[0]);
    }
  }

  /** The observations of a public fetch were resolved through exactly these hops. */
  ghost predicate Resolved(observations: seq<Raw>, hops: seq<Hop>) {
    hops != [] && forall i :: 0 <= i < |observations| ==>
      observations[i].chain == Urls(hops) && observations[i].effective == hops[|hops| - 1].url
  }

  lemma GoodIsResolved(q: Request, b: Bound, hops: seq<Hop>, raws: seq<Raw>)
    requires q.policy.transport == PublicHttp && GoodObservations(q, b, hops, raws)
    ensures Resolved(raws, hops)
  {
    forall i | 0 <= i < |raws|
      ensures raws[i].chain == Urls(hops) && raws[i].effective == hops[|hops| - 1].url
    {
      assert GoodObservation(q, b, hops, raws[i]);
    }
  }

  /** A success reports the observations and the receipt as returned and the hops as left. */
  lemma ReportedAsLeft(q: Request, b: Bound, moves: seq<Move>, n: Native)
    requires q.policy.transport == PublicHttp && Succeeds(q, b, moves, Returns(n))
    ensures var r := Reports(q, b, moves, Returns(n)).value;
            r.hops == AfterMoves(q.policy, b, moves).hops && r.observations == n.observations && r.receipt == n.receipt
  {
    var s := AfterMoves(q.policy, b, moves);
    var r := Settle(q, s, Returns(n));
    assert Reports(q, b, moves, Returns(n)) == Sign(q, s, r);
  }

  /**
   A successful public fetch, whatever the adapter overwrote: nothing was refused, one
   native operation, at most eight approved destinations in order, and every observation
   resolved through exactly their URLs.
   */
  lemma HttpSuccess(q: Request, b: Bound, moves: seq<Move>, ending: Ending)
    requires q.policy.transport == PublicHttp && Succeeds(q, b, moves, ending)
    ensures !Ever(q.policy, b, moves, Refuses)
    ensures var r, made := Reports(q, b, moves, ending).value, Approved(q.policy, b, moves);
            && 1 <= |r.hops| <= MAX_HOPS && Urls(r.hops) == Urls(made) && (forall h :: h in made ==> LawfulHop(q.policy, h))
            && r.receipt == Receipt(1, 0, 0, 0, 0) && Resolved(r.observations, r.hops)
  {
    SuccessExactly(q, b, moves, ending);
    ReportedAsLeft(q, b, moves, ending.native);
    HopsMatch(q.policy, b, moves);
    GuardKeepsLawful(q.policy, b, moves);
    var s := AfterMoves(q.policy, b, moves);
    BoundIsLastWritten(q.policy, b, moves);
    GoodIsResolved(q, s.bound, s.hops, ending.native.observations);
  }

  /**
   What an accepted report says of the destinations, exactly.  It shows the approved
   addresses if and only if no write left anything else in the lists, and its first hop
   is the locator that was asked for if and only if that was still the locator in the
   invocation when the first hop was approved.
   */
  lemma ReportedDestinations(q: Request, b: Bound, moves: seq<Move>, ending: Ending)
    requires q.policy.transport == PublicHttp && b.request.Some? && Reports(q, b, moves, ending).Accepted?
    ensures var r, made := Reports(q, b, moves, ending).value, Approved(q.policy, b, moves);
            && (r.hops == made <==> ListsUntouched(q.policy, b, moves))
            && (r.hops != [] ==>
                  (r.hops[0].url == b.request.value.locator <==> LocatorUntouched(q.policy, b, moves)))
  {
    HopsAsApproved(q.policy, b, moves);
    HopsMatch(q.policy, b, moves);
    if Approved(q.policy, b, moves) != [] {
      FirstHopStood(q.policy, b, moves);
    }
  }

  /** An adapter that writes to nothing is reported as one would expect. */
  lemma WithoutWrites(q: Request, b: Bound, moves: seq<Move>, ending: Ending)
    requires q.policy.transport == PublicHttp && b.request.Some? && Reports(q, b, moves, ending).Accepted?
    requires forall m :: m in moves ==> m.Call?
    ensures var r := Reports(q, b, moves, ending).value;
            && (forall h :: h in r.hops ==> LawfulHop(q.policy, h))
            && (r.hops != [] ==> r.hops[0].url == b.request.value.locator)
            && (b.invocation == Some(r.invocation) && b.request.value.fingerprint == r.request)
            && (r.failure != Some(UnsafeDestination) && !Ever(q.policy, b, moves, Breaks) ==>
                  Urls(r.hops) == CalledUrls(moves))
  {
    forall k | 0 <= k < |Approved(q.policy, b, moves)|
      ensures LastWrite(q.policy, b, moves, k) == None
    {
      NoWrite(q.policy, b, moves, k);
    }
    NoRebind(b, moves);
    if Approved(q.policy, b, moves) != [] {
      FirstHopStood(q.policy, b, moves);
      NoRebind(b, moves[..BeforeFirst(q.policy, b, moves)]);
    }
    ReportedDestinations(q, b, moves, ending);
    GuardKeepsLawful(q.policy, b, moves);
    LatchMeansRefusal(q.policy, b, moves);
    BoundIsLastWritten(q.policy, b, moves);
  }

  lemma {:induction false} NoWrite(p: Policy, b: Bound, moves: seq<Move>, k: nat)
    requires forall m :: m in moves ==> m.Call?
    ensures LastWrite(p, b, moves, k) == None
  {
    if moves != [] {
      assert Last(moves) in moves;
      NoWrite(p, b, Butlast(moves), k);
    }
  }

  lemma {:induction false} NoRebind(b: Bound, moves: seq<Move>)
    requires forall m :: m in moves ==> m.Call?
    ensures BoundAfter(b, moves) == b
  {
    if moves != [] {
      assert Last(moves) in moves;
      NoRebind(b, Butlast(moves));
    }
  }

  // ----- The outcome in full -----

  /** An observation that a transport may return, against the invocation and the hops as they stand. */
  ghost predicate Admissible(q: Request, b: Bound, hops: seq<Hop>, raw: Raw) {
    && raw.formed && b.mode == Some(raw.scope) && q.observe(b, raw)
    && (q.policy.transport == PublicSearch ==> raw.kind != SourceContent)
    && (q.policy.transport == PublicHttp || q.policy.transport == RepositoryRead ==> raw.kind != DiscoverySnippet)
    && (q.policy.transport == PublicHttp ==>
          && hops != [] && |raw.chain| == |hops| && raw.effective == hops[|hops| - 1].url
          && forall k :: 0 <= k < |hops| ==> raw.chain[k] == hops[k].url)
  }

  /** A success, condition by condition. */
  ghost predicate Excellent(q: Request, b: Bound, hops: seq<Hop>, n: Native) {
    && n.formed && n.status == Succeeded && n.failure == NoFailure && n.receipt == Receipt(1, 0, 0, 0, 0)
    && b.invocation == Some(n.invocation) && b.adapterRef == Some(n.adapterRef) && b.rest.Some?
    && b.request.Some? && b.request.value.fingerprint == n.request && |n.observations| <= b.request.value.maxItems
    && (q.policy.transport == PublicHttp ==> hops != [])
    && (forall raw :: raw in n.observations ==> Admissible(q, b, hops, raw))
    && q.attempt(b, n.observations, None)
    && q.fits(Report(n.invocation, n.adapterRef, n.request, n.observations, None, Receipt(1, 0, 0, 0, 0),
                     if q.policy.transport == PublicHttp then hops else []))
  }

  lemma ChainExactly(hops: seq<Hop>, chain: seq<string>)
    ensures chain == Urls(hops) <==> |chain| == |hops| && forall k :: 0 <= k < |hops| ==> chain[k] == hops[k].url
  {
    assert forall k :: 0 <= k < |hops| ==> Urls(hops)[k] == hops[k].url;
  }

  lemma KindExactly(t: Transport, k: Kind)
    ensures k in AllowedKinds(t) <==>
              (t == PublicSearch ==> k != SourceContent) &&
              (t == PublicHttp || t == RepositoryRead ==> k != DiscoverySnippet)
  {
  }

  lemma GoodExactly(q: Request, b: Bound, hops: seq<Hop>, raws: seq<Raw>)
    ensures GoodObservations(q, b, hops, raws) <==>
              (q.policy.transport == PublicHttp ==> hops != []) && forall raw :: raw in raws ==> Admissible(q, b, hops, raw)
  {
    assert forall raw :: raw in raws ==> exists i :: 0 <= i < |raws| && raws[i] == raw;
    forall raw | q.policy.transport == PublicHttp ==> hops != []
      ensures GoodObservation(q, b, hops, raw) <==> Admissible(q, b, hops, raw)
    {
      ChainExactly(hops, raw.chain);
      KindExactly(q.policy.transport, raw.kind);
    }
  }

  lemma SuccessInFull(q: Request, b: Bound, moves: seq<Move>, ending: Ending)
    ensures Succeeds(q, b, moves, ending) <==>
              && ending.Returns? && !Ever(q.policy, b, moves, Refuses)
              && Excellent(q, BoundAfter(b, moves), AfterMoves(q.policy, b, moves).hops, ending.native)
  {
    SuccessExactly(q, b, moves, ending);
    if ending.Returns? {
      GoodExactly(q, BoundAfter(b, moves), AfterMoves(q.policy, b, moves).hops, ending.native.observations);
    }
  }

  /** The failure code and receipt of an adapter that came back without a refusal and did not succeed. */
  ghost predicate FailsWith(b: Bound, n: Native, code: Code, receipt: Receipt) {
    if !n.formed then code == ResponseInvalid && receipt == ZERO
    else if Some(n.invocation) != b.invocation || Some(n.adapterRef) != b.adapterRef ||
            b.request == None || b.request.value.fingerprint != n.request then
      code == AttributionMismatch && receipt == ZERO
    else if n.status == Failed && n.failure.Known? && n.observations == [] &&
            (n.receipt == ZERO || n.receipt == Receipt(1, 0, 0, 0, 0)) then
      code == n.failure.code && receipt == n.receipt
    else code == ResponseInvalid && receipt == ZERO
  }

  /** Why an accepted report failed, exactly; a failed report has no observation. */
  lemma FailureInFull(q: Request, b: Bound, moves: seq<Move>, ending: Ending)
    requires Reports(q, b, moves, ending).Accepted? && !Succeeds(q, b, moves, ending)
    ensures var r := Reports(q, b, moves, ending).value;
            && r.failure.Some? && r.observations == []
            && (if Ever(q.policy, b, moves, Refuses) || ending.RaisesUnsafe? then
                  r.failure == Some(UnsafeDestination) && r.receipt == ZERO
                else if ending.RaisesOther? then r.failure == Some(ToolUnavailable) && r.receipt == ZERO
                else FailsWith(BoundAfter(b, moves), ending.native, r.failure.value, r.receipt))
  {
    LatchMeansRefusal(q.policy, b, moves);
    BoundIsLastWritten(q.policy, b, moves);
  }

  /** Other transports have no destinations: any guard call is a refusal. */
  lemma OtherTransportsHaveNoHops(q: Request, b: Bound, moves: seq<Move>, ending: Ending, k: nat)
    requires q.policy.transport != PublicHttp && k < |moves| && moves[k].Call?
    requires Reports(q, b, moves, ending).Accepted?
    ensures Reports(q, b, moves, ending).value.failure == Some(UnsafeDestination)
    ensures AfterMoves(q.policy, b, moves).hops == [] == Reports(q, b, moves, ending).value.hops
  {
    HopsMatch(q.policy, b, moves);
    assert AnsweredAt(q.policy, b, moves, k, Refuses);
    RefusalIsFinal(q, b, moves, ending);
  }

  // ----- Writes that show -----

  /** A native return is read against the URLs of the hops and nothing else of them. */
  lemma ReadingSeesUrls(q: Request, b: Bound, hops: seq<Hop>, other: seq<Hop>, n: Native)
    requires Complete(b) && Urls(hops) == Urls(other)
    ensures Interpret(q, b, hops, n) == Interpret(q, b, other, n)
  {
    assert |hops| == |Urls(hops)| == |Urls(other)| == |other|;
    assert hops != [] ==> hops[|hops| - 1].url == Urls(hops)[|hops| - 1] == other[|hops| - 1].url;
    forall i | 0 <= i < |n.observations| && (q.policy.transport == PublicHttp ==> hops != [])
      ensures GoodObservation(q, b, hops, n.observations[i]) <==> GoodObservation(q, b, other, n.observations[i])
    {
    }
    assert GoodObservations(q, b, hops, n.observations) <==> GoodObservations(q, b, other, n.observations);
  }

  /** One write more puts any list into any hop of the same report, and nothing notices. */
  lemma WritesShowUnnoticed(q: Request, b: Bound, moves: seq<Move>, ending: Ending, k: nat, addresses: seq<string>)
    requires q.policy.transport == PublicHttp && Reports(q, b, moves, ending).Accepted?
    requires k < |AfterMoves(q.policy, b, moves).hops|
    ensures var r := Reports(q, b, moves, ending).value;
            var changed := r.(hops := r.hops[k := r.hops[k].(addresses := addresses)]);
            q.fits(changed) ==> Reports(q, b, moves + [Write(k, addresses)], ending) == Accepted(changed)
  {
    var longer := moves + [Write(k, addresses)];
    assert Butlast(longer) == moves && Last(longer) == Write(k, addresses);
    var s, v := AfterMoves(q.policy, b, moves), AfterMoves(q.policy, b, longer);
    assert Urls(v.hops) == Urls(s.hops);
    if ending.Returns? {
      ReadingSeesUrls(q, s.bound, s.hops, v.hops, ending.native);
    }
    assert Settle(q, v, ending) == Settle(q, s, ending);
  }

  const ADDRESS := "93.184.216.34"
  const PRIVATE := "10.0.0.1"
  const ASKED := "https://asked.example/"
  const ELSEWHERE := "https://elsewhere.example/"

  /** Every URL is public and one address is global; every attempt and report is accepted. */
  function Plain(): Request {
    Request(Policy(PublicHttp, (u: string) => true, (a: string) => if a == ADDRESS then Some(a) else None),
            (b: Bound, r: Raw) => true, (b: Bound, rs: seq<Raw>, c: Option<Code>) => true, (r: Report) => true)
  }

  function Asks(locator: string, fingerprint: string): Bound {
    Bound(Some(Asked(locator, fingerprint, 1)), Some("inv"), Some("ref"), Some("PUBLIC"), Some("rest"))
  }

  function Empty(request: string): Ending {
    Returns(Native(true, "inv", request, "ref", Succeeded, Receipt(1, 0, 0, 0, 0), NoFailure, []))
  }

  lemma OneAddress(p: Policy)
    requires p == Plain().policy
    ensures Resolve(p, [ADDRESS]) == Some([ADDRESS]) && SortKeys(Elements([ADDRESS])) == [ADDRESS]
  {
    var one := [ADDRESS];
    assert one[..|one| - 1] == [] && one[|one| - 1] == ADDRESS && p.resolve(ADDRESS) == Some(ADDRESS);
    assert [] + [ADDRESS] == one;
    AscendingIsUnique(one, Elements(one));
  }

  lemma OneCall(b: Bound, url: string, moves: seq<Move>)
    requires b.request.Some? && b.request.value.locator == url
    requires moves != [] && Last(moves) == Call(url, [ADDRESS])
    requires AfterMoves(Plain().policy, b, Butlast(moves)) == State([], false, b)
    ensures AfterMoves(Plain().policy, b, moves) == State([Hop(url, [ADDRESS])], false, b)
  {
    OneAddress(Plain().policy);
  }

  /** What a plain success with one hop is reported as. */
  lemma OneHopReport(b: Bound, fingerprint: string, url: string, hops: seq<Hop>)
    requires b == Asks(url, fingerprint) && |hops| == 1
    ensures Conclude(Plain(), State(hops, false, b), Empty(fingerprint)) ==
            Accepted(Report("inv", "ref", fingerprint, [], None, Receipt(1, 0, 0, 0, 0), hops))
  {
    assert GoodObservations(Plain(), b, hops, []);
  }

  lemma PrivateIsUnapproved()
    ensures !IsResolution(Plain().policy, PRIVATE)
  {
    assert ADDRESS[0] != PRIVATE[0];
  }

  /** The adapter appends to the list it was given: a successful report shows a private address. */
  lemma PrivateAddressIsReported()
    ensures var moves := [Call(ASKED, [ADDRESS]), Write(0, [ADDRESS, PRIVATE])];
            var q, b := Plain(), Asks(ASKED, "req");
            && !IsResolution(q.policy, PRIVATE)
            && Reports(q, b, moves, Empty("req")) ==
               Accepted(Report("inv", "ref", "req", [], None, Receipt(1, 0, 0, 0, 0), [Hop(ASKED, [ADDRESS, PRIVATE])]))
  {
    var q, b, first, write := Plain(), Asks(ASKED, "req"), Call(ASKED, [ADDRESS]), Write(0, [ADDRESS, PRIVATE]);
    var moves := [first, write];
    assert Butlast(moves) == [first] && Last(moves) == write && Butlast([first]) == [];
    OneCall(b, ASKED, [first]);
    var s, v := AfterMoves(q.policy, b, [first]), AfterMoves(q.policy, b, moves);
    assert v.hops == [Hop(ASKED, [ADDRESS, PRIVATE])];
    OneHopReport(b, "req", ASKED, v.hops);
    PrivateIsUnapproved();
  }

  /** The adapter replaces the request: another destination is fetched under the original invocation. */
  lemma OtherDestinationIsReported()
    ensures var moves := [Rebind(Asks(ELSEWHERE, "other")), Call(ELSEWHERE, [ADDRESS])];
            && ELSEWHERE != ASKED
            && Reports(Plain(), Asks(ASKED, "req"), moves, Empty("other")) ==
               Accepted(Report("inv", "ref", "other", [], None, Receipt(1, 0, 0, 0, 0), [Hop(ELSEWHERE, [ADDRESS])]))
  {
    var q, b, moved := Plain(), Asks(ASKED, "req"), Asks(ELSEWHERE, "other");
    var rebind, call := Rebind(moved), Call(ELSEWHERE, [ADDRESS]);
    var moves := [rebind, call];
    assert Butlast(moves) == [rebind] && Last(moves) == call && Butlast([rebind]) == [] && Butlast([call]) == [];
    OneCall(moved, ELSEWHERE, [call]);
    assert AfterMoves(q.policy, b, [rebind]) == State([], false, moved);
    assert AfterMoves(q.policy, b, moves) == AfterMove(q.policy, State([], false, moved), call);
    assert AfterMoves(q.policy, moved, [call]) == AfterMove(q.policy, State([], false, moved), call);
    OneHopReport(moved, "other", ELSEWHERE, [Hop(ELSEWHERE, [ADDRESS])]);
    assert ELSEWHERE[8] != ASKED[8];
  }

  // ----- The invocation itself -----

  /** The loop over the raw observations. */
  method AcceptObservations(q: Request, b: Bound, hops: seq<Hop>, raws: seq<Raw>) returns (r: Option<seq<Raw>>)
    ensures r == if GoodObservations(q, b, hops, raws) then Some(raws) else None
  {
    if q.policy.transport == PublicHttp && hops == [] {
      return None;
    }
    var observations := [];
    var i := 0;
    while i < |raws|
      invariant 0 <= i <= |raws| && observations == raws[..i]
      invariant forall k :: 0 <= k < i ==> GoodObservation(q, b, hops, raws[k])
    {
      if !GoodObservation(q, b, hops, raws[i]) {
        return None;
      }
      observations := observations + [raws[i]];
      i := i + 1;
    }
    assert raws[..i] == raws;
    r := Some(observations);
  }

  /** Reading a native return: a malformed one is a failure of its own. */
  method Read(q: Request, b: Bound, hops: seq<Hop>, n: Native) returns (r: Reading)
    requires Complete(b)
    ensures r == Settle(q, State(hops, false, b), Returns(n))
  {
    r := Failing(ResponseInvalid);
    if n.formed {
      if n.invocation != b.invocation.value || n.request != b.request.value.fingerprint ||
         n.adapterRef != b.adapterRef.value {
        return Failing(AttributionMismatch);
      }
      if n.status != OtherStatus && GoodReceipt(n.receipt, n.status == Succeeded) {
        if n.status == Failed {
          if n.observations == [] && n.failure.Known? {
            return Settled([], Some(n.failure.code), n.receipt);
          }
        } else if n.failure == NoFailure && |n.observations| <= b.request.value.maxItems {
          if ModeMissed(q, b, n.observations) && (q.policy.transport == PublicHttp ==> hops != []) {
            return Escapes;
          }
          var accepted := AcceptObservations(q, b, hops, n.observations);
          if accepted.Some? {
            return Settled(accepted.value, None, n.receipt);
          }
        }
      }
    }
  }

  /** The adapter's moves are made on the shared cells, and the report is read off them. */
  method Invoke(q: Request, b: Bound, moves: seq<Move>, ending: Ending) returns (r: Result<Report>)
    ensures r == Reports(q, b, moves, ending)
  {
    var invocation := new Invocation(b);
    var guard := new Guard(q.policy, invocation);
    guard.Perform(moves);
    var now := invocation.bound;
    var state := State(guard.Hops(), guard.rejected, now);
    if !Complete(now) {
      return Rejected;
    }
    var reading := Failing(UnsafeDestination);
    if ending.RaisesOther? {
      reading := Failing(if guard.rejected then UnsafeDestination else ToolUnavailable);
    } else if ending.Returns? && !guard.rejected {
      reading := Read(q, now, state.hops, ending.native);
    }
    if !reading.Settled? {
      return Rejected;
    }
    if q.attempt(now, reading.observations, reading.failure) {
      return Sign(q, state, reading);
    }
    if reading.failure.Some? || !q.attempt(now, [], Some(ResponseInvalid)) {
      return Rejected;
    }
    r := Sign(q, state, Failing(ResponseInvalid));
  }
}
