/**
 The destination guard of one acquisition.  The adapter may call it any number of
 times and swallow what it raises.  It also holds two things it can write to: the
 invocation it was called with, and the address list of every hop it was given, which
 the guard keeps too.  A run of the adapter is therefore a sequence of moves.
 */
module AcquisitionGuard {
  import opened Prelude
  import opened Text

  const MAX_HOPS: nat := 8
  const MAX_ADDRESSES: nat := 32

  datatype Transport = PublicHttp | PublicSearch | RepositoryRead | AuthorizedConnector
  datatype Hop = Hop(url: string, addresses: seq<string>)

  /** `public` accepts a URL; `resolve` gives the canonical text of a global address. */
  datatype Policy = Policy(transport: Transport, public: string -> bool, resolve: string -> Option<string>)

  /** The acquisition request as it stands in the invocation. */
  datatype Asked = Asked(locator: string, fingerprint: string, maxItems: nat)

  /**
   The invocation the adapter holds; `None` is a member that is gone.  `rest` is the
   brief, the challenge targets and the invocation id.
   */
  datatype Bound = Bound(
    request: Option<Asked>, invocation: Option<string>, adapterRef: Option<string>,
    mode: Option<string>, rest: Option<string>)

  // ----- One call -----

  function Elements(s: seq<string>): set<string> {
    set x | x in s
  }

  /** The canonical addresses, if all of them are global and no two are the same. */
  function Resolve(p: Policy, addresses: seq<string>): Option<seq<string>> {
    if addresses == [] then Some([])
    else
      match (Resolve(p, addresses[..|addresses| - 1]), p.resolve(addresses[|addresses| - 1]))
      case (Some(before), Some(last)) => if last in before then None else Some(before + [last])
      case _ => None
  }

  /** `Breaks`: the first hop cannot be compared with a request that is gone, and that exception sets no latch. */
  datatype Answer = Approves(hop: Hop) | Refuses | Breaks

  function Ask(p: Policy, b: Bound, hops: nat, url: string, addresses: seq<string>): Answer {
    if p.transport != PublicHttp || hops >= MAX_HOPS || !p.public(url) then Refuses
    else if hops == 0 && b.request.None? then Breaks
    else if hops == 0 && url != b.request.value.locator then Refuses
    else if addresses == [] || |addresses| > MAX_ADDRESSES then Refuses
    else
      match Resolve(p, addresses)
      case None => Refuses
      case Some(resolved) => Approves(Hop(url, SortKeys(Elements(resolved))))
  }

  ghost predicate IsResolution(p: Policy, canonical: string) {
    exists raw :: p.resolve(raw) == Some(canonical)
  }

  /** Distinct global addresses in order, on a public URL. */
  ghost predicate LawfulHop(p: Policy, hop: Hop) {
    && p.public(hop.url) && 0 < |hop.addresses| <= MAX_ADDRESSES && Ascending(hop.addresses)
    && forall a :: a in hop.addresses ==> IsResolution(p, a)
  }

  function Resolutions(p: Policy, addresses: seq<string>): set<Option<string>> {
    set a | a in addresses :: p.resolve(a)
  }

  lemma OneMoreResolution(p: Policy, addresses: seq<string>)
    requires addresses != []
    ensures var n := |addresses| - 1;
            Resolutions(p, addresses) == Resolutions(p, addresses[..n]) + {p.resolve(addresses[n])}
  {
    assert addresses == addresses[..|addresses| - 1] + [addresses[|addresses| - 1]];
  }

  lemma {:induction false} ResolvedElements(p: Policy, addresses: seq<string>)
    requires Resolve(p, addresses).Some?
    ensures forall x :: x in Resolve(p, addresses).value <==> Some(x) in Resolutions(p, addresses)
    ensures |Elements(Resolve(p, addresses).value)| == |addresses|
  {
    if addresses != [] {
      var n := |addresses| - 1;
      ResolvedElements(p, addresses[..n]);
      OneMoreResolution(p, addresses);
      var before, last := Resolve(p, addresses[..n]).value, p.resolve(addresses[n]).value;
      assert Resolve(p, addresses).value == before + [last];
      assert Elements(before + [last]) == Elements(before) + {last};
    }
  }

  /** A list resolves exactly when each address is global and no two resolve alike. */
  lemma {:induction false} ResolveExactly(p: Policy, addresses: seq<string>)
    ensures |Resolutions(p, addresses)| <= |addresses|
    ensures Resolve(p, addresses).Some? <==>
              None !in Resolutions(p, addresses) && |Resolutions(p, addresses)| == |addresses|
  {
    if addresses != [] {
      var n := |addresses| - 1;
      var last := p.resolve(addresses[n]);
      ResolveExactly(p, addresses[..n]);
      OneMoreResolution(p, addresses);
      if Resolve(p, addresses[..n]).Some? {
        ResolvedElements(p, addresses[..n]);
        assert last.Some? ==> (last.value in Resolve(p, addresses[..n]).value <==> last in Resolutions(p, addresses[..n]));
      }
    }
  }

  lemma ApprovedIsLawful(p: Policy, b: Bound, hops: nat, url: string, addresses: seq<string>)
    requires Ask(p, b, hops, url, addresses).Approves?
    ensures LawfulHop(p, Ask(p, b, hops, url, addresses).hop)
    ensures |Ask(p, b, hops, url, addresses).hop.addresses| == |addresses|
  {
    var resolved := Resolve(p, addresses).value;
    ResolvedElements(p, addresses);
    SortKeysAscend(Elements(resolved));
    forall a | a in SortKeys(Elements(resolved))
      ensures IsResolution(p, a)
    {
      assert Some(a) in Resolutions(p, addresses);
    }
  }

  /** The order in which an adapter lists the addresses of a destination decides nothing, not even acceptance. */
  lemma OrderDecidesNothing(p: Policy, b: Bound, hops: nat, url: string, one: seq<string>, other: seq<string>)
    requires multiset(one) == multiset(other)
    ensures Ask(p, b, hops, url, one) == Ask(p, b, hops, url, other)
  {
    assert |one| == |multiset(one)| == |other|;
    assert forall a :: a in one <==> a in multiset(one);
    assert forall a :: a in other <==> a in multiset(other);
    assert Resolutions(p, one) == Resolutions(p, other);
    ResolveExactly(p, one);
    ResolveExactly(p, other);
    if Resolve(p, one).Some? {
      ResolvedElements(p, one);
      ResolvedElements(p, other);
      assert Elements(Resolve(p, one).value) == Elements(Resolve(p, other).value);
    }
  }

  /** No two addresses resolve alike. */
  predicate AllApart(p: Policy, addresses: seq<string>) {
    forall i, j :: 0 <= i < j < |addresses| ==> p.resolve(addresses[i]) != p.resolve(addresses[j])
  }

  /**
   The answer to one call, exactly.  It approves on a public URL, the requested locator
   first, at most eight times, for one to 32 addresses that are all global and pairwise
   different; the hop holds their canonical forms in order.  It breaks only where there is
   no request to compare the first URL with, and refuses otherwise.
   */
  lemma AnswerExactly(p: Policy, b: Bound, hops: nat, url: string, addresses: seq<string>)
    ensures var a := Ask(p, b, hops, url, addresses);
            && (a.Approves? <==>
                  && p.transport == PublicHttp && hops < 8 && p.public(url)
                  && (hops == 0 ==> b.request.Some? && b.request.value.locator == url)
                  && 1 <= |addresses| <= 32 && (forall x :: x in addresses ==> p.resolve(x).Some?)
                  && AllApart(p, addresses))
            && (a.Approves? ==>
                  && a.hop.url == url && Ascending(a.hop.addresses)
                  && forall y :: y in a.hop.addresses <==> exists x :: x in addresses && p.resolve(x) == Some(y))
            && (a.Breaks? <==> p.transport == PublicHttp && hops == 0 && p.public(url) && b.request == None)
  {
    ResolveExactly(p, addresses);
    PairwiseExactly(p, addresses);
    assert None in Resolutions(p, addresses) <==> exists x :: x in addresses && p.resolve(x) == None;
    if Resolve(p, addresses).Some? {
      ResolvedElements(p, addresses);
      SortKeysAscend(Elements(Resolve(p, addresses).value));
      forall y
        ensures Some(y) in Resolutions(p, addresses) <==> exists x :: x in addresses && p.resolve(x) == Some(y)
      {
      }
    }
  }

  lemma AllApartGrows(p: Policy, addresses: seq<string>)
    requires addresses != []
    ensures var n := |addresses| - 1;
            AllApart(p, addresses) <==>
            AllApart(p, addresses[..n]) && p.resolve(addresses[n]) !in Resolutions(p, addresses[..n])
  {
    var n := |addresses| - 1;
    forall i | 0 <= i < n
      ensures p.resolve(addresses[i]) in Resolutions(p, addresses[..n])
    {
      assert addresses[..n][i] in addresses[..n];
    }
  }

  lemma {:induction false} PairwiseExactly(p: Policy, addresses: seq<string>)
    ensures |Resolutions(p, addresses)| == |addresses| <==> AllApart(p, addresses)
  {
    if addresses != [] {
      var n := |addresses| - 1;
      PairwiseExactly(p, addresses[..n]);
      OneMoreResolution(p, addresses);
      ResolveExactly(p, addresses[..n]);
      AllApartGrows(p, addresses);
      if p.resolve(addresses[n]) in Resolutions(p, addresses[..n]) {
        assert Resolutions(p, addresses) == Resolutions(p, addresses[..n]);
      }
    }
  }

  // ----- A run of the adapter -----

  /** Ask the guard, overwrite the address list of a hop, overwrite the invocation. */
  datatype Move = Call(url: string, addresses: seq<string>) | Write(hop: nat, addresses: seq<string>) | Rebind(bound: Bound)

  /** `hops` as they would be reported now. */
  datatype State = State(hops: seq<Hop>, rejected: bool, bound: Bound)

  function Answered(p: Policy, s: State, m: Move): Answer
    requires m.Call?
  {
    Ask(p, s.bound, |s.hops|, m.url, m.addresses)
  }

  function AfterMove(p: Policy, s: State, m: Move): State {
    match m
    case Call(_, _) =>
      (match Answered(p, s, m)
       case Approves(hop) => s.(hops := s.hops + [hop])
       case Refuses => s.(rejected := true)
       case Breaks => s)
    case Write(hop, addresses) =>
      if hop < |s.hops| then s.(hops := s.hops[hop := s.hops[hop].(addresses := addresses)]) else s
    case Rebind(bound) => s.(bound := bound)
  }

  function Butlast(moves: seq<Move>): seq<Move>
    requires moves != []
  {
    moves[..|moves| - 1]
  }

  function Last(moves: seq<Move>): Move
    requires moves != []
  {
    moves[|moves| - 1]
  }

  function AfterMoves(p: Policy, b: Bound, moves: seq<Move>): State {
    if moves == [] then State([], false, b)
    else AfterMove(p, AfterMoves(p, b, Butlast(moves)), Last(moves))
  }

  /** The hops as the guard approved them. */
  function Approved(p: Policy, b: Bound, moves: seq<Move>): seq<Hop> {
    if moves == [] then []
    else
      Approved(p, b, Butlast(moves)) +
      (var s := AfterMoves(p, b, Butlast(moves));
       if Last(moves).Call? && Answered(p, s, Last(moves)).Approves? then [Answered(p, s, Last(moves)).hop] else [])
  }

  function Urls(hops: seq<Hop>): seq<string> {
    seq(|hops|, i requires 0 <= i < |hops| => hops[i].url)
  }

  /** Overwriting lists moves no hop: the URLs are those approved, in order. */
  lemma {:induction false} HopsMatch(p: Policy, b: Bound, moves: seq<Move>)
    ensures var hops, made := AfterMoves(p, b, moves).hops, Approved(p, b, moves);
            && |hops| == |made| <= MAX_HOPS && (p.transport != PublicHttp ==> made == [])
            && (forall k :: 0 <= k < |made| ==> hops[k].url == made[k].url)
  {
    if moves != [] {
      HopsMatch(p, b, Butlast(moves));
    }
  }

  lemma {:induction false} ApprovedAreLawful(p: Policy, b: Bound, moves: seq<Move>)
    ensures forall h :: h in Approved(p, b, moves) ==> LawfulHop(p, h)
  {
    if moves != [] {
      ApprovedAreLawful(p, b, Butlast(moves));
      var s, m := AfterMoves(p, b, Butlast(moves)), Last(moves);
      if m.Call? && Answered(p, s, m).Approves? {
        ApprovedIsLawful(p, s.bound, |s.hops|, m.url, m.addresses);
      }
    }
  }

  /**
   Whatever the adapter asks and overwrites: at most eight hops, each approved on a
   public URL with distinct global addresses, and the URLs are those approved, in order.
   */
  lemma GuardKeepsLawful(p: Policy, b: Bound, moves: seq<Move>)
    ensures |Approved(p, b, moves)| <= MAX_HOPS && (p.transport != PublicHttp ==> Approved(p, b, moves) == [])
    ensures forall h :: h in Approved(p, b, moves) ==> LawfulHop(p, h)
    ensures Urls(AfterMoves(p, b, moves).hops) == Urls(Approved(p, b, moves))
  {
    HopsMatch(p, b, moves);
    ApprovedAreLawful(p, b, moves);
  }

  // ----- The latch -----

  ghost predicate AnsweredAt(p: Policy, b: Bound, moves: seq<Move>, k: nat, a: Answer)
    requires k < |moves|
  {
    moves[k].Call? && Answered(p, AfterMoves(p, b, moves[..k]), moves[k]) == a
  }

  ghost predicate Ever(p: Policy, b: Bound, moves: seq<Move>, a: Answer) {
    exists k :: 0 <= k < |moves| && AnsweredAt(p, b, moves, k, a)
  }

  lemma EverSplits(p: Policy, b: Bound, moves: seq<Move>, a: Answer)
    requires moves != []
    ensures Ever(p, b, moves, a) <==> Ever(p, b, Butlast(moves), a) || AnsweredAt(p, b, moves, |moves| - 1, a)
  {
    forall k | 0 <= k < |moves| - 1
      ensures AnsweredAt(p, b, moves, k, a) <==> AnsweredAt(p, b, Butlast(moves), k, a)
    {
      assert Butlast(moves)[..k] == moves[..k];
    }
    if Ever(p, b, Butlast(moves), a) {
      var k :| 0 <= k < |moves| - 1 && AnsweredAt(p, b, Butlast(moves), k, a);
      assert AnsweredAt(p, b, moves, k, a);
    }
  }

  /** What was asked for, in order. */
  function CalledUrls(moves: seq<Move>): seq<string> {
    if moves == [] then []
    else CalledUrls(Butlast(moves)) + (if Last(moves).Call? then [Last(moves).url] else [])
  }

  /** The latch is set exactly when some call was refused; without refusal or break every call became a hop. */
  lemma {:induction false} LatchMeansRefusal(p: Policy, b: Bound, moves: seq<Move>)
    ensures AfterMoves(p, b, moves).rejected <==> Ever(p, b, moves, Refuses)
    ensures !Ever(p, b, moves, Refuses) && !Ever(p, b, moves, Breaks) ==>
              Urls(Approved(p, b, moves)) == CalledUrls(moves)
  {
    if moves != [] {
      LatchMeansRefusal(p, b, Butlast(moves));
      EverSplits(p, b, moves, Refuses);
      EverSplits(p, b, moves, Breaks);
    }
  }

  /** A call that breaks raises, but the guard and every report are as if it had not been made. */
  lemma BreakLeavesNoTrace(p: Policy, b: Bound, moves: seq<Move>, url: string, addresses: seq<string>)
    requires p.transport == PublicHttp && p.public(url) && AfterMoves(p, b, moves).hops == []
    ensures var s := AfterMoves(p, b, moves);
            var gone := moves + [Rebind(s.bound.(request := None))];
            && Answered(p, AfterMoves(p, b, gone), Call(url, addresses)) == Breaks
            && AfterMoves(p, b, gone + [Call(url, addresses)] + [Rebind(s.bound)]) == s
  {
    var s := AfterMoves(p, b, moves);
    var gone := moves + [Rebind(s.bound.(request := None))];
    var called := gone + [Call(url, addresses)];
    assert Butlast(gone) == moves && Butlast(called) == gone && Butlast(called + [Rebind(s.bound)]) == called;
  }

  // ----- What the adapter overwrites -----

  /** What the adapter last wrote over the addresses of a hop it had been given. */
  function LastWrite(p: Policy, b: Bound, moves: seq<Move>, k: nat): Option<seq<string>> {
    if moves == [] then None
    else if Last(moves).Write? && Last(moves).hop == k < |AfterMoves(p, b, Butlast(moves)).hops| then
      Some(Last(moves).addresses)
    else LastWrite(p, b, Butlast(moves), k)
  }

  /** Each reported list is the approved one, or the last thing written over it. */
  lemma {:induction false} WritesShow(p: Policy, b: Bound, moves: seq<Move>, k: nat)
    requires k < |AfterMoves(p, b, moves).hops|
    ensures k < |Approved(p, b, moves)|
    ensures AfterMoves(p, b, moves).hops[k].addresses ==
              match LastWrite(p, b, moves, k) case Some(v) => v case None => Approved(p, b, moves)[k].addresses
  {
    HopsMatch(p, b, moves);
    HopsMatch(p, b, Butlast(moves));
    if k < |AfterMoves(p, b, Butlast(moves)).hops| {
      WritesShow(p, b, Butlast(moves), k);
    } else {
      NothingWritten(p, b, Butlast(moves), k);
    }
  }

  lemma {:induction false} NothingWritten(p: Policy, b: Bound, moves: seq<Move>, k: nat)
    requires k >= |AfterMoves(p, b, moves).hops|
    ensures LastWrite(p, b, moves, k) == None
  {
    if moves != [] {
      NothingWritten(p, b, Butlast(moves), k);
    }
  }

  /** No write over the hop, or the last one wrote just these addresses. */
  predicate Leaves(p: Policy, b: Bound, moves: seq<Move>, k: nat, addresses: seq<string>) {
    match LastWrite(p, b, moves, k) case None => true case Some(v) => v == addresses
  }

  /** Nothing but the approved addresses was left behind by a write. */
  ghost predicate ListsUntouched(p: Policy, b: Bound, moves: seq<Move>) {
    forall k :: 0 <= k < |Approved(p, b, moves)| ==>
      Leaves(p, b, moves, k, Approved(p, b, moves)[k].addresses)
  }

  lemma HopShows(p: Policy, b: Bound, moves: seq<Move>, k: nat)
    requires k < |Approved(p, b, moves)|
    ensures |AfterMoves(p, b, moves).hops| == |Approved(p, b, moves)|
    ensures AfterMoves(p, b, moves).hops[k] == Approved(p, b, moves)[k] <==>
              Leaves(p, b, moves, k, Approved(p, b, moves)[k].addresses)
  {
    HopsMatch(p, b, moves);
    WritesShow(p, b, moves, k);
  }

  /** The hops are those that were approved exactly if no write left anything else in their lists. */
  lemma HopsAsApproved(p: Policy, b: Bound, moves: seq<Move>)
    ensures AfterMoves(p, b, moves).hops == Approved(p, b, moves) <==> ListsUntouched(p, b, moves)
  {
    var hops, made := AfterMoves(p, b, moves).hops, Approved(p, b, moves);
    HopsMatch(p, b, moves);
    forall k | 0 <= k < |made|
      ensures hops[k] == made[k] <==> Leaves(p, b, moves, k, made[k].addresses)
    {
      HopShows(p, b, moves, k);
    }
  }

  /** The invocation as the adapter last left it. */
  function BoundAfter(b: Bound, moves: seq<Move>): Bound {
    if moves == [] then b
    else if Last(moves).Rebind? then Last(moves).bound
    else BoundAfter(b, Butlast(moves))
  }

  lemma {:induction false} BoundIsLastWritten(p: Policy, b: Bound, moves: seq<Move>)
    ensures AfterMoves(p, b, moves).bound == BoundAfter(b, moves)
  {
    if moves != [] {
      BoundIsLastWritten(p, b, Butlast(moves));
    }
  }

  /** How many moves came before the first approval. */
  function BeforeFirst(p: Policy, b: Bound, moves: seq<Move>): (n: nat)
    ensures n <= |moves|
  {
    if moves == [] || Approved(p, b, moves) == [] then |moves|
    else if Approved(p, b, Butlast(moves)) == [] then |moves| - 1
    else BeforeFirst(p, b, Butlast(moves))
  }

  /** The first hop is the locator that stood in the invocation when it was approved. */
  lemma {:induction false} FirstHopStood(p: Policy, b: Bound, moves: seq<Move>)
    requires Approved(p, b, moves) != []
    ensures BeforeFirst(p, b, moves) < |moves|
    ensures BoundAfter(b, moves[..BeforeFirst(p, b, moves)]).request.Some?
    ensures Approved(p, b, moves)[0].url == BoundAfter(b, moves[..BeforeFirst(p, b, moves)]).request.value.locator
  {
    var before := Butlast(moves);
    if Approved(p, b, before) == [] {
      HopsMatch(p, b, before);
      BoundIsLastWritten(p, b, before);
    } else {
      FirstHopStood(p, b, before);
      assert before[..BeforeFirst(p, b, before)] == moves[..BeforeFirst(p, b, before)];
    }
  }

  /** The request the adapter was called with still names its own locator when the first hop is approved. */
  ghost predicate LocatorUntouched(p: Policy, b: Bound, moves: seq<Move>)
    requires b.request.Some?
  {
    var stood := BoundAfter(b, moves[..BeforeFirst(p, b, moves)]).request;
    stood.Some? && stood.value.locator == b.request.value.locator
  }

  // ----- The guard and the cells it shares -----

  class AddressList {
    var items: seq<string>

    constructor (addresses: seq<string>)
      ensures items == addresses
    {
      items := addresses;
    }
  }

  class Invocation {
    var bound: Bound

    constructor (b: Bound)
      ensures bound == b
    {
      bound := b;
    }
  }

  datatype KeptHop = KeptHop(url: string, list: AddressList)

  class Guard {
    const policy: Policy
    const invocation: Invocation
    var hops: seq<KeptHop>
    var rejected: bool

    ghost predicate Valid()
      reads this
    {
      forall i, j :: 0 <= i < j < |hops| ==> hops[i].list != hops[j].list
    }

    /** The hops with what their lists hold now. */
    function Hops(): (h: seq<Hop>)
      reads this, set k | k in hops :: k.list
      ensures |h| == |hops|
    {
      seq(|hops|, i requires 0 <= i < |hops| reads this, set k | k in hops :: k.list =>
        Hop(hops[i].url, hops[i].list.items))
    }

    ghost function Current(): State
      reads this, invocation, set k | k in hops :: k.list
    {
      State(Hops(), rejected, invocation.bound)
    }

    constructor (p: Policy, i: Invocation)
      ensures policy == p && invocation == i && hops == [] && !rejected && Valid()
    {
      policy, invocation, hops, rejected := p, i, [], false;
    }

    /** One call.  On approval the list of the new last hop is handed out as well as kept. */
    method Check(url: string, addresses: seq<string>) returns (answer: Answer)
      requires Valid()
      modifies this
      ensures Valid()
      ensures answer == Ask(policy, invocation.bound, |old(hops)|, url, addresses)
      ensures Current() == AfterMove(policy, old(Current()), Call(url, addresses))
      ensures old(hops) <= hops && forall k :: |old(hops)| <= k < |hops| ==> fresh(hops[k].list)
    {
      if policy.transport != PublicHttp || |hops| >= MAX_HOPS || !policy.public(url) {
        rejected := true;
        return Refuses;
      }
      if hops == [] && invocation.bound.request.None? {
        return Breaks;
      }
      if hops == [] && url != invocation.bound.request.value.locator {
        rejected := true;
        return Refuses;
      }
      if addresses == [] || |addresses| > MAX_ADDRESSES {
        rejected := true;
        return Refuses;
      }
      var resolved := CanonicalAddresses(addresses);
      if resolved.None? {
        rejected := true;
        return Refuses;
      }
      answer := Approves(Hop(url, SortKeys(Elements(resolved.value))));
      Keep(answer.hop);
    }

    /** Both the report and the adapter will hold this list. */
    method Keep(hop: Hop)
      requires Valid()
      modifies this`hops
      ensures Valid() && Hops() == old(Hops()) + [hop]
      ensures old(hops) <= hops && forall k :: |old(hops)| <= k < |hops| ==> fresh(hops[k].list)
    {
      var list := new AddressList(hop.addresses);
      hops := hops + [KeptHop(hop.url, list)];
      assert Hops() == old(Hops()) + [hop];
    }

    /** The loop over the addresses. */
    method CanonicalAddresses(addresses: seq<string>) returns (r: Option<seq<string>>)
      ensures r == Resolve(policy, addresses)
    {
      var resolved: seq<string> := [];
      var i := 0;
      while i < |addresses|
        invariant 0 <= i <= |addresses|
        invariant Resolve(policy, addresses[..i]) == Some(resolved)
      {
        var canonical := policy.resolve(addresses[i]);
        assert addresses[..i + 1][..i] == addresses[..i];
        if canonical.None? || canonical.value in resolved {
          NoResolution(policy, addresses, i + 1);
          return None;
        }
        resolved := resolved + [canonical.value];
        i := i + 1;
      }
      assert addresses[..i] == addresses;
      r := Some(resolved);
    }

    /** The adapter writes to a list it was given. */
    method Overwrite(hop: nat, addresses: seq<string>)
      requires Valid()
      modifies set k | k in hops :: k.list
      ensures Valid() && Current() == AfterMove(policy, old(Current()), Write(hop, addresses))
    {
      ghost var before := Hops();
      if hop < |hops| {
        hops[hop].list.items := addresses;
        assert Hops() == before[hop := before[hop].(addresses := addresses)];
      }
    }

    /** The adapter: it calls the guard, and writes to the lists it was given and to its invocation. */
    method Perform(moves: seq<Move>)
      requires Valid() && hops == [] && !rejected
      modifies this, invocation
      ensures Valid() && Current() == AfterMoves(policy, old(invocation.bound), moves)
      ensures forall k :: k in hops ==> fresh(k.list)
    {
      var i := 0;
      while i < |moves|
        invariant 0 <= i <= |moves| && Valid()
        invariant Current() == AfterMoves(policy, old(invocation.bound), moves[..i])
        invariant forall k :: k in hops ==> fresh(k.list)
      {
        NextMove(policy, old(invocation.bound), moves, i);
        match moves[i] {
          case Call(url, addresses) =>
            var swallowed := Check(url, addresses);
          case Write(hop, addresses) =>
            Overwrite(hop, addresses);
          case Rebind(bound) =>
            ghost var before := Hops();
            invocation.bound := bound;
            assert Hops() == before;
        }
        i := i + 1;
      }
      assert moves[..i] == moves;
    }
  }

  lemma NextMove(p: Policy, b: Bound, moves: seq<Move>, i: nat)
    requires i < |moves|
    ensures AfterMoves(p, b, moves[..i + 1]) == AfterMove(p, AfterMoves(p, b, moves[..i]), moves[i])
  {
    assert Butlast(moves[..i + 1]) == moves[..i];
  }

  lemma {:induction false} NoResolution(p: Policy, addresses: seq<string>, n: nat)
    requires n <= |addresses| && Resolve(p, addresses[..n]).None?
    ensures Resolve(p, addresses).None?
    decreases |addresses| - n
  {
    if n < |addresses| {
      assert addresses[..n + 1][..n] == addresses[..n];
      NoResolution(p, addresses, n + 1);
    } else {
      assert addresses[..n] == addresses;
    }
  }
}
