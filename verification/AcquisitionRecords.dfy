/**
 Adapter manifests and invocations: construction sorts what has no order and adds a
 fingerprint, validation does the same and compares.  The fingerprint function is a
 parameter, as are the validators of the parts defined elsewhere.
 */
module AcquisitionRecords {
  import opened Prelude
  import opened Text
  import opened AcquisitionGuard

  type Fingerprint = nat
  type Material = nat

  const PUBLIC_FAMILIES: set<string> := {"OFFICIAL_DOCS", "SPECIFICATION", "PAPER_REPORT", "PUBLIC_WEB"}

  datatype ManifestBody = ManifestBody(
    id: string, version: string, transport: Option<Transport>, families: seq<string>, scopes: seq<string>)
  datatype Manifest = Manifest(body: ManifestBody, fingerprint: Fingerprint)
  datatype Ref = Ref(id: string, version: string, fingerprint: Fingerprint)
  datatype InvocationBody = InvocationBody(
    brief: Material, request: Material, targets: seq<Material>, adapter: Ref,
    mode: string, context: Option<string>, id: string)
  datatype Invocation = Invocation(body: InvocationBody, fingerprint: Fingerprint)

  /**
   `safe` accepts identifiers and `fits` is the size ceiling of manifests.  `octets` is the
   size of an invocation without its fingerprint, for which the order of the targets does
   not matter; `None` is what strict JSON cannot hold.  The rest belongs to other modules.
   */
  datatype Rules = Rules(
    safe: string -> bool,
    digest: ManifestBody -> Fingerprint,
    fits: ManifestBody -> bool,
    brief: Material -> Option<Material>,
    target: (Material, Material) -> Option<Material>,
    mark: Material -> string,
    request: (Material, Material, set<Material>) -> Option<Material>,
    family: Material -> string,
    locates: (Transport, Material) -> bool,
    sign: InvocationBody -> Fingerprint,
    octets: (InvocationBody, multiset<Material>) -> Option<nat>)

  // ----- Manifests -----

  function Families(t: Transport): set<string> {
    match t
    case PublicHttp | PublicSearch => PUBLIC_FAMILIES
    case RepositoryRead => {"REPOSITORY"}
    case AuthorizedConnector => {"CONNECTED_SOURCE"}
  }

  function Scopes(t: Transport): set<string> {
    match t
    case PublicHttp | PublicSearch => {"PUBLIC"}
    case RepositoryRead => {"PUBLIC", "AUTHORIZED_PRIVATE"}
    case AuthorizedConnector => {"AUTHORIZED_PRIVATE"}
  }

  predicate Listed(xs: seq<string>, allowed: set<string>) {
    xs != [] && |Elements(xs)| == |xs| && Elements(xs) <= allowed
  }

  predicate GoodBody(r: Rules, b: ManifestBody) {
    && r.safe(b.id) && r.safe(b.version) && b.transport.Some?
    && var t := b.transport.value;
    && Listed(b.families, Families(t)) && Listed(b.scopes, Scopes(t))
    && (t == RepositoryRead || t == AuthorizedConnector ==> Elements(b.families) == Families(t))
  }

  function Sorted(xs: seq<string>): seq<string> {
    SortKeys(Elements(xs))
  }

  function NormalBody(b: ManifestBody): ManifestBody {
    b.(families := Sorted(b.families), scopes := Sorted(b.scopes))
  }

  function Record(r: Rules, b: ManifestBody, claimed: Option<Fingerprint>): Option<Manifest> {
    var n := NormalBody(b);
    if !GoodBody(r, b) || !r.fits(n) || (claimed.Some? && claimed.value != r.digest(n)) then None
    else Some(Manifest(n, r.digest(n)))
  }

  function Construct(r: Rules, b: ManifestBody): Option<Manifest> {
    Record(r, b, None)
  }

  function Validate(r: Rules, m: Manifest): Option<Manifest> {
    Record(r, m.body, Some(m.fingerprint))
  }

  lemma SortedElements(xs: seq<string>)
    ensures Elements(Sorted(xs)) == Elements(xs) && |Sorted(xs)| == |Elements(xs)|
    ensures Sorted(Sorted(xs)) == Sorted(xs)
  {
    assert Elements(Sorted(xs)) == Elements(xs);
  }

  lemma NormalBodyIsGood(r: Rules, b: ManifestBody)
    requires GoodBody(r, b)
    ensures GoodBody(r, NormalBody(b)) && NormalBody(NormalBody(b)) == NormalBody(b)
  {
    SortedElements(b.families);
    SortedElements(b.scopes);
  }

  /** What was constructed validates to itself. */
  lemma ConstructedValidates(r: Rules, b: ManifestBody)
    requires Construct(r, b).Some?
    ensures Validate(r, Construct(r, b).value) == Construct(r, b)
  {
    NormalBodyIsGood(r, b);
  }

  /** Validation is a projection onto the constructed manifests: it accepts a record exactly when its body constructs to its fingerprint. */
  lemma ValidateProjects(r: Rules, m: Manifest, n: Manifest)
    ensures Validate(r, m) == Some(n) <==> Construct(r, m.body) == Some(n) && m.fingerprint == n.fingerprint
    ensures Validate(r, m) == Some(n) ==> Validate(r, n) == Some(n)
  {
    if Validate(r, m) == Some(n) {
      ConstructedValidates(r, m.body);
    }
  }

  lemma PermutedElements(a: seq<string>, b: seq<string>)
    requires multiset(a) == multiset(b)
    ensures Elements(a) == Elements(b) && |a| == |b|
  {
    forall x
      ensures x in a <==> x in b
    {
      assert x in a <==> x in multiset(a);
      assert x in b <==> x in multiset(b);
    }
    assert |multiset(a)| == |multiset(b)|;
  }

  /** Reordering families or scopes changes neither the verdict nor the record nor the fingerprint. */
  lemma OrderIsForgotten(r: Rules, a: ManifestBody, b: ManifestBody)
    requires a.(families := [], scopes := []) == b.(families := [], scopes := [])
    requires multiset(a.families) == multiset(b.families) && multiset(a.scopes) == multiset(b.scopes)
    ensures Construct(r, a) == Construct(r, b)
  {
    PermutedElements(a.families, b.families);
    PermutedElements(a.scopes, b.scopes);
    assert NormalBody(a) == NormalBody(b) by {
      assert a == b.(families := a.families, scopes := a.scopes);
    }
    assert GoodBody(r, a) == GoodBody(r, b);
  }

  /** Nothing but the order is forgotten. */
  lemma OnlyOrderIsForgotten(r: Rules, a: ManifestBody, b: ManifestBody)
    requires Construct(r, a).Some? && Construct(r, a) == Construct(r, b)
    ensures a.(families := [], scopes := []) == b.(families := [], scopes := [])
    ensures Elements(a.families) == Elements(b.families) && Elements(a.scopes) == Elements(b.scopes)
  {
    SortedElements(a.families);
    SortedElements(b.families);
    SortedElements(a.scopes);
    SortedElements(b.scopes);
    assert NormalBody(a) == NormalBody(b);
  }

  // ----- Targets, sorted by their fingerprints -----

  function Prints(r: Rules, ts: seq<Material>): set<string> {
    set t | t in ts :: r.mark(t)
  }

  function ValidTargets(r: Rules, ts: seq<Material>, brief: Material): Option<seq<Material>> {
    if ts == [] then Some([])
    else
      match (ValidTargets(r, ts[..|ts| - 1], brief), r.target(ts[|ts| - 1], brief))
      case (Some(before), Some(last)) => Some(before + [last])
      case _ => None
  }

  lemma {:induction false} ValidTargetsMeans(r: Rules, ts: seq<Material>, brief: Material)
    ensures ValidTargets(r, ts, brief).Some? <==> forall t :: t in ts ==> r.target(t, brief).Some?
    ensures ValidTargets(r, ts, brief).Some? ==>
              && |ValidTargets(r, ts, brief).value| == |ts|
              && forall i :: 0 <= i < |ts| ==> r.target(ts[i], brief) == Some(ValidTargets(r, ts, brief).value[i])
  {
    if ts != [] {
      ValidTargetsMeans(r, ts[..|ts| - 1], brief);
      assert ts == ts[..|ts| - 1] + [ts[|ts| - 1]];
    }
  }

  /** The target with this fingerprint. */
  function WithPrint(r: Rules, ts: seq<Material>, key: string): (t: Material)
    requires key in Prints(r, ts)
    ensures t in ts && r.mark(t) == key
  {
    if r.mark(ts[0]) == key then ts[0] else WithPrint(r, ts[1..], key)
  }

  function ByPrint(r: Rules, ts: seq<Material>): (sorted: seq<Material>)
    ensures |sorted| == |Prints(r, ts)|
  {
    var keys := SortKeys(Prints(r, ts));
    seq(|keys|, i requires 0 <= i < |keys| && keys[i] in Prints(r, ts) => WithPrint(r, ts, keys[i]))
  }

  /** No two targets share a fingerprint. */
  ghost predicate Injective(r: Rules, ts: seq<Material>) {
    forall i, j :: 0 <= i < j < |ts| ==> r.mark(ts[i]) != r.mark(ts[j])
  }

  lemma {:induction false} CountedIsInjective(r: Rules, ts: seq<Material>)
    ensures |Prints(r, ts)| <= |ts|
    ensures |Prints(r, ts)| == |ts| ==> Injective(r, ts)
  {
    if ts != [] {
      var n := |ts| - 1;
      var before, last := Prints(r, ts[..n]), r.mark(ts[n]);
      CountedIsInjective(r, ts[..n]);
      LastPrint(r, ts);
      if last in before {
        assert before + {last} == before;
      } else {
        forall i | 0 <= i < n
          ensures r.mark(ts[i]) != last
        {
          assert ts[..n][i] == ts[i] && r.mark(ts[..n][i]) in before;
        }
        if Injective(r, ts[..n]) {
          forall i, j | 0 <= i < j < |ts|
            ensures r.mark(ts[i]) != r.mark(ts[j])
          {
            if j < n {
              assert r.mark(ts[..n][i]) != r.mark(ts[..n][j]);
            }
          }
        }
      }
    }
  }

  lemma LastPrint(r: Rules, ts: seq<Material>)
    requires ts != []
    ensures Prints(r, ts) == Prints(r, ts[..|ts| - 1]) + {r.mark(ts[|ts| - 1])}
  {
    assert ts == ts[..|ts| - 1] + [ts[|ts| - 1]];
  }

  lemma SortedTargets(r: Rules, ts: seq<Material>)
    requires |Prints(r, ts)| == |ts|
    ensures forall t :: t in ByPrint(r, ts) <==> t in ts
    ensures Prints(r, ByPrint(r, ts)) == Prints(r, ts) && |ByPrint(r, ts)| == |ts|
  {
    var keys, sorted := SortKeys(Prints(r, ts)), ByPrint(r, ts);
    CountedIsInjective(r, ts);
    forall t | t in ts
      ensures t in sorted
    {
      assert r.mark(t) in Prints(r, ts);
      var i :| 0 <= i < |keys| && keys[i] == r.mark(t);
      UniquePrint(r, ts, t, WithPrint(r, ts, keys[i]));
      assert sorted[i] == t;
    }
    forall t | t in sorted
      ensures t in ts
    {
      var i :| 0 <= i < |sorted| && sorted[i] == t;
      assert keys[i] in Prints(r, ts);
    }
  }

  lemma UniquePrint(r: Rules, ts: seq<Material>, a: Material, b: Material)
    requires Injective(r, ts) && a in ts && b in ts && r.mark(a) == r.mark(b)
    ensures a == b
  {
    var i :| 0 <= i < |ts| && ts[i] == a;
    var j :| 0 <= j < |ts| && ts[j] == b;
  }

  /** The sorted list depends only on which targets there are. */
  lemma ByPrintOfSame(r: Rules, a: seq<Material>, b: seq<Material>)
    requires |Prints(r, a)| == |a| && |Prints(r, b)| == |b| && forall t :: t in a <==> t in b
    ensures ByPrint(r, a) == ByPrint(r, b)
  {
    CountedIsInjective(r, a);
    assert Prints(r, a) == Prints(r, b);
    var keys := SortKeys(Prints(r, a));
    forall i | 0 <= i < |keys|
      ensures ByPrint(r, a)[i] == ByPrint(r, b)[i]
    {
      assert keys[i] in Prints(r, a);
      UniquePrint(r, a, WithPrint(r, a, keys[i]), WithPrint(r, b, keys[i]));
    }
  }

  // ----- Invocations -----

  function Members(ts: seq<Material>): set<Material> {
    set t | t in ts
  }

  predicate GoodContext(r: Rules, mode: string, context: Option<string>) {
    (mode == "PUBLIC" && context.None?) || (mode == "AUTHORIZED_PRIVATE" && context.Some? && r.safe(context.value))
  }

  datatype Targets = Targets(all: set<Material>, sorted: seq<Material>)

  /** At most sixteen valid targets with different fingerprints. */
  function Collect(r: Rules, ts: seq<Material>, brief: Material): Option<Targets> {
    var valid := ValidTargets(r, ts, brief);
    if |ts| > 16 || valid.None? || |Prints(r, valid.value)| != |valid.value| then None
    else Some(Targets(Members(valid.value), ByPrint(r, valid.value)))
  }

  function Normal(r: Rules, m: Manifest, b: InvocationBody): Option<InvocationBody> {
    match (Validate(r, m), r.brief(b.brief))
    case (Some(bound), Some(brief)) =>
      (match Collect(r, b.targets, brief)
       case None => None
       case Some(targets) => Bind(r, bound, b, brief, targets))
    case _ => None
  }

  function Bind(r: Rules, n: Manifest, b: InvocationBody, brief: Material, ts: Targets): Option<InvocationBody> {
    var request := r.request(b.request, brief, ts.all);
    if request.None? || b.adapter != Ref(n.body.id, n.body.version, n.fingerprint) then None
    else if r.family(request.value) !in n.body.families || b.mode !in n.body.scopes then None
    else if !GoodContext(r, b.mode, b.context) || !r.safe(b.id) then None
    else if n.body.transport.None? || !r.locates(n.body.transport.value, request.value) then None
    else Some(InvocationBody(brief, request.value, ts.sorted, b.adapter, b.mode, b.context, b.id))
  }

  const CEILING: nat := 131072

  /** The member `"invocation_fingerprint"` with its 64 digits, the comma before it included. */
  const FINGERPRINT_OCTETS: nat := 92

  predicate Bounded(r: Rules, b: InvocationBody, signed: bool) {
    var size := r.octets(b.(targets := []), multiset(b.targets));
    size.Some? && size.value + (if signed then FINGERPRINT_OCTETS else 0) <= CEILING
  }

  /** The record as it came is bounded, and so is the one that is returned. */
  function RecordInvocation(r: Rules, m: Manifest, b: InvocationBody, claimed: Option<Fingerprint>): Option<Invocation> {
    if !Bounded(r, b, claimed.Some?) then None
    else
      match Normal(r, m, b)
      case None => None
      case Some(n) =>
        if !Bounded(r, n, true) || (claimed.Some? && claimed.value != r.sign(n)) then None
        else Some(Invocation(n, r.sign(n)))
  }

  function ConstructInvocation(r: Rules, m: Manifest, b: InvocationBody): Option<Invocation> {
    RecordInvocation(r, m, b, None)
  }

  function ValidateInvocation(r: Rules, m: Manifest, i: Invocation): Option<Invocation> {
    RecordInvocation(r, m, i.body, Some(i.fingerprint))
  }

  /** The validators of the parts accept what they returned. */
  ghost predicate PartsProject(r: Rules) {
    && (forall b :: BriefProjects(r, b))
    && (forall t, b :: TargetProjects(r, t, b))
    && (forall q, b, ts :: RequestProjects(r, q, b, ts))
  }

  ghost predicate BriefProjects(r: Rules, b: Material) {
    r.brief(b).Some? ==> r.brief(r.brief(b).value) == r.brief(b)
  }

  ghost predicate TargetProjects(r: Rules, t: Material, b: Material) {
    r.target(t, b).Some? ==> r.target(r.target(t, b).value, b) == r.target(t, b)
  }

  ghost predicate RequestProjects(r: Rules, q: Material, b: Material, ts: set<Material>) {
    r.request(q, b, ts).Some? ==> r.request(r.request(q, b, ts).value, b, ts) == r.request(q, b, ts)
  }

  lemma {:induction false} FixedTargets(r: Rules, us: seq<Material>, brief: Material)
    requires forall i :: 0 <= i < |us| ==> r.target(us[i], brief) == Some(us[i])
    ensures ValidTargets(r, us, brief) == Some(us)
  {
    if us != [] {
      FixedTargets(r, us[..|us| - 1], brief);
      assert us == us[..|us| - 1] + [us[|us| - 1]];
    }
  }

  lemma {:induction false} ValidatedIsFixed(r: Rules, ts: seq<Material>, brief: Material, u: Material)
    requires forall t :: TargetProjects(r, t, brief)
    requires ValidTargets(r, ts, brief).Some? && u in ValidTargets(r, ts, brief).value
    ensures r.target(u, brief) == Some(u)
  {
    var last := ts[|ts| - 1];
    assert TargetProjects(r, last, brief);
    if r.target(last, brief) != Some(u) {
      ValidatedIsFixed(r, ts[..|ts| - 1], brief, u);
    }
  }

  lemma ValidatedTargetsStay(r: Rules, ts: seq<Material>, us: seq<Material>, brief: Material)
    requires forall t :: TargetProjects(r, t, brief)
    requires ValidTargets(r, ts, brief).Some?
    requires forall u :: u in us ==> u in ValidTargets(r, ts, brief).value
    ensures ValidTargets(r, us, brief) == Some(us)
  {
    forall i | 0 <= i < |us|
      ensures r.target(us[i], brief) == Some(us[i])
    {
      ValidatedIsFixed(r, ts, brief, us[i]);
    }
    FixedTargets(r, us, brief);
  }

  lemma CollectAgain(r: Rules, ts: seq<Material>, brief: Material)
    requires forall t :: TargetProjects(r, t, brief)
    requires Collect(r, ts, brief).Some?
    ensures Collect(r, Collect(r, ts, brief).value.sorted, brief) == Collect(r, ts, brief)
  {
    var valid := ValidTargets(r, ts, brief).value;
    var sorted := ByPrint(r, valid);
    ValidTargetsMeans(r, ts, brief);
    SortedTargets(r, valid);
    ValidatedTargetsStay(r, ts, sorted, brief);
    assert Members(sorted) == Members(valid);
    ByPrintOfSame(r, sorted, valid);
  }

  lemma NormalIsNormal(r: Rules, m: Manifest, b: InvocationBody)
    requires PartsProject(r) && Normal(r, m, b).Some?
    ensures Normal(r, m, Normal(r, m, b).value) == Normal(r, m, b)
  {
    var brief := r.brief(b.brief).value;
    assert BriefProjects(r, b.brief);
    forall t
      ensures TargetProjects(r, t, brief)
    {
    }
    CollectAgain(r, b.targets, brief);
    assert RequestProjects(r, b.request, brief, Collect(r, b.targets, brief).value.all);
  }

  lemma ConstructedInvocationValidates(r: Rules, m: Manifest, b: InvocationBody)
    requires PartsProject(r) && ConstructInvocation(r, m, b).Some?
    ensures ValidateInvocation(r, m, ConstructInvocation(r, m, b).value) == ConstructInvocation(r, m, b)
  {
    NormalIsNormal(r, m, b);
  }

  /**
   Validation is a projection onto the constructed invocations.  It accepts a record
   exactly when its body constructs to its fingerprint and the record itself is within the
   ceiling, which a longer spelling of the same invocation need not be.
   */
  lemma ValidateInvocationProjects(r: Rules, m: Manifest, i: Invocation, n: Invocation)
    requires PartsProject(r)
    ensures ValidateInvocation(r, m, i) == Some(n) <==>
              && ConstructInvocation(r, m, i.body) == Some(n) && i.fingerprint == n.fingerprint
              && Bounded(r, i.body, true)
    ensures ValidateInvocation(r, m, i) == Some(n) ==> ValidateInvocation(r, m, n) == Some(n)
  {
    if ValidateInvocation(r, m, i) == Some(n) {
      ConstructedInvocationValidates(r, m, i.body);
    }
  }

  /** A spelling just below the ceiling constructs, but signed it is too long to validate. */
  lemma LongSpellingDoesNotValidate(r: Rules, m: Manifest, b: InvocationBody)
    requires ConstructInvocation(r, m, b).Some? && !Bounded(r, b, true)
    ensures ValidateInvocation(r, m, Invocation(b, ConstructInvocation(r, m, b).value.fingerprint)) == None
    ensures CEILING - FINGERPRINT_OCTETS < r.octets(b.(targets := []), multiset(b.targets)).value <= CEILING
  {
  }

  lemma PermutedTargets(r: Rules, a: seq<Material>, b: seq<Material>, brief: Material)
    requires multiset(a) == multiset(b)
    ensures |a| == |b| && ValidTargets(r, a, brief).Some? == ValidTargets(r, b, brief).Some?
    ensures ValidTargets(r, a, brief).Some? ==>
              forall t :: t in ValidTargets(r, a, brief).value <==> t in ValidTargets(r, b, brief).value
  {
    assert |multiset(a)| == |multiset(b)|;
    forall t
      ensures t in a <==> t in b
    {
      assert t in a <==> t in multiset(a);
      assert t in b <==> t in multiset(b);
    }
    ValidTargetsMeans(r, a, brief);
    ValidTargetsMeans(r, b, brief);
    if ValidTargets(r, a, brief).Some? {
      ImageOfSame(r, a, b, brief);
      ImageOfSame(r, b, a, brief);
    }
  }

  lemma ImageOfSame(r: Rules, a: seq<Material>, b: seq<Material>, brief: Material)
    requires ValidTargets(r, a, brief).Some? && ValidTargets(r, b, brief).Some? && forall t :: t in a ==> t in b
    ensures forall t :: t in ValidTargets(r, a, brief).value ==> t in ValidTargets(r, b, brief).value
  {
    ValidTargetsMeans(r, a, brief);
    ValidTargetsMeans(r, b, brief);
    var va, vb := ValidTargets(r, a, brief).value, ValidTargets(r, b, brief).value;
    forall t | t in va
      ensures t in vb
    {
      var i :| 0 <= i < |va| && va[i] == t;
      assert a[i] in b;
      var j :| 0 <= j < |b| && b[j] == a[i];
      assert vb[j] == t;
    }
  }

  lemma CollectForgetsOrder(r: Rules, a: seq<Material>, b: seq<Material>, brief: Material)
    requires multiset(a) == multiset(b)
    ensures Collect(r, a, brief) == Collect(r, b, brief)
  {
    PermutedTargets(r, a, b, brief);
    ValidTargetsMeans(r, a, brief);
    ValidTargetsMeans(r, b, brief);
    if ValidTargets(r, a, brief).Some? {
      var va, vb := ValidTargets(r, a, brief).value, ValidTargets(r, b, brief).value;
      assert Members(va) == Members(vb);
      assert Prints(r, va) == Prints(r, vb);
      if |Prints(r, va)| == |va| {
        ByPrintOfSame(r, va, vb);
      }
    }
  }

  /** Reordering the challenge targets changes neither the verdict nor the record nor the fingerprint. */
  lemma TargetOrderIsForgotten(r: Rules, m: Manifest, a: InvocationBody, b: InvocationBody)
    requires a.(targets := []) == b.(targets := []) && multiset(a.targets) == multiset(b.targets)
    ensures ConstructInvocation(r, m, a) == ConstructInvocation(r, m, b)
  {
    assert a == b.(targets := a.targets);
    if r.brief(a.brief).Some? {
      CollectForgetsOrder(r, a.targets, b.targets, r.brief(a.brief).value);
    }
  }

  // ----- What constructs, condition by condition -----

  predicate NoneTwice(xs: seq<string>) {
    forall i, j :: 0 <= i < j < |xs| ==> xs[i] != xs[j]
  }

  lemma {:induction false} CountedOnce(xs: seq<string>)
    ensures |Elements(xs)| <= |xs|
    ensures |Elements(xs)| == |xs| <==> NoneTwice(xs)
  {
    if xs != [] {
      var n := |xs| - 1;
      CountedOnce(xs[..n]);
      assert xs == xs[..n] + [xs[n]];
      assert Elements(xs) == Elements(xs[..n]) + {xs[n]};
      OnceMore(xs);
      if xs[n] in Elements(xs[..n]) {
        assert Elements(xs) == Elements(xs[..n]);
      }
    }
  }

  lemma OnceMore(xs: seq<string>)
    requires xs != []
    ensures var n := |xs| - 1; NoneTwice(xs) <==> NoneTwice(xs[..n]) && xs[n] !in Elements(xs[..n])
  {
    var n := |xs| - 1;
    forall i | 0 <= i < n
      ensures xs[i] in Elements(xs[..n])
    {
      assert xs[..n][i] in xs[..n];
    }
  }

  /** What each transport may declare. */
  ghost predicate Declares(t: Transport, families: seq<string>, scopes: seq<string>) {
    && families != [] && NoneTwice(families) && scopes != [] && NoneTwice(scopes)
    && match t
       case PublicHttp | PublicSearch =>
         && scopes == ["PUBLIC"]
         && (forall f :: f in families ==> f in {"OFFICIAL_DOCS", "SPECIFICATION", "PAPER_REPORT", "PUBLIC_WEB"})
       case RepositoryRead =>
         && families == ["REPOSITORY"]
         && (forall x :: x in scopes ==> x == "PUBLIC" || x == "AUTHORIZED_PRIVATE")
       case AuthorizedConnector => families == ["CONNECTED_SOURCE"] && scopes == ["AUTHORIZED_PRIVATE"]
  }

  lemma AlikeIsOne(xs: seq<string>, x: string)
    requires forall i :: 0 <= i < |xs| ==> xs[i] == x
    ensures NoneTwice(xs) ==> |xs| <= 1
  {
    if |xs| > 1 {
      assert xs[0] == xs[1];
    }
  }

  lemma OneElement(xs: seq<string>, x: string)
    ensures xs != [] && NoneTwice(xs) && (forall y :: y in xs ==> y == x) <==> xs == [x]
  {
    if forall y :: y in xs ==> y == x {
      forall i | 0 <= i < |xs|
        ensures xs[i] == x
      {
        assert xs[i] in xs;
      }
      AlikeIsOne(xs, x);
    }
  }

  lemma DeclaresExactly(t: Transport, families: seq<string>, scopes: seq<string>)
    ensures Declares(t, families, scopes) <==>
              && Listed(families, Families(t)) && Listed(scopes, Scopes(t))
              && (t == RepositoryRead || t == AuthorizedConnector ==> Elements(families) == Families(t))
  {
    CountedOnce(families);
    CountedOnce(scopes);
    OneElement(scopes, "PUBLIC");
    OneElement(families, "REPOSITORY");
    OneElement(families, "CONNECTED_SOURCE");
    OneElement(scopes, "AUTHORIZED_PRIVATE");
    assert forall x :: x in families <==> x in Elements(families);
    assert forall x :: x in scopes <==> x in Elements(scopes);
  }

  /** A manifest constructs exactly under these conditions, and to these fields. */
  lemma ManifestExactly(r: Rules, b: ManifestBody)
    ensures var m := Construct(r, b);
            && (m.Some? <==>
                  && r.safe(b.id) && r.safe(b.version)
                  && b.transport.Some? && Declares(b.transport.value, b.families, b.scopes)
                  && r.fits(b.(families := SortKeys(Elements(b.families)), scopes := SortKeys(Elements(b.scopes)))))
            && (m.Some? ==>
                  && m.value.body.(families := [], scopes := []) == b.(families := [], scopes := [])
                  && Ascending(m.value.body.families) && (forall f :: f in m.value.body.families <==> f in b.families)
                  && Ascending(m.value.body.scopes) && (forall x :: x in m.value.body.scopes <==> x in b.scopes)
                  && m.value.fingerprint == r.digest(m.value.body))
  {
    if b.transport.Some? {
      DeclaresExactly(b.transport.value, b.families, b.scopes);
    }
    SortKeysAscend(Elements(b.families));
    SortKeysAscend(Elements(b.scopes));
  }

  /** The targets of an invocation: at most sixteen, each valid for the brief, no two with one fingerprint. */
  ghost predicate GoodTargets(r: Rules, ts: seq<Material>, brief: Material) {
    && |ts| <= 16 && (forall t :: t in ts ==> r.target(t, brief).Some?)
    && forall i, j :: 0 <= i < j < |ts| && r.target(ts[i], brief).Some? && r.target(ts[j], brief).Some? ==>
         r.mark(r.target(ts[i], brief).value) != r.mark(r.target(ts[j], brief).value)
  }

  lemma MarksApart(r: Rules, ts: seq<Material>, brief: Material)
    requires ValidTargets(r, ts, brief).Some?
    ensures |Prints(r, ValidTargets(r, ts, brief).value)| == |ts| <==>
              forall i, j :: 0 <= i < j < |ts| && r.target(ts[i], brief).Some? && r.target(ts[j], brief).Some? ==>
                r.mark(r.target(ts[i], brief).value) != r.mark(r.target(ts[j], brief).value)
  {
    ValidTargetsMeans(r, ts, brief);
    var valid := ValidTargets(r, ts, brief).value;
    CountedIsInjective(r, valid);
    if Injective(r, valid) {
      InjectiveIsCounted(r, valid);
    }
  }

  /** The targets as the brief's validator returns them. */
  function Returned(r: Rules, ts: seq<Material>, brief: Material): set<Material> {
    set t | t in ts && r.target(t, brief).Some? :: r.target(t, brief).value
  }

  lemma ReturnedAre(r: Rules, ts: seq<Material>, brief: Material)
    requires ValidTargets(r, ts, brief).Some?
    ensures Members(ValidTargets(r, ts, brief).value) == Returned(r, ts, brief)
  {
    ValidTargetsMeans(r, ts, brief);
    var valid := ValidTargets(r, ts, brief).value;
    forall u | u in valid
      ensures u in Returned(r, ts, brief)
    {
      var i :| 0 <= i < |ts| && valid[i] == u;
      assert ts[i] in ts;
    }
    forall u | u in Returned(r, ts, brief)
      ensures u in valid
    {
      var i :| 0 <= i < |ts| && r.target(ts[i], brief) == Some(u);
      assert valid[i] in valid;
    }
  }

  lemma TargetsExactly(r: Rules, ts: seq<Material>, brief: Material)
    ensures Collect(r, ts, brief).Some? <==> GoodTargets(r, ts, brief)
  {
    ValidTargetsMeans(r, ts, brief);
    if ValidTargets(r, ts, brief).Some? {
      MarksApart(r, ts, brief);
    }
  }

  lemma {:induction false} InjectiveIsCounted(r: Rules, ts: seq<Material>)
    requires Injective(r, ts)
    ensures |Prints(r, ts)| == |ts|
  {
    if ts != [] {
      var n := |ts| - 1;
      assert Injective(r, ts[..n]);
      InjectiveIsCounted(r, ts[..n]);
      LastPrint(r, ts);
    }
  }

  /** The manifest, the request and the mode agree; a private mode has a safe context and a public one none. */
  ghost predicate Capable(r: Rules, n: Manifest, b: InvocationBody, request: Material) {
    && b.adapter.id == n.body.id && b.adapter.version == n.body.version && b.adapter.fingerprint == n.fingerprint
    && r.family(request) in n.body.families && b.mode in n.body.scopes
    && (if b.mode == "PUBLIC" then b.context == None
        else b.mode == "AUTHORIZED_PRIVATE" && b.context.Some? && r.safe(b.context.value))
    && n.body.transport.Some? && r.locates(n.body.transport.value, request) && r.safe(b.id)
  }

  lemma MarksAscend(r: Rules, ts: seq<Material>)
    requires |Prints(r, ts)| == |ts|
    ensures Ascending(seq(|ByPrint(r, ts)|, i requires 0 <= i < |ByPrint(r, ts)| => r.mark(ByPrint(r, ts)[i])))
  {
    var keys := SortKeys(Prints(r, ts));
    SortKeysAscend(Prints(r, ts));
    var marks := seq(|ByPrint(r, ts)|, i requires 0 <= i < |ByPrint(r, ts)| => r.mark(ByPrint(r, ts)[i]));
    forall i | 0 <= i < |keys|
      ensures marks[i] == keys[i]
    {
      assert keys[i] in Prints(r, ts);
    }
    assert marks == keys;
  }

  /** Everything but the parts and the size: targets, capability and the ceiling on the record as it came. */
  ghost predicate Fitting(r: Rules, m: Manifest, b: InvocationBody) {
    && Bounded(r, b, false) && Validate(r, m).Some? && r.brief(b.brief).Some?
    && var brief := r.brief(b.brief).value;
    && GoodTargets(r, b.targets, brief)
    && r.request(b.request, brief, Returned(r, b.targets, brief)).Some?
    && Capable(r, Validate(r, m).value, b, r.request(b.request, brief, Returned(r, b.targets, brief)).value)
  }

  lemma BindExactly(r: Rules, n: Manifest, b: InvocationBody, brief: Material, ts: Targets)
    ensures var bound := Bind(r, n, b, brief, ts);
            && (bound.Some? <==>
                  r.request(b.request, brief, ts.all).Some? && Capable(r, n, b, r.request(b.request, brief, ts.all).value))
            && (bound.Some? ==>
                  bound.value == InvocationBody(brief, r.request(b.request, brief, ts.all).value, ts.sorted,
                                                b.adapter, b.mode, b.context, b.id))
  {
  }

  /** What is collected of good targets. */
  lemma CollectedExactly(r: Rules, ts: seq<Material>, brief: Material)
    ensures Collect(r, ts, brief).Some? <==> GoodTargets(r, ts, brief)
    ensures Collect(r, ts, brief).Some? ==>
              var found := Collect(r, ts, brief).value;
              && found.all == Returned(r, ts, brief) && (forall u :: u in found.sorted <==> u in found.all)
              && Ascending(seq(|found.sorted|, i requires 0 <= i < |found.sorted| => r.mark(found.sorted[i])))
  {
    TargetsExactly(r, ts, brief);
    if Collect(r, ts, brief).Some? {
      ReturnedAre(r, ts, brief);
      SortedTargets(r, ValidTargets(r, ts, brief).value);
      MarksAscend(r, ValidTargets(r, ts, brief).value);
    }
  }

  /**
   An invocation constructs exactly where it is fitting and its normal form is within the
   ceiling once signed: the parts as their own validators return them, the targets in the
   order of their fingerprints, everything else as it came.
   */
  lemma InvocationExactly(r: Rules, m: Manifest, b: InvocationBody)
    ensures Bounded(r, b, false) ==> (Normal(r, m, b).Some? <==> Fitting(r, m, b))
    ensures ConstructInvocation(r, m, b).Some? <==>
              Fitting(r, m, b) && Normal(r, m, b).Some? && Bounded(r, Normal(r, m, b).value, true)
    ensures ConstructInvocation(r, m, b).Some? ==>
              var i, brief := ConstructInvocation(r, m, b).value, r.brief(b.brief).value;
              && i.fingerprint == r.sign(i.body) && i.body.brief == brief
              && r.request(b.request, brief, Returned(r, b.targets, brief)) == Some(i.body.request)
              && (forall u :: u in i.body.targets <==> u in Returned(r, b.targets, brief))
              && Ascending(seq(|i.body.targets|, k requires 0 <= k < |i.body.targets| => r.mark(i.body.targets[k])))
              && i.body.adapter == b.adapter && i.body.mode == b.mode && i.body.context == b.context && i.body.id == b.id
  {
    if r.brief(b.brief).Some? && Validate(r, m).Some? {
      var brief := r.brief(b.brief).value;
      CollectedExactly(r, b.targets, brief);
      if Collect(r, b.targets, brief).Some? {
        BindExactly(r, Validate(r, m).value, b, brief, Collect(r, b.targets, brief).value);
      }
    }
  }
}
