/**
 Result packages: the structural validator binds a RESULT and its EVIDENCE to a TASK and
 a RUN; the canonical one in addition demands that every claim and every required
 command is backed by evidence that passes.
 */
module ArtifactPackage {
  import opened Prelude

  datatype Claim = Claim(id: string, satisfies: seq<string>, text: string, evidence: seq<string>)
  datatype ResultDoc = ResultDoc(head: string, claims: seq<Claim>, changed: seq<string>, unresolved: seq<string>)

  /** A runtime record: the base its binding names, and its opaque rest. */
  datatype Record = Record(base: Option<string>, observation: nat)
  datatype Evidence = Evidence(
    id: string, run: string, subject: string, kind: string, command: string, exit: int, record: Option<Record>)

  datatype TaskSpec = TaskSpec(id: string, revision: int, acceptance: seq<string>, required: seq<string>, v2: bool)
  datatype RunSpec = RunSpec(id: string, task: string, revision: int, head: Option<string>, base: string)
  datatype Package = Package(result: ResultDoc, evidence: seq<Evidence>)

  /** `measures` reads a command as a test command, if it is one; `attributed` recomputes attribution. */
  datatype Policy = Policy(measures: string -> Option<bool>, attributed: (Record, string, string, int) -> bool)

  // ----- RESULT documents -----

  /** A decoded claim; `None` is a field that is missing or ill-typed. */
  datatype ClaimData = ClaimData(
    id: Option<string>, satisfies: Option<seq<string>>, text: Option<string>, evidence: Option<seq<string>>)
  datatype ResultData = ResultData(
    head: Option<string>, claims: Option<seq<ClaimData>>, changed: Option<seq<string>>, unresolved: Option<seq<string>>)

  predicate ReadableClaim(c: ClaimData, backed: bool) {
    && c.id.Some? && c.satisfies.Some? && c.text.Some? && c.evidence.Some?
    && c.satisfies.value != [] && (backed ==> c.evidence.value != [])
  }

  function ClaimOf(c: ClaimData): Claim
    requires c.id.Some? && c.satisfies.Some? && c.text.Some? && c.evidence.Some?
  {
    Claim(c.id.value, c.satisfies.value, c.text.value, c.evidence.value)
  }

  /** All fields readable, claims with distinct ids, each satisfying something, and backed where that is demanded. */
  ghost predicate ReadableResult(d: ResultData, backed: bool) {
    && d.head.Some? && d.claims.Some? && d.changed.Some? && d.unresolved.Some?
    && (forall i :: 0 <= i < |d.claims.value| ==> ReadableClaim(d.claims.value[i], backed))
    && forall i, j :: 0 <= i < j < |d.claims.value| ==> d.claims.value[i].id != d.claims.value[j].id
  }

  ghost predicate Represents(r: ResultDoc, d: ResultData)
    requires ReadableResult(d, false)
  {
    && r.head == d.head.value && r.changed == d.changed.value && r.unresolved == d.unresolved.value
    && |r.claims| == |d.claims.value|
    && forall i :: 0 <= i < |r.claims| ==> r.claims[i] == ClaimOf(d.claims.value[i])
  }

  /** The stage is canonical when claims have to be backed, structural otherwise. */
  method ValidateResult(d: ResultData, backed: bool) returns (r: Result<ResultDoc>)
    ensures r.Accepted? <==> ReadableResult(d, backed)
    ensures r.Accepted? ==> ReadableResult(d, false) && Represents(r.value, d)
  {
    if d.claims.None? {
      return Rejected;
    }
    var data := d.claims.value;
    var claims: seq<Claim>, ids: set<string> := [], {};
    var i := 0;
    while i < |data|
      invariant 0 <= i <= |data| && |claims| == i
      invariant forall k :: 0 <= k < i ==> ReadableClaim(data[k], backed) && claims[k] == ClaimOf(data[k])
      invariant forall k, j :: 0 <= k < j < i ==> data[k].id != data[j].id
      invariant forall x :: x in ids <==> exists k :: 0 <= k < i && data[k].id == Some(x)
    {
      var c := data[i];
      if c.id.None? {
        return Rejected;
      }
      if c.id.value in ids {
        return Rejected;
      }
      if !ReadableClaim(c, backed) {
        return Rejected;
      }
      ids := ids + {c.id.value};
      claims := claims + [ClaimOf(c)];
      i := i + 1;
    }
    if d.head.None? || d.changed.None? || d.unresolved.None? {
      return Rejected;
    }
    r := Accepted(ResultDoc(d.head.value, claims, d.changed.value, d.unresolved.value));
  }

  // ----- What the two validators of packages accept -----

  function Ids(items: seq<Evidence>): set<string> {
    set e | e in items :: e.id
  }

  predicate References(task: TaskSpec, run: RunSpec, result: ResultDoc) {
    && run.task == task.id && run.revision == task.revision
    && (run.head.Some? ==> run.head.value == result.head)
  }

  predicate BoundItem(run: RunSpec, result: ResultDoc, e: Evidence) {
    e.run == run.id && e.subject == result.head
  }

  /** Distinct ids, every item for this RUN and this head. */
  ghost predicate EvidenceBound(run: RunSpec, result: ResultDoc, items: seq<Evidence>) {
    && (forall i :: 0 <= i < |items| ==> BoundItem(run, result, items[i]))
    && forall i, j :: 0 <= i < j < |items| ==> items[i].id != items[j].id
  }

  /** Claims speak only of known acceptance criteria and of evidence in the package. */
  predicate ClosedClaim(task: TaskSpec, items: seq<Evidence>, c: Claim) {
    && (forall a :: a in c.satisfies ==> a in task.acceptance)
    && (forall x :: x in c.evidence ==> x in Ids(items))
  }

  ghost predicate Structural(task: TaskSpec, run: RunSpec, result: ResultDoc, items: seq<Evidence>) {
    && References(task, run, result) && EvidenceBound(run, result, items)
    && forall i :: 0 <= i < |result.claims| ==> ClosedClaim(task, items, result.claims[i])
  }

  function Passes(p: Policy, task: TaskSpec, e: Evidence): bool {
    if !task.v2 then e.exit == 0
    else if e.record.None? then
      var measures := p.measures(e.command);
      e.exit == 0 && (measures.None? || measures.value)
    else p.attributed(e.record.value, e.subject, e.command, e.exit)
  }

  predicate SupportedClaim(c: Claim) {
    c.satisfies != [] && c.evidence != []
  }

  predicate AttributedTo(task: TaskSpec, run: RunSpec, e: Evidence) {
    task.v2 && e.record.Some? ==> e.record.value.base == Some(run.base)
  }

  predicate Blocking(p: Policy, task: TaskSpec, e: Evidence) {
    task.v2 && e.kind == "VERIFICATION" && !Passes(p, task, e)
  }

  predicate Covered(p: Policy, task: TaskSpec, items: seq<Evidence>, command: string) {
    exists e :: e in items && e.command == command && Passes(p, task, e)
  }

  /** What the canonical stage adds. */
  ghost predicate Proven(p: Policy, task: TaskSpec, run: RunSpec, result: ResultDoc, items: seq<Evidence>) {
    && (forall i :: 0 <= i < |result.claims| ==> SupportedClaim(result.claims[i]))
    && (forall e :: e in items ==> AttributedTo(task, run, e) && !Blocking(p, task, e))
    && forall command :: command in task.required ==> Covered(p, task, items, command)
  }

  ghost predicate Canonical(p: Policy, task: TaskSpec, run: RunSpec, result: ResultDoc, items: seq<Evidence>) {
    Structural(task, run, result, items) && Proven(p, task, run, result, items)
  }

  // ----- The validators -----

  /** The loop both validators run over the evidence; the canonical one also compares V2 bases. */
  method IndexEvidence(task: TaskSpec, run: RunSpec, result: ResultDoc, items: seq<Evidence>, bases: bool)
    returns (ok: bool, byId: map<string, Evidence>)
    ensures ok <==> EvidenceBound(run, result, items) &&
                    (bases ==> forall i :: 0 <= i < |items| ==> AttributedTo(task, run, items[i]))
    ensures ok ==> byId.Keys == Ids(items) && forall e :: e in items ==> byId[e.id] == e
  {
    byId := map[];
    var i := 0;
    while i < |items|
      invariant 0 <= i <= |items|
      invariant forall k :: 0 <= k < i ==>
                  BoundItem(run, result, items[k]) && (bases ==> AttributedTo(task, run, items[k]))
      invariant forall k, j :: 0 <= k < j < i ==> items[k].id != items[j].id
      invariant forall k :: 0 <= k < i ==> items[k].id in byId && byId[items[k].id] == items[k]
      invariant forall x :: x in byId ==> exists k :: 0 <= k < i && items[k].id == x
    {
      var item := items[i];
      if item.id in byId {
        return false, byId;
      }
      byId := byId[item.id := item];
      if !BoundItem(run, result, item) {
        return false, byId;
      }
      if bases && !AttributedTo(task, run, item) {
        return false, byId;
      }
      i := i + 1;
    }
    ok := true;
    forall x
      ensures x in byId.Keys <==> x in Ids(items)
    {
      if x in byId {
        var k :| 0 <= k < |items| && items[k].id == x;
        assert items[k] in items;
      }
    }
  }

  method CheckClaims(task: TaskSpec, result: ResultDoc, ghost items: seq<Evidence>, byId: map<string, Evidence>, backed: bool)
    returns (ok: bool)
    requires byId.Keys == Ids(items)
    ensures ok <==> forall i :: 0 <= i < |result.claims| ==>
              ClosedClaim(task, items, result.claims[i]) && (backed ==> SupportedClaim(result.claims[i]))
  {
    var i := 0;
    while i < |result.claims|
      invariant 0 <= i <= |result.claims|
      invariant forall k :: 0 <= k < i ==>
                  ClosedClaim(task, items, result.claims[k]) && (backed ==> SupportedClaim(result.claims[k]))
    {
      var c := result.claims[i];
      if backed && (c.satisfies == [] || c.evidence == []) {
        return false;
      }
      var unknown := (set a | a in c.satisfies) - (set a | a in task.acceptance);
      if unknown != {} {
        var a :| a in unknown;
        assert a in c.satisfies && a !in task.acceptance;
        return false;
      }
      var missing := (set x | x in c.evidence) - byId.Keys;
      if missing != {} {
        var x :| x in missing;
        assert x in c.evidence && x !in Ids(items);
        return false;
      }
      assert forall a :: a in c.satisfies ==> a !in unknown;
      assert forall x :: x in c.evidence ==> x !in missing;
      i := i + 1;
    }
    ok := true;
  }

  method ValidateStructuralPackage(task: TaskSpec, run: RunSpec, result: ResultDoc, items: seq<Evidence>)
    returns (r: Result<Package>)
    ensures r == if Structural(task, run, result, items) then Accepted(Package(result, items)) else Rejected
  {
    if !References(task, run, result) {
      return Rejected;
    }
    var bound, byId := IndexEvidence(task, run, result, items, false);
    if !bound {
      return Rejected;
    }
    var closed := CheckClaims(task, result, items, byId, false);
    r := if closed then Accepted(Package(result, items)) else Rejected;
  }

  /** Each required command has evidence, and some of it passes; a V2 verification may not fail at all. */
  method CheckRequirements(p: Policy, task: TaskSpec, items: seq<Evidence>) returns (ok: bool)
    ensures ok <==> (forall command :: command in task.required ==> Covered(p, task, items, command)) &&
                    forall e :: e in items ==> !Blocking(p, task, e)
  {
    var i := 0;
    while i < |task.required|
      invariant 0 <= i <= |task.required|
      invariant forall k :: 0 <= k < i ==> Covered(p, task, items, task.required[k])
    {
      var passing := false;
      var k := 0;
      while k < |items| && !passing
        invariant 0 <= k <= |items|
        invariant passing <==> exists j :: 0 <= j < k && items[j].command == task.required[i] && Passes(p, task, items[j])
      {
        passing := items[k].command == task.required[i] && Passes(p, task, items[k]);
        k := k + 1;
      }
      if !passing {
        assert task.required[i] in task.required && !Covered(p, task, items, task.required[i]);
        return false;
      }
      i := i + 1;
    }
    var k := 0;
    while k < |items|
      invariant 0 <= k <= |items|
      invariant forall j :: 0 <= j < k ==> !Blocking(p, task, items[j])
    {
      if Blocking(p, task, items[k]) {
        return false;
      }
      k := k + 1;
    }
    ok := true;
  }

  method ValidateResultPackage(p: Policy, task: TaskSpec, run: RunSpec, result: ResultDoc, items: seq<Evidence>)
    returns (r: Result<Package>)
    ensures r == if Canonical(p, task, run, result, items) then Accepted(Package(result, items)) else Rejected
  {
    if !References(task, run, result) {
      return Rejected;
    }
    var bound, byId := IndexEvidence(task, run, result, items, true);
    if !bound {
      return Rejected;
    }
    var closed := CheckClaims(task, result, items, byId, true);
    if !closed {
      return Rejected;
    }
    var proven := CheckRequirements(p, task, items);
    r := if proven then Accepted(Package(result, items)) else Rejected;
  }

  // ----- Closure and order -----

  /** In a structural package every reference of a claim names exactly one item, of this RUN and this head. */
  lemma ReferencesResolve(task: TaskSpec, run: RunSpec, result: ResultDoc, items: seq<Evidence>, c: Claim, x: string)
    requires Structural(task, run, result, items) && c in result.claims && x in c.evidence
    ensures exists e :: e in items && e.id == x && BoundItem(run, result, e)
    ensures forall e, f :: e in items && f in items && e.id == x && f.id == x ==> e == f
  {
    var i :| 0 <= i < |result.claims| && result.claims[i] == c;
    assert ClosedClaim(task, items, result.claims[i]);
    assert x in Ids(items);
  }

  lemma PermutedBound(run: RunSpec, result: ResultDoc, a: seq<Evidence>, b: seq<Evidence>)
    requires multiset(a) == multiset(b) && EvidenceBound(run, result, a)
    ensures EvidenceBound(run, result, b)
  {
    forall i | 0 <= i < |b|
      ensures b[i] in a
    {
      assert b[i] in multiset(a);
    }
    forall i, j | 0 <= i < j < |b|
      ensures b[i].id != b[j].id
    {
      if b[i].id == b[j].id {
        TwiceInPermutation(a, b, i, j);
      }
    }
  }

  /** Two items with one id would stand twice in every order. */
  lemma TwiceInPermutation(a: seq<Evidence>, b: seq<Evidence>, i: nat, j: nat)
    requires multiset(a) == multiset(b) && i < j < |b| && b[i].id == b[j].id
    ensures exists m, n :: 0 <= m < n < |a| && a[m].id == a[n].id
  {
    assert b[i] in multiset(a) && b[j] in multiset(a);
    if b[i] == b[j] {
      CountTwice(b, i, j);
      OccursTwice(a, b[i]);
    } else {
      var m :| 0 <= m < |a| && a[m] == b[i];
      var n :| 0 <= n < |a| && a[n] == b[j];
      assert m != n;
    }
  }

  lemma CountTwice(s: seq<Evidence>, i: nat, j: nat)
    requires i < j < |s| && s[i] == s[j]
    ensures multiset(s)[s[i]] >= 2
  {
    assert s == s[..i] + [s[i]] + s[i + 1..j] + [s[j]] + s[j + 1..];
  }

  lemma {:induction false} OccursTwice(s: seq<Evidence>, e: Evidence)
    requires multiset(s)[e] >= 2
    ensures exists m, n :: 0 <= m < n < |s| && s[m] == e && s[n] == e
  {
    var k := |s| - 1;
    assert s == s[..k] + [s[k]];
    if s[k] == e {
      assert e in s[..k];
      var m :| 0 <= m < k && s[..k][m] == e;
      assert s[m] == e && s[k] == e;
    } else {
      OccursTwice(s[..k], e);
      var m, n :| 0 <= m < n < k && s[..k][m] == e && s[..k][n] == e;
      assert s[m] == e && s[n] == e;
    }
  }

  lemma PermutedCanonical(p: Policy, task: TaskSpec, run: RunSpec, result: ResultDoc, a: seq<Evidence>, b: seq<Evidence>)
    requires multiset(a) == multiset(b)
    ensures Structural(task, run, result, a) ==> Structural(task, run, result, b)
    ensures Canonical(p, task, run, result, a) ==> Canonical(p, task, run, result, b)
  {
    forall e
      ensures e in a <==> e in b
    {
      assert e in a <==> e in multiset(a);
      assert e in b <==> e in multiset(b);
    }
    assert Ids(a) == Ids(b);
    if Structural(task, run, result, a) {
      PermutedBound(run, result, a, b);
      forall i | 0 <= i < |result.claims|
        ensures ClosedClaim(task, b, result.claims[i])
      {
        assert ClosedClaim(task, a, result.claims[i]);
      }
    }
    if Canonical(p, task, run, result, a) {
      forall command | command in task.required
        ensures Covered(p, task, b, command)
      {
        var e :| e in a && e.command == command && Passes(p, task, e);
        assert e in b;
      }
    }
  }

  /** Acceptance at either stage does not depend on the order of the evidence. */
  lemma AcceptanceIgnoresOrder(
    p: Policy, task: TaskSpec, run: RunSpec, result: ResultDoc, a: seq<Evidence>, b: seq<Evidence>)
    requires multiset(a) == multiset(b)
    ensures Structural(task, run, result, a) <==> Structural(task, run, result, b)
    ensures Canonical(p, task, run, result, a) <==> Canonical(p, task, run, result, b)
  {
    PermutedCanonical(p, task, run, result, a, b);
    PermutedCanonical(p, task, run, result, b, a);
  }

  /** More evidence keeps a canonical package canonical exactly when the new item fits in by itself. */
  lemma MoreEvidence(p: Policy, task: TaskSpec, run: RunSpec, result: ResultDoc, items: seq<Evidence>, e: Evidence)
    requires Canonical(p, task, run, result, items)
    ensures Canonical(p, task, run, result, items + [e]) <==>
              && BoundItem(run, result, e) && e.id !in Ids(items)
              && AttributedTo(task, run, e) && !Blocking(p, task, e)
  {
    var more := items + [e];
    assert more[|items|] == e;
    assert Ids(more) == Ids(items) + {e.id};
    forall i | 0 <= i < |result.claims|
      ensures ClosedClaim(task, more, result.claims[i])
    {
      assert ClosedClaim(task, items, result.claims[i]);
    }
    forall command | command in task.required
      ensures Covered(p, task, more, command)
    {
      var x :| x in items && x.command == command && Passes(p, task, x);
      assert x in more;
    }
    if e.id in Ids(items) {
      var x :| x in items && x.id == e.id;
      var k :| 0 <= k < |items| && items[k] == x;
      assert more[k].id == more[|items|].id;
    }
    if EvidenceBound(run, result, more) {
      assert BoundItem(run, result, more[|items|]);
    }
    assert e in more;
    forall i | 0 <= i < |items|
      ensures more[i] == items[i] && items[i].id in Ids(items)
    {
    }
  }

  /** A canonical package under the second policy holds no failing verification and covers every requirement. */
  lemma CanonicalIsStructural(
    p: Policy, task: TaskSpec, run: RunSpec, result: ResultDoc, items: seq<Evidence>, command: string)
    requires Canonical(p, task, run, result, items) && command in task.required
    ensures Structural(task, run, result, items)
    ensures exists e :: e in items && e.command == command && Passes(p, task, e) && BoundItem(run, result, e) &&
              (task.v2 && e.record.Some? ==> e.record.value.base == Some(run.base))
  {
    assert Covered(p, task, items, command);
    var e :| e in items && e.command == command && Passes(p, task, e);
    assert AttributedTo(task, run, e);
  }

  // ----- The two stages, condition by condition -----

  /** A structural package, exactly. */
  lemma StructuralExactly(task: TaskSpec, run: RunSpec, result: ResultDoc, items: seq<Evidence>)
    ensures Structural(task, run, result, items) <==>
              && run.task == task.id && run.revision == task.revision && run.head in {None, Some(result.head)}
              && (forall e :: e in items ==> e.run == run.id && e.subject == result.head)
              && (forall i, j :: 0 <= i < j < |items| ==> items[i].id != items[j].id)
              && (forall c :: c in result.claims ==>
                    && (forall a :: a in c.satisfies ==> a in task.acceptance)
                    && (forall x :: x in c.evidence ==> exists e :: e in items && e.id == x))
  {
    assert forall e :: e in items ==> exists i :: 0 <= i < |items| && items[i] == e;
    forall c | c in result.claims
      ensures ClosedClaim(task, items, c) <==>
                && (forall a :: a in c.satisfies ==> a in task.acceptance)
                && (forall x :: x in c.evidence ==> exists e :: e in items && e.id == x)
    {
    }
    assert forall c :: c in result.claims ==> exists i :: 0 <= i < |result.claims| && result.claims[i] == c;
  }

  /** A required command is met: by exit code 0 and no test command that measures nothing, or by the record's attribution. */
  ghost predicate Met(p: Policy, task: TaskSpec, items: seq<Evidence>, command: string) {
    exists e :: e in items && e.command == command &&
      if task.v2 && e.record.Some? then p.attributed(e.record.value, e.subject, e.command, e.exit)
      else e.exit == 0 && (task.v2 ==> p.measures(e.command) != Some(false))
  }

  /**
   What the canonical stage demands of a structural package, exactly: supported claims;
   for each required command an item that succeeded, by exit code 0 under the legacy
   policy, and under the second by exit code 0 of a command that is no test command or one
   that measures, or, with a record, by attribution; and under the second policy bases of
   this RUN and success of every verification.
   */
  lemma CanonicalExactly(p: Policy, task: TaskSpec, run: RunSpec, result: ResultDoc, items: seq<Evidence>)
    requires Structural(task, run, result, items)
    ensures Canonical(p, task, run, result, items) <==>
              && (forall c :: c in result.claims ==> c.satisfies != [] && c.evidence != [])
              && (forall command :: command in task.required ==> Met(p, task, items, command))
              && (task.v2 ==> forall e :: e in items ==>
                    if e.record.Some? then
                      && e.record.value.base == Some(run.base)
                      && (e.kind == "VERIFICATION" ==> p.attributed(e.record.value, e.subject, e.command, e.exit))
                    else
                      e.kind == "VERIFICATION" ==> e.exit == 0 && p.measures(e.command) != Some(false))
  {
    assert forall c :: c in result.claims ==> exists i :: 0 <= i < |result.claims| && result.claims[i] == c;
    forall command
      ensures Covered(p, task, items, command) <==> Met(p, task, items, command)
    {
    }
  }
}
