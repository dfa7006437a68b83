/**
 The authenticator handed to an audit: one selection may be admitted and then
 continued, each time against a fresh read of the canonical source.  Nothing locks a
 call: its tests, its read of the source, the question to the Human and the recording
 of an admission are separate moments, between which other calls may act, from other
 threads or from the Human who is being asked.
 */
module AuditAdmission {
  import opened Prelude

  type Digest = nat

  /** What the authenticator was made for; `human` means a Human choice is bound in. */
  datatype Terms = Terms(selection: Digest, source: Digest, version: nat, human: bool)

  datatype Call = Call(selection: Digest, phase: string)

  /** What the Human answers, or that asking raised. */
  datatype Reply = Approves | Declines | Raises

  datatype Outcome = Yes | No | Raised

  predicate Eligible(t: Terms, admitted: bool, c: Call) {
    && c.phase in {"ADMIT", "CONTINUE"}
    && c.selection == t.selection
    && (c.phase == "CONTINUE" ==> admitted)
    && (t.version == 2 && c.phase == "ADMIT" ==> !admitted)
  }

  function OutcomeOf(r: Reply): Outcome {
    match r case Approves => Yes case Declines => No case Raises => Raised
  }

  // ----- Runs -----

  /**
   A call arrives and is tested; the call that arrived at step `asked` reads the source,
   `None` being a failed read; that call ends, with the Human's reply if one is bound in.
   */
  datatype Step = Arrives(call: Call) | Reads(asked: nat, source: Option<Digest>) | Ends(asked: nat, reply: Reply)

  /** A call that passed the tests; `read` means that it found the source unmoved. */
  datatype Pending = Pending(call: Call, read: bool)

  /** Pending calls are known by the step at which they arrived. */
  datatype State = State(admitted: bool, pending: map<nat, Pending>)

  predicate AwaitsEnd(s: State, k: nat) {
    k in s.pending && s.pending[k].read
  }

  predicate AwaitsRead(s: State, k: nat) {
    k in s.pending && !s.pending[k].read
  }

  /** The outcome a step gives, and the call it gives it to. */
  function Gives(t: Terms, s: State, step: Step): Option<(Call, Outcome)> {
    match step
    case Arrives(c) => if Eligible(t, s.admitted, c) then None else Some((c, No))
    case Reads(k, source) =>
      if !AwaitsRead(s, k) || source == Some(t.source) then None
      else Some((s.pending[k].call, if source.None? then Raised else No))
    case Ends(k, reply) =>
      if AwaitsEnd(s, k) then Some((s.pending[k].call, if t.human then OutcomeOf(reply) else Yes)) else None
  }

  function After(t: Terms, s: State, n: nat, step: Step): State {
    var given := Gives(t, s, step);
    match step
    case Arrives(c) => if given.None? then s.(pending := s.pending[n := Pending(c, false)]) else s
    case Reads(k, _) =>
      if given.Some? then s.(pending := s.pending - {k})
      else if AwaitsRead(s, k) then s.(pending := s.pending[k := s.pending[k].(read := true)])
      else s
    case Ends(k, _) =>
      if given.None? then s
      else State(s.admitted || (given.value.1 == Yes && given.value.0.phase == "ADMIT"), s.pending - {k})
  }

  function StateAt(t: Terms, steps: seq<Step>, n: nat): State
    requires n <= |steps|
  {
    if n == 0 then State(false, map[]) else After(t, StateAt(t, steps, n - 1), n - 1, steps[n - 1])
  }

  /** Step `i` accepts a call of this phase. */
  predicate Accepts(t: Terms, steps: seq<Step>, i: nat, phase: string)
    requires i < |steps|
  {
    var given := Gives(t, StateAt(t, steps, i), steps[i]);
    given.Some? && given.value.1 == Yes && given.value.0.phase == phase
  }

  /** When the call that step `i` is about arrived. */
  function ArrivedAt(steps: seq<Step>, i: nat): nat
    requires i < |steps|
  {
    if steps[i].Arrives? then i else steps[i].asked
  }

  lemma {:induction false} AdmittedMeans(t: Terms, steps: seq<Step>, n: nat)
    requires n <= |steps|
    ensures StateAt(t, steps, n).admitted <==> exists i :: 0 <= i < n && Accepts(t, steps, i, "ADMIT")
  {
    if n > 0 {
      AdmittedMeans(t, steps, n - 1);
      if StateAt(t, steps, n - 1).admitted {
        var i :| 0 <= i < n - 1 && Accepts(t, steps, i, "ADMIT");
        assert 0 <= i < n;
      } else if StateAt(t, steps, n).admitted {
        assert Accepts(t, steps, n - 1, "ADMIT");
      }
    }
  }

  /** A pending call arrived earlier and passed the tests then. */
  lemma {:induction false} PendingWasTested(t: Terms, steps: seq<Step>, n: nat, k: nat)
    requires n <= |steps| && k in StateAt(t, steps, n).pending
    ensures k < n && steps[k] == Arrives(StateAt(t, steps, n).pending[k].call)
    ensures Eligible(t, StateAt(t, steps, k).admitted, StateAt(t, steps, n).pending[k].call)
  {
    if k in StateAt(t, steps, n - 1).pending {
      PendingWasTested(t, steps, n - 1, k);
    }
  }

  /** A call that awaits its end found the source unmoved in between. */
  lemma {:induction false} ReadWasUnmoved(t: Terms, steps: seq<Step>, n: nat, k: nat) returns (r: nat)
    requires n <= |steps| && AwaitsEnd(StateAt(t, steps, n), k)
    ensures k < r < n && steps[r] == Reads(k, Some(t.source))
  {
    if AwaitsEnd(StateAt(t, steps, n - 1), k) {
      r := ReadWasUnmoved(t, steps, n - 1, k);
    } else {
      PendingWasTested(t, steps, n - 1, k);
      r := n - 1;
    }
  }

  /** What is known of an accepted call. */
  lemma AcceptedWasTested(t: Terms, steps: seq<Step>, i: nat, phase: string)
    requires i < |steps| && Accepts(t, steps, i, phase)
    ensures var k := ArrivedAt(steps, i);
            && k < i && steps[i].Ends? && (t.human ==> steps[i].reply == Approves)
            && k in StateAt(t, steps, i).pending && StateAt(t, steps, i).pending[k].call.phase == phase
            && steps[k] == Arrives(Call(t.selection, phase)) && Eligible(t, StateAt(t, steps, k).admitted, steps[k].call)
  {
    PendingWasTested(t, steps, i, steps[i].asked);
  }

  /** Every accepted CONTINUE arrived after an accepted ADMIT, however calls nest and overlap. */
  lemma ContinueFollowsAdmit(t: Terms, steps: seq<Step>, i: nat)
    requires i < |steps| && Accepts(t, steps, i, "CONTINUE")
    ensures exists k :: 0 <= k < ArrivedAt(steps, i) < i && Accepts(t, steps, k, "ADMIT")
  {
    AcceptedWasTested(t, steps, i, "CONTINUE");
    AdmittedMeans(t, steps, ArrivedAt(steps, i));
  }

  /** However calls interleave, an accepted one saw the bound selection, an unmoved source and the Human's approval. */
  lemma AcceptedMeansUnmoved(t: Terms, steps: seq<Step>, i: nat, phase: string)
    requires i < |steps| && Accepts(t, steps, i, phase)
    ensures phase in {"ADMIT", "CONTINUE"}
    ensures var k := ArrivedAt(steps, i);
            && k < i && steps[k] == Arrives(Call(t.selection, phase)) && (t.human ==> steps[i] == Ends(k, Approves))
            && exists r :: k < r < i && steps[r] == Reads(k, Some(t.source))
  {
    AcceptedWasTested(t, steps, i, phase);
    var r := ReadWasUnmoved(t, steps, i, steps[i].asked);
  }

  // ----- At most one ADMIT -----

  ghost predicate AdmittedAtMostOnce(t: Terms, steps: seq<Step>) {
    forall i, k :: 0 <= i < k < |steps| ==> !(Accepts(t, steps, i, "ADMIT") && Accepts(t, steps, k, "ADMIT"))
  }

  /** An ADMIT that passed the tests is pending at step `i`, which is not its own, and is accepted at step `k`. */
  predicate PendingUntil(t: Terms, steps: seq<Step>, i: nat, k: nat)
    requires i < k < |steps|
  {
    && Accepts(t, steps, k, "ADMIT")
    && ArrivedAt(steps, k) in StateAt(t, steps, i).pending && ArrivedAt(steps, k) != ArrivedAt(steps, i)
  }

  /** An ADMIT is accepted while another that passed the tests is pending and later accepted. */
  ghost predicate AdmitsInBetween(t: Terms, steps: seq<Step>) {
    exists i, k :: 0 <= i < k < |steps| && Accepts(t, steps, i, "ADMIT") && PendingUntil(t, steps, i, k)
  }

  /** A call that is pending later was pending ever since it arrived. */
  lemma {:induction false} PendingStays(t: Terms, steps: seq<Step>, i: nat, k: nat, asked: nat)
    requires asked < i <= k <= |steps| && asked in StateAt(t, steps, k).pending
    ensures asked in StateAt(t, steps, i).pending
    ensures StateAt(t, steps, i).pending[asked].call == StateAt(t, steps, k).pending[asked].call
    decreases k
  {
    if i < k {
      PendingStays(t, steps, i, k - 1, asked);
    }
  }

  /** Of two accepted ADMITs the second was already pending when the first was accepted. */
  lemma SecondWasPending(t: Terms, steps: seq<Step>, i: nat, k: nat)
    requires t.version == 2 && i < k < |steps|
    requires Accepts(t, steps, i, "ADMIT") && Accepts(t, steps, k, "ADMIT")
    ensures ArrivedAt(steps, k) < i && PendingUntil(t, steps, i, k)
  {
    AcceptedWasTested(t, steps, i, "ADMIT");
    AcceptedWasTested(t, steps, k, "ADMIT");
    var asked := ArrivedAt(steps, k);
    AdmittedMeans(t, steps, asked);
    assert asked <= i;
    assert steps[asked].Arrives?;
    PendingStays(t, steps, i, k, asked);
    PendingStays(t, steps, i + 1, k, asked);
  }

  /**
   Under the second policy version at most one ADMIT is accepted if and only if none is
   accepted while another that passed the tests is pending and later accepted.
   */
  lemma AdmittedOnce(t: Terms, steps: seq<Step>)
    requires t.version == 2
    ensures AdmittedAtMostOnce(t, steps) <==> !AdmitsInBetween(t, steps)
  {
    forall i, k | 0 <= i < k < |steps| && Accepts(t, steps, i, "ADMIT") && Accepts(t, steps, k, "ADMIT")
      ensures AdmitsInBetween(t, steps)
    {
      SecondWasPending(t, steps, i, k);
    }
  }

  predicate AdmitPasses(t: Terms, steps: seq<Step>, n: nat)
    requires n < |steps|
  {
    steps[n].Arrives? && steps[n].call.phase == "ADMIT" && Eligible(t, StateAt(t, steps, n).admitted, steps[n].call)
  }

  predicate AdmitIsPending(s: State) {
    exists k :: k in s.pending && s.pending[k].call.phase == "ADMIT"
  }

  /** No ADMIT passes the tests while another is pending. */
  ghost predicate AdmitsApart(t: Terms, steps: seq<Step>) {
    forall n :: 0 <= n < |steps| && AdmitPasses(t, steps, n) ==> !AdmitIsPending(StateAt(t, steps, n))
  }

  /** Where ADMITs are kept apart at most one is accepted, with or without a Human. */
  lemma AdmittedOnceApart(t: Terms, steps: seq<Step>)
    requires t.version == 2 && AdmitsApart(t, steps)
    ensures AdmittedAtMostOnce(t, steps)
  {
    forall i, k | 0 <= i < k < |steps| && Accepts(t, steps, i, "ADMIT") && Accepts(t, steps, k, "ADMIT")
      ensures false
    {
      SecondWasPending(t, steps, i, k);
      AcceptedWasTested(t, steps, i, "ADMIT");
      AcceptedWasTested(t, steps, k, "ADMIT");
      var one, other := ArrivedAt(steps, i), ArrivedAt(steps, k);
      assert AdmitPasses(t, steps, one) && AdmitPasses(t, steps, other);
      if one < other {
        PendingStays(t, steps, other, i, one);
      } else {
        PendingStays(t, steps, one, k, other);
      }
    }
  }

  // ----- Both ways in which two are accepted -----

  /** Two calls overlap: both pass the tests before either is recorded.  No Human is needed, and none prevents it. */
  lemma OverlappingAdmitsAreAccepted(t: Terms)
    requires t.version == 2
    ensures var admit := Arrives(Call(t.selection, "ADMIT"));
            var steps := [admit, admit, Reads(0, Some(t.source)), Ends(0, Approves), Reads(1, Some(t.source)), Ends(1, Approves)];
            Accepts(t, steps, 3, "ADMIT") && Accepts(t, steps, 5, "ADMIT")
  {
    var c := Call(t.selection, "ADMIT");
    var steps := [Arrives(c), Arrives(c), Reads(0, Some(t.source)), Ends(0, Approves), Reads(1, Some(t.source)), Ends(1, Approves)];
    assert StateAt(t, steps, 1) == State(false, map[0 := Pending(c, false)]);
    assert StateAt(t, steps, 2) == State(false, map[0 := Pending(c, false), 1 := Pending(c, false)]);
    assert StateAt(t, steps, 3) == State(false, map[0 := Pending(c, true), 1 := Pending(c, false)]);
    assert StateAt(t, steps, 4) == State(true, map[1 := Pending(c, false)]);
    assert StateAt(t, steps, 5) == State(true, map[1 := Pending(c, true)]);
  }

  /** On one thread: a Human who admits while being asked to admit, and then approves. */
  lemma NestedAdmitIsAccepted(t: Terms)
    requires t.version == 2 && t.human
    ensures var admit := Arrives(Call(t.selection, "ADMIT"));
            var steps := [admit, Reads(0, Some(t.source)), admit, Reads(2, Some(t.source)), Ends(2, Approves), Ends(0, Approves)];
            Accepts(t, steps, 4, "ADMIT") && Accepts(t, steps, 5, "ADMIT")
  {
    var c := Call(t.selection, "ADMIT");
    var steps := [Arrives(c), Reads(0, Some(t.source)), Arrives(c), Reads(2, Some(t.source)), Ends(2, Approves), Ends(0, Approves)];
    assert StateAt(t, steps, 1) == State(false, map[0 := Pending(c, false)]);
    assert StateAt(t, steps, 2) == State(false, map[0 := Pending(c, true)]);
    assert StateAt(t, steps, 3) == State(false, map[0 := Pending(c, true), 2 := Pending(c, false)]);
    assert StateAt(t, steps, 4) == State(false, map[0 := Pending(c, true), 2 := Pending(c, true)]);
    assert StateAt(t, steps, 5) == State(true, map[0 := Pending(c, true)]);
  }

  // ----- Acceptance, exactly -----

  /** The call that arrived at step `k` passes the tests: its selection, and its phase against what was accepted before. */
  ghost predicate PassesTests(t: Terms, steps: seq<Step>, k: nat, phase: string)
    requires k < |steps|
  {
    && steps[k] == Arrives(Call(t.selection, phase))
    && (if phase == "ADMIT" then t.version == 2 ==> !AdmittedBefore(t, steps, k)
        else phase == "CONTINUE" && AdmittedBefore(t, steps, k))
  }

  ghost predicate AdmittedBefore(t: Terms, steps: seq<Step>, k: nat)
    requires k <= |steps|
  {
    exists i :: 0 <= i < k && Accepts(t, steps, i, "ADMIT")
  }

  /** No read for call `k` between these steps. */
  predicate NoRead(steps: seq<Step>, k: nat, since: nat, until: nat)
    requires until <= |steps|
  {
    forall n :: since <= n < until ==> !(steps[n].Reads? && steps[n].asked == k)
  }

  predicate NoEnd(steps: seq<Step>, k: nat, since: nat, until: nat)
    requires until <= |steps|
  {
    forall n :: since <= n < until ==> !(steps[n].Ends? && steps[n].asked == k)
  }

  /** Call `k` made its only first read at step `r` and found the source unmoved, and has not ended. */
  ghost predicate ReadOnce(t: Terms, steps: seq<Step>, k: nat, r: nat, n: nat)
    requires n <= |steps|
  {
    k < r < n && steps[r] == Reads(k, Some(t.source)) && NoRead(steps, k, k, r) && NoEnd(steps, k, r, n)
  }

  lemma {:induction false} UnreadExactly(t: Terms, steps: seq<Step>, n: nat, k: nat, phase: string)
    requires k < n <= |steps| && steps[k] == Arrives(Call(t.selection, phase))
    ensures AwaitsRead(StateAt(t, steps, n), k) <==> PassesTests(t, steps, k, phase) && NoRead(steps, k, k, n)
    ensures k in StateAt(t, steps, n).pending ==> StateAt(t, steps, n).pending[k].call == Call(t.selection, phase)
    decreases n
  {
    if n == k + 1 {
      FreshKey(t, steps, k);
      AdmittedMeans(t, steps, k);
    } else {
      UnreadExactly(t, steps, n - 1, k, phase);
    }
  }

  lemma {:induction false} ReadExactly(t: Terms, steps: seq<Step>, n: nat, k: nat, phase: string)
    requires k < n <= |steps| && steps[k] == Arrives(Call(t.selection, phase))
    ensures AwaitsEnd(StateAt(t, steps, n), k) <==>
              PassesTests(t, steps, k, phase) && exists r: nat :: ReadOnce(t, steps, k, r, n)
    decreases n
  {
    var m := n - 1;
    if n == k + 1 {
      FreshKey(t, steps, k);
    } else {
      UnreadExactly(t, steps, m, k, phase);
      ReadExactly(t, steps, m, k, phase);
      if steps[m] == Reads(k, Some(t.source)) && AwaitsRead(StateAt(t, steps, m), k) {
        assert ReadOnce(t, steps, k, m, n);
      }
      if r: nat :| ReadOnce(t, steps, k, r, m) {
        assert !(steps[m].Ends? && steps[m].asked == k) ==> ReadOnce(t, steps, k, r, n);
      }
      if r: nat :| ReadOnce(t, steps, k, r, n) {
        assert r < m ==> ReadOnce(t, steps, k, r, m);
      }
    }
  }

  /**
   A step accepts a call exactly if it is the first end, after the first read, of a call
   that passed the tests, the read found the source unmoved, and a bound Human approved.
   */
  lemma AcceptsExactly(t: Terms, steps: seq<Step>, i: nat, phase: string)
    requires i < |steps|
    ensures Accepts(t, steps, i, phase) <==>
              && steps[i].Ends? && (t.human ==> steps[i].reply == Approves) && steps[i].asked < i
              && PassesTests(t, steps, steps[i].asked, phase)
              && exists r: nat :: ReadOnce(t, steps, steps[i].asked, r, i)
  {
    if steps[i].Ends? && steps[i].asked < i && steps[steps[i].asked] == Arrives(Call(t.selection, phase)) {
      ReadExactly(t, steps, i, steps[i].asked, phase);
      UnreadExactly(t, steps, i, steps[i].asked, phase);
    }
    if Accepts(t, steps, i, phase) {
      AcceptedWasTested(t, steps, i, phase);
    }
  }

  // ----- The authenticator on one thread -----

  /** A call as it is made: what the source reads then, and the calls the Human makes while being asked. */
  datatype Visit = Visit(call: Call, source: Option<Digest>, during: seq<Visit>, reply: Reply)

  class Authenticator {
    const terms: Terms
    var admitted: Option<Digest>
    ghost var steps: seq<Step>

    ghost predicate Valid()
      reads this
    {
      && (admitted == None || admitted == Some(terms.selection))
      && admitted.Some? == Now().admitted
    }

    ghost function Now(): State
      reads this
    {
      StateAt(terms, steps, |steps|)
    }

    constructor (t: Terms)
      ensures terms == t && admitted == None && steps == [] && Valid()
    {
      terms, admitted, steps := t, None, [];
    }

    /** Record one step of the run. */
    ghost method Take(step: Step)
      modifies this`steps
      ensures steps == old(steps) + [step]
      ensures Now() == After(terms, old(Now()), |old(steps)|, step)
      ensures Gives(terms, StateAt(terms, steps, |old(steps)|), step) == Gives(terms, old(Now()), step)
    {
      PrefixState(terms, steps, steps + [step], |steps|);
      steps := steps + [step];
    }

    /** The first line of a call: its own tests. */
    method Test(c: Call) returns (ok: bool)
      requires Valid()
      ensures ok <==> Eligible(terms, Now().admitted, c)
    {
      ok := c.phase in {"ADMIT", "CONTINUE"} && c.selection == terms.selection
        && !(c.phase == "CONTINUE" && admitted != Some(terms.selection))
        && !(terms.version == 2 && c.phase == "ADMIT" && admitted.Some?);
    }

    /**
     One call, with whatever is called while the Human is being asked.  Its outcome is the
     one its last step gives, the steps of the calls inside lie in between, and nothing is
     left pending.  Without a Human no other call arrives inside it.
     */
    method Authenticate(v: Visit) returns (r: Outcome)
      requires Valid()
      modifies this
      ensures Valid() && old(steps) + [Arrives(v.call)] <= steps
      ensures Gives(terms, StateAt(terms, steps, |steps| - 1), steps[|steps| - 1]) == Some((v.call, r))
      ensures ArrivedAt(steps, |steps| - 1) == |old(steps)|
      ensures Now().pending == old(Now()).pending
      ensures !terms.human ==> forall n :: |old(steps)| < n < |steps| ==> !steps[n].Arrives?
      decreases v, 3
    {
      ghost var k := |steps|;
      FreshKey(terms, steps, k);
      var ok := Test(v.call);
      Take(Arrives(v.call));
      if !ok {
        return No;
      }
      r := Proceed(v, k);
    }

    /** After the tests: the fresh read of the source, and what follows it. */
    method Proceed(v: Visit, ghost k: nat) returns (r: Outcome)
      requires Valid() && AwaitsRead(Now(), k) && Now().pending[k].call == v.call && v.call.selection == terms.selection
      modifies this
      ensures Valid() && old(steps) < steps && !steps[|steps| - 1].Arrives? && steps[|steps| - 1].asked == k
      ensures Gives(terms, StateAt(terms, steps, |steps| - 1), steps[|steps| - 1]) == Some((v.call, r))
      ensures Now().pending == old(Now()).pending - {k}
      ensures !terms.human ==> forall n :: |old(steps)| <= n < |steps| ==> !steps[n].Arrives?
      decreases v, 2
    {
      Take(Reads(k, v.source));
      if v.source.None? {
        return Raised;
      }
      if v.source.value != terms.source {
        return No;
      }
      r := Settle(v, k);
    }

    /** After the read: the Human, if one is bound in, and the recording of an admission. */
    method Settle(v: Visit, ghost k: nat) returns (r: Outcome)
      requires Valid() && AwaitsEnd(Now(), k) && Now().pending[k].call == v.call && v.call.selection == terms.selection
      modifies this
      ensures Valid() && old(steps) < steps && steps[|steps| - 1] == Ends(k, v.reply)
      ensures Gives(terms, StateAt(terms, steps, |steps| - 1), steps[|steps| - 1]) == Some((v.call, r))
      ensures Now().pending == old(Now()).pending - {k}
      ensures !terms.human ==> steps == old(steps) + [Ends(k, v.reply)]
      decreases v, 1
    {
      r := Yes;
      if terms.human {
        Visits(v);
        r := OutcomeOf(v.reply);
      }
      Take(Ends(k, v.reply));
      if r == Yes && v.call.phase == "ADMIT" {
        admitted := Some(v.call.selection);
      }
    }

    /** What the Human calls while being asked. */
    method Visits(v: Visit)
      requires Valid()
      modifies this
      ensures Valid() && old(steps) <= steps && Now().pending == old(Now()).pending
      decreases v, 0
    {
      for i := 0 to |v.during|
        invariant Valid() && old(steps) <= steps && Now().pending == old(Now()).pending
      {
        var _ := Authenticate(v.during[i]);
      }
    }

    /** One thread without a Human: call after call, at most one ADMIT is accepted. */
    method Serve(visits: seq<Visit>)
      requires Valid() && steps == [] && !terms.human && terms.version == 2
      modifies this
      ensures Valid() && AdmittedAtMostOnce(terms, steps)
    {
      for i := 0 to |visits|
        invariant Valid() && Now().pending == map[] && ArrivesAlone(terms, steps)
      {
        ghost var before := steps;
        var _ := Authenticate(visits[i]);
        ArrivesAloneGrows(terms, before, steps);
      }
      AdmittedOnceApart(terms, steps);
    }
  }

  /** Whenever a call arrives nothing is pending. */
  ghost predicate ArrivesAlone(t: Terms, steps: seq<Step>) {
    forall n :: 0 <= n < |steps| && steps[n].Arrives? ==> StateAt(t, steps, n).pending == map[]
  }

  lemma ArrivesAloneGrows(t: Terms, steps: seq<Step>, longer: seq<Step>)
    requires steps < longer && ArrivesAlone(t, steps) && StateAt(t, steps, |steps|).pending == map[]
    requires forall n :: |steps| < n < |longer| ==> !longer[n].Arrives?
    ensures ArrivesAlone(t, longer)
  {
    forall n | 0 <= n < |longer| && longer[n].Arrives?
      ensures StateAt(t, longer, n).pending == map[]
    {
      PrefixState(t, steps, longer, n);
    }
  }

  lemma {:induction false} PrefixState(t: Terms, steps: seq<Step>, longer: seq<Step>, n: nat)
    requires steps <= longer && n <= |steps|
    ensures StateAt(t, longer, n) == StateAt(t, steps, n)
  {
    if n > 0 {
      PrefixState(t, steps, longer, n - 1);
    }
  }

  /** A step cannot be pending before it is taken. */
  lemma FreshKey(t: Terms, steps: seq<Step>, n: nat)
    requires n <= |steps|
    ensures n !in StateAt(t, steps, n).pending
  {
    if n in StateAt(t, steps, n).pending {
      PendingWasTested(t, steps, n, n);
    }
  }
}
