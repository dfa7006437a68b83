/**
 The executor boundary: one live invocation frame, and a feedback seam that the
 running adapter may enter from any thread, nest, or leave by an exception.  Each
 action is one piece of a call that no other thread can split; `Failing` is the state
 of a feedback whose exception is on its way to the handler that stops the frame.
 */
module ExecutorBoundary {
  import opened Prelude

  type Thread = nat
  type Lease = nat

  datatype Frame = Frame(thread: Thread, lease: Lease, executing: bool, consuming: bool, stopped: bool)

  /** How far a feedback has come: its own tests, the lease, the body, the closing check, the way out. */
  datatype Stage = Captured | Screened | Checked | Held | Body | Rechecked | Cleared | Failing

  datatype Activity = Invoking(invoked: nat) | Feedback(frame: Option<nat>, stage: Stage)

  /** Frames ever made, the live one, the leases not yet released, and what each thread is doing, innermost last. */
  datatype World = World(frames: seq<Frame>, live: Option<nat>, leases: set<Lease>, stacks: seq<seq<Activity>>)

  datatype Action =
    | Invoke(t: Thread, lease: Lease)
    | Execute(t: Thread)
    | Leave(t: Thread)
    | Enter(t: Thread)
    | Test(t: Thread)
    | Check(t: Thread, same: bool)
    | Hold(t: Thread)
    | Consume(t: Thread)
    | Recheck(t: Thread, same: bool)
    | BodyRaises(t: Thread)
    | Clear(t: Thread)
    | LetGo(t: Thread)
    | Fail(t: Thread)
    | Release(lease: Lease)

  // ----- Steps -----

  function Depth(w: World, t: Thread): nat {
    if t < |w.stacks| then |w.stacks[t]| else 0
  }

  predicate OnTop(w: World, t: Thread, a: Activity) {
    Depth(w, t) > 0 && w.stacks[t][Depth(w, t) - 1] == a
  }

  predicate AtStage(w: World, t: Thread, stage: Stage) {
    Depth(w, t) > 0 && var a := w.stacks[t][Depth(w, t) - 1]; a.Feedback? && a.stage == stage
  }

  /** Code that the boundary does not control is running on the thread. */
  predicate Foreign(a: Activity) {
    a.Invoking? || a.stage == Body
  }

  predicate CanCall(w: World, t: Thread) {
    t < |w.stacks| && (Depth(w, t) > 0 ==> Foreign(w.stacks[t][Depth(w, t) - 1]))
  }

  function Push(w: World, t: Thread, a: Activity): World
    requires t < |w.stacks|
  {
    w.(stacks := w.stacks[t := w.stacks[t] + [a]])
  }

  function Pop(w: World, t: Thread): World
    requires Depth(w, t) > 0
  {
    w.(stacks := w.stacks[t := w.stacks[t][..Depth(w, t) - 1]])
  }

  function Turn(w: World, t: Thread, stage: Stage): World
    requires Depth(w, t) > 0
  {
    var a := w.stacks[t][Depth(w, t) - 1];
    w.(stacks := w.stacks[t := w.stacks[t][Depth(w, t) - 1 := if a.Feedback? then Feedback(a.frame, stage) else a]])
  }

  function TopFrame(w: World, t: Thread): Option<nat>
    requires Depth(w, t) > 0
  {
    var a := w.stacks[t][Depth(w, t) - 1];
    if a.Feedback? && a.frame.Some? && a.frame.value < |w.frames| then a.frame else None
  }

  function Stop(w: World, f: Option<nat>): World {
    if f.Some? && f.value < |w.frames| then w.(frames := w.frames[f.value := w.frames[f.value].(stopped := true)]) else w
  }

  function SetConsuming(w: World, f: Option<nat>, b: bool): World {
    if f.Some? && f.value < |w.frames| then w.(frames := w.frames[f.value := w.frames[f.value].(consuming := b)]) else w
  }

  /** Everything the seam compares, `same` being the comparisons of the arguments with the frame. */
  predicate Established(w: World, t: Thread, f: Option<nat>, same: bool) {
    && f.Some? && f.value < |w.frames| && w.live == f && same
    && var x := w.frames[f.value];
    !x.stopped && x.executing && x.thread == t && x.lease in w.leases
  }

  predicate Enabled(w: World, a: Action) {
    match a
    case Invoke(t, _) => CanCall(w, t)
    case Execute(t) => Depth(w, t) > 0 && var x := w.stacks[t][Depth(w, t) - 1];
      x.Invoking? && x.invoked < |w.frames| && !w.frames[x.invoked].executing
    case Leave(t) => Depth(w, t) > 0 && w.stacks[t][Depth(w, t) - 1].Invoking? &&
      w.stacks[t][Depth(w, t) - 1].invoked < |w.frames|
    case Enter(t) => CanCall(w, t)
    case Test(t) => AtStage(w, t, Captured)
    case Check(t, _) => AtStage(w, t, Screened)
    case Hold(t) => AtStage(w, t, Checked)
    case Consume(t) => AtStage(w, t, Held)
    case Recheck(t, _) => AtStage(w, t, Body)
    case BodyRaises(t) => AtStage(w, t, Body)
    case Clear(t) => AtStage(w, t, Rechecked)
    case LetGo(t) => AtStage(w, t, Cleared)
    case Fail(t) => AtStage(w, t, Failing)
    case Release(_) => true
  }

  function After(w: World, a: Action): World
    requires Enabled(w, a)
  {
    match a
    case Invoke(t, lease) =>
      if w.live.Some? then Stop(w, w.live)
      else
        var frame := Frame(t, lease, false, false, false);
        Push(w.(frames := w.frames + [frame], live := Some(|w.frames|)), t, Invoking(|w.frames|))
    case Execute(t) =>
      var f := w.stacks[t][Depth(w, t) - 1].invoked;
      w.(frames := w.frames[f := w.frames[f].(executing := true)])
    case Leave(t) =>
      var f := w.stacks[t][Depth(w, t) - 1].invoked;
      Pop(w.(frames := w.frames[f := w.frames[f].(stopped := true, executing := false)], live := None), t)
    case Enter(t) => Push(w, t, Feedback(w.live, Captured))
    case Test(t) =>
      var f := TopFrame(w, t);
      Turn(w, t, if f.Some? && w.frames[f.value].consuming then Failing else Screened)
    case Check(t, same) => Turn(w, t, if Established(w, t, TopFrame(w, t), same) then Checked else Failing)
    case Hold(t) =>
      var f := TopFrame(w, t);
      Turn(w, t, if f.Some? && w.frames[f.value].lease in w.leases then Held else Failing)
    case Consume(t) => Turn(SetConsuming(w, TopFrame(w, t), true), t, Body)
    case Recheck(t, same) =>
      if Established(w, t, TopFrame(w, t), same) then Turn(w, t, Rechecked)
      else Turn(SetConsuming(w, TopFrame(w, t), false), t, Failing)
    case BodyRaises(t) => Turn(SetConsuming(w, TopFrame(w, t), false), t, Failing)
    case Clear(t) => Turn(SetConsuming(w, TopFrame(w, t), false), t, Cleared)
    case LetGo(t) =>
      var f := TopFrame(w, t);
      if f.Some? && w.frames[f.value].lease in w.leases then Pop(w, t) else Turn(w, t, Failing)
    case Fail(t) => Pop(Stop(w, TopFrame(w, t)), t)
    case Release(lease) => w.(leases := w.leases - {lease})
  }

  // ----- The invariant -----

  /** Past its opening check and not failing. */
  predicate Active(a: Activity) {
    a.Feedback? && a.stage in {Checked, Held, Body, Rechecked, Cleared}
  }

  /** Between the two settings of the consuming flag. */
  predicate Consuming(a: Activity) {
    a.Feedback? && a.stage in {Body, Rechecked}
  }

  /** Past the reentry test and not failing. */
  predicate Admitted(a: Activity) {
    a.Feedback? && a.stage !in {Captured, Failing}
  }

  ghost predicate GoodAt(w: World, t: Thread, p: nat)
    requires t < |w.stacks| && p < |w.stacks[t]|
  {
    var s, a := w.stacks[t], w.stacks[t][p];
    && (p < |s| - 1 ==> Foreign(a))
    && (a.Invoking? ==> OwnsLive(w, t, a.invoked) && forall q :: 0 <= q < p ==> s[q] != a)
    && (a.Feedback? && a.frame.Some? ==> a.frame.value < |w.frames|)
    && (Active(a) ==> a.frame.Some? && OwnsLive(w, t, a.frame.value) && w.frames[a.frame.value].executing &&
                      Invoking(a.frame.value) in s[..p])
    && (Consuming(a) && a.frame.Some? ==> w.frames[a.frame.value].consuming)
    && (Admitted(a) ==> forall q :: 0 <= q < p && Consuming(s[q]) ==> s[q].frame != a.frame)
  }

  ghost predicate OwnsLive(w: World, t: Thread, f: nat) {
    f < |w.frames| && w.live == Some(f) && w.frames[f].thread == t
  }

  ghost predicate LiveIsRunning(w: World, f: nat) {
    f < |w.frames| && w.frames[f].thread < |w.stacks| && Invoking(f) in w.stacks[w.frames[f].thread]
  }

  ghost predicate Inv(w: World) {
    && (w.live.Some? ==> LiveIsRunning(w, w.live.value))
    && (forall t, p :: 0 <= t < |w.stacks| && 0 <= p < |w.stacks[t]| ==> GoodAt(w, t, p))
    && (forall f :: 0 <= f < |w.frames| && w.frames[f].executing ==> w.live == Some(f))
  }

  ghost predicate Initial(w: World) {
    w.frames == [] && w.live == None && forall t :: 0 <= t < |w.stacks| ==> w.stacks[t] == []
  }

  lemma InitialHolds(w: World)
    requires Initial(w)
    ensures Inv(w)
  {
  }

  lemma ConsumersBelow(w: World, t: Thread, n: nat)
    requires Inv(w) && t < |w.stacks| && n < |w.stacks[t]|
    ensures forall q :: 0 <= q < n && Consuming(w.stacks[t][q]) ==>
              && w.stacks[t][q].frame.Some? && w.stacks[t][q].frame.value < |w.frames|
              && w.frames[w.stacks[t][q].frame.value].consuming
  {
    forall q | 0 <= q < n && Consuming(w.stacks[t][q])
      ensures w.stacks[t][q].frame.Some? && w.stacks[t][q].frame.value < |w.frames|
      ensures w.frames[w.stacks[t][q].frame.value].consuming
    {
      assert GoodAt(w, t, q);
    }
  }

  /** Feedback bodies never overlap, on any threads. */
  lemma BodiesNeverOverlap(w: World, t: Thread, p: nat, u: Thread, q: nat)
    requires Inv(w) && t < |w.stacks| && p < |w.stacks[t]| && u < |w.stacks| && q < |w.stacks[u]|
    requires Consuming(w.stacks[t][p]) && Consuming(w.stacks[u][q])
    ensures t == u && p == q
  {
    assert GoodAt(w, t, p) && GoodAt(w, u, q);
  }

  /** Steps of the seam: one thread's top moves on, and at most flags of its frame change. */
  predicate IsSeam(a: Action) {
    a.Test? || a.Check? || a.Hold? || a.Consume? || a.Recheck? || a.BodyRaises? || a.Clear?
  }

  /** The activity whose top moves is not an invocation unless that invocation ends. */
  lemma LiveKeepsRunning(w: World, a: Action)
    requires Inv(w) && Enabled(w, a) && (IsSeam(a) || a.LetGo? || a.Fail? || a.Leave?)
    ensures After(w, a).live.Some? ==> LiveIsRunning(After(w, a), After(w, a).live.value)
  {
    var v := After(w, a);
    if v.live.Some? {
      var u := w.frames[v.live.value].thread;
      var q :| 0 <= q < |w.stacks[u]| && w.stacks[u][q] == Invoking(v.live.value);
      assert v.stacks[u][q] == Invoking(v.live.value);
    }
  }

  lemma TestTop(w: World, a: Action)
    requires Inv(w) && Enabled(w, a) && (a.Test? || a.Check? || a.Hold?)
    ensures GoodAt(After(w, a), a.t, Depth(w, a.t) - 1)
  {
    var v, t := After(w, a), a.t;
    var n := |w.stacks[t]| - 1;
    assert GoodAt(w, t, n);
    assert v.stacks[t][..n] == w.stacks[t][..n];
    ConsumersBelow(w, t, n);
  }

  lemma FlagTop(w: World, a: Action)
    requires Inv(w) && Enabled(w, a) && (a.Consume? || a.Recheck? || a.BodyRaises? || a.Clear?)
    ensures GoodAt(After(w, a), a.t, Depth(w, a.t) - 1)
  {
    var v, t := After(w, a), a.t;
    var n := |w.stacks[t]| - 1;
    assert GoodAt(w, t, n);
    assert v.stacks[t][..n] == w.stacks[t][..n];
  }

  lemma TestOthers(w: World, a: Action, u: Thread, p: nat)
    requires Inv(w) && Enabled(w, a) && (a.Test? || a.Check? || a.Hold?)
    requires u < |w.stacks| && p < |w.stacks[u]| && (u != a.t || p < Depth(w, a.t) - 1)
    ensures GoodAt(After(w, a), u, p)
  {
    assert GoodAt(w, u, p);
    assert After(w, a).stacks[u][..p] == w.stacks[u][..p];
  }

  lemma ConsumeOthers(w: World, a: Action, u: Thread, p: nat)
    requires Inv(w) && Enabled(w, a) && a.Consume?
    requires u < |w.stacks| && p < |w.stacks[u]| && (u != a.t || p < Depth(w, a.t) - 1)
    ensures GoodAt(After(w, a), u, p)
  {
    assert GoodAt(w, u, p);
    assert After(w, a).stacks[u][..p] == w.stacks[u][..p];
  }

  /** Nothing but one consuming flag and the top of one stack changes. */
  lemma FlagFrame(w: World, a: Action)
    requires Enabled(w, a) && (a.Recheck? || a.BodyRaises? || a.Clear?)
    ensures var v := After(w, a);
            && v.live == w.live && |v.frames| == |w.frames|
            && forall f :: 0 <= f < |w.frames| ==>
                 v.frames[f].thread == w.frames[f].thread && v.frames[f].executing == w.frames[f].executing
  {
  }

  lemma GoodStays(w: World, v: World, u: Thread, p: nat)
    requires u < |w.stacks| && p < |w.stacks[u]| && GoodAt(w, u, p) && !Consuming(w.stacks[u][p])
    requires u < |v.stacks| && |v.stacks[u]| == |w.stacks[u]|
    requires v.stacks[u][p] == w.stacks[u][p] && v.stacks[u][..p] == w.stacks[u][..p]
    requires v.live == w.live && |v.frames| == |w.frames|
    requires forall f :: 0 <= f < |w.frames| ==>
               v.frames[f].thread == w.frames[f].thread && v.frames[f].executing == w.frames[f].executing
    ensures GoodAt(v, u, p)
  {
    assert forall q :: 0 <= q < p ==> v.stacks[u][..p][q] == w.stacks[u][..p][q];
  }

  lemma FlagOthers(w: World, a: Action, u: Thread, p: nat)
    requires Inv(w) && Enabled(w, a) && (a.Recheck? || a.BodyRaises? || a.Clear?)
    requires u < |w.stacks| && p < |w.stacks[u]| && (u != a.t || p < Depth(w, a.t) - 1)
    ensures GoodAt(After(w, a), u, p)
  {
    if Consuming(w.stacks[u][p]) {
      BodiesNeverOverlap(w, u, p, a.t, Depth(w, a.t) - 1);
    } else {
      FlagFrame(w, a);
      assert GoodAt(w, u, p);
      GoodStays(w, After(w, a), u, p);
    }
  }

  lemma SeamKeeps(w: World, a: Action)
    requires Inv(w) && Enabled(w, a) && IsSeam(a)
    ensures Inv(After(w, a))
  {
    var v, t := After(w, a), a.t;
    LiveKeepsRunning(w, a);
    forall u, p | 0 <= u < |v.stacks| && 0 <= p < |v.stacks[u]|
      ensures GoodAt(v, u, p)
    {
      var top := u == t && p == Depth(w, t) - 1;
      if a.Test? || a.Check? || a.Hold? {
        if top { TestTop(w, a); } else { TestOthers(w, a, u, p); }
      } else {
        if top { FlagTop(w, a); } else if a.Consume? { ConsumeOthers(w, a, u, p); } else { FlagOthers(w, a, u, p); }
      }
    }
  }

  lemma LetGoAt(w: World, a: Action, u: Thread, p: nat)
    requires Inv(w) && Enabled(w, a) && a.LetGo?
    requires u < |After(w, a).stacks| && p < |After(w, a).stacks[u]|
    ensures GoodAt(After(w, a), u, p)
  {
    assert GoodAt(w, u, p);
    assert After(w, a).stacks[u][..p] == w.stacks[u][..p];
  }

  lemma FailAt(w: World, a: Action, u: Thread, p: nat)
    requires Inv(w) && Enabled(w, a) && a.Fail?
    requires u < |After(w, a).stacks| && p < |After(w, a).stacks[u]|
    ensures GoodAt(After(w, a), u, p)
  {
    assert GoodAt(w, u, p);
    assert After(w, a).stacks[u][..p] == w.stacks[u][..p];
  }

  lemma LeaveAt(w: World, a: Action, u: Thread, p: nat)
    requires Inv(w) && Enabled(w, a) && a.Leave?
    requires u < |After(w, a).stacks| && p < |After(w, a).stacks[u]|
    ensures GoodAt(After(w, a), u, p)
  {
    assert GoodAt(w, a.t, |w.stacks[a.t]| - 1);
    assert GoodAt(w, u, p);
    assert After(w, a).stacks[u][..p] == w.stacks[u][..p];
  }

  lemma EndKeeps(w: World, a: Action)
    requires Inv(w) && Enabled(w, a) && (a.LetGo? || a.Fail? || a.Leave?)
    ensures Inv(After(w, a))
  {
    LiveKeepsRunning(w, a);
    assert GoodAt(w, a.t, |w.stacks[a.t]| - 1);
    forall u, p | 0 <= u < |After(w, a).stacks| && 0 <= p < |After(w, a).stacks[u]|
      ensures GoodAt(After(w, a), u, p)
    {
      if a.Leave? {
        LeaveAt(w, a, u, p);
      } else if a.LetGo? {
        LetGoAt(w, a, u, p);
      } else {
        FailAt(w, a, u, p);
      }
    }
  }

  lemma CallAt(w: World, a: Action, u: Thread, p: nat)
    requires Inv(w) && Enabled(w, a) && (a.Invoke? || a.Enter? || a.Execute? || a.Release?)
    requires u < |w.stacks| && p < |w.stacks[u]|
    ensures GoodAt(After(w, a), u, p)
  {
    assert GoodAt(w, u, p);
    assert After(w, a).stacks[u][..p] == w.stacks[u][..p];
  }

  lemma NewAt(w: World, a: Action, p: nat)
    requires Inv(w) && Enabled(w, a) && (a.Invoke? || a.Enter?)
    requires Depth(w, a.t) == p < |After(w, a).stacks[a.t]|
    ensures GoodAt(After(w, a), a.t, p)
  {
    forall q | 0 <= q < p && w.stacks[a.t][q].Invoking?
      ensures w.stacks[a.t][q].invoked < |w.frames|
    {
      assert GoodAt(w, a.t, q);
    }
  }

  lemma CallKeeps(w: World, a: Action)
    requires Inv(w) && Enabled(w, a) && (a.Invoke? || a.Enter? || a.Execute? || a.Release?)
    ensures Inv(After(w, a))
  {
    var v := After(w, a);
    if a.Execute? {
      assert GoodAt(w, a.t, |w.stacks[a.t]| - 1);
    }
    forall u, p | 0 <= u < |v.stacks| && 0 <= p < |v.stacks[u]|
      ensures GoodAt(v, u, p)
    {
      if p < |w.stacks[u]| {
        CallAt(w, a, u, p);
      } else {
        NewAt(w, a, p);
      }
    }
  }

  lemma StepKeeps(w: World, a: Action)
    requires Inv(w) && Enabled(w, a)
    ensures Inv(After(w, a))
  {
    if IsSeam(a) {
      SeamKeeps(w, a);
    } else if a.LetGo? || a.Fail? || a.Leave? {
      EndKeeps(w, a);
    } else {
      CallKeeps(w, a);
    }
  }

  // ----- What holds in every reachable state -----

  /** At most one invocation is under way, on one thread, whatever frames were made before. */
  lemma OneLiveFrame(w: World, t: Thread, p: nat, u: Thread, q: nat)
    requires Inv(w) && t < |w.stacks| && p < |w.stacks[t]| && u < |w.stacks| && q < |w.stacks[u]|
    requires w.stacks[t][p].Invoking? && w.stacks[u][q].Invoking?
    ensures t == u && p == q && w.live == Some(w.stacks[t][p].invoked)
  {
    assert GoodAt(w, t, p) && GoodAt(w, u, q);
  }

  /** The opening and the closing check pass only in a frame that runs, unstopped, on this thread, with its lease. */
  ghost predicate Passes(w: World, a: Action, f: nat) {
    && Enabled(w, a) && TopFrameOf(w, a) == Some(f)
    && (match a
        case Check(t, same) => Established(w, t, Some(f), same)
        case Recheck(t, same) => Established(w, t, Some(f), same)
        case _ => false)
  }

  /** The two checks, condition by condition; a failing one sends the feedback to its handler. */
  lemma ChecksExactly(w: World, t: Thread, same: bool, f: nat)
    requires Depth(w, t) > 0 && TopFrame(w, t) == Some(f)
    requires AtStage(w, t, Screened) || AtStage(w, t, Body)
    ensures var a := if AtStage(w, t, Screened) then Check(t, same) else Recheck(t, same);
            var passed := w.live == Some(f) && w.frames[f].executing && !w.frames[f].stopped &&
                          w.frames[f].thread == t && w.frames[f].lease in w.leases && same;
            && (Passes(w, a, f) <==> passed)
            && AtStage(After(w, a), t, if !passed then Failing else if a.Check? then Checked else Rechecked)
  {
  }

  function TopFrameOf(w: World, a: Action): Option<nat> {
    if a.Release? || Depth(w, a.t) == 0 then None else TopFrame(w, a.t)
  }

  /** A feedback entered while a body of the same frame runs is refused. */
  lemma NestedIsRefused(w: World, t: Thread, u: Thread, p: nat)
    requires Inv(w) && Enabled(w, Test(t)) && TopFrame(w, t).Some?
    requires u < |w.stacks| && p < |w.stacks[u]| && Consuming(w.stacks[u][p]) && w.stacks[u][p].frame == TopFrame(w, t)
    ensures AtStage(After(w, Test(t)), t, Failing)
  {
    assert GoodAt(w, u, p);
  }

  // ----- Stopping is final -----

  predicate Stopped(w: World, f: nat) {
    f < |w.frames| && w.frames[f].stopped
  }

  lemma StoppedAbsorbs(w: World, a: Action, f: nat)
    requires Enabled(w, a) && Stopped(w, f)
    ensures Stopped(After(w, a), f) && !Passes(w, a, f)
  {
  }

  /** Whoever fails in the seam, and whoever invokes again, stops the frame. */
  lemma FailureStops(w: World, t: Thread)
    requires Enabled(w, Fail(t)) && TopFrame(w, t).Some?
    ensures Stopped(After(w, Fail(t)), TopFrame(w, t).value)
  {
  }

  lemma ReentryStops(w: World, t: Thread, lease: Lease)
    requires Inv(w) && Enabled(w, Invoke(t, lease)) && w.live.Some?
    ensures Stopped(After(w, Invoke(t, lease)), w.live.value) && After(w, Invoke(t, lease)).live == w.live
  {
  }

  /** A feedback of a stopped frame that has not passed its closing check. */
  ghost predicate Doomed(w: World, t: Thread, p: nat, f: nat) {
    && Stopped(w, f) && t < |w.stacks| && p < |w.stacks[t]|
    && w.stacks[t][p].Feedback? && w.stacks[t][p].frame == Some(f) && w.stacks[t][p].stage !in {Rechecked, Cleared}
  }

  /** It stays so until it ends, and it ends by raising. */
  lemma DoomedStaysDoomed(w: World, a: Action, t: Thread, p: nat, f: nat)
    requires Enabled(w, a) && Doomed(w, t, p, f)
    ensures Doomed(After(w, a), t, p, f) || (a == Fail(t) && p == Depth(w, t) - 1)
  {
  }

  /** A feedback that fails on the invoking thread dooms every feedback around it. */
  lemma EnclosingIsDoomed(w: World, t: Thread, p: nat)
    requires Inv(w) && Enabled(w, Fail(t)) && TopFrame(w, t).Some? && p < Depth(w, t) - 1
    requires w.stacks[t][p].Feedback? && w.stacks[t][p].frame == TopFrame(w, t)
    ensures Doomed(After(w, Fail(t)), t, p, TopFrame(w, t).value)
  {
    assert GoodAt(w, t, p);
  }

  // ----- Runs -----

  ghost predicate Admits(w: World, run: seq<Action>)
    decreases |run|
  {
    run == [] || (Enabled(w, run[0]) && Admits(After(w, run[0]), run[1..]))
  }

  ghost function StateAt(w: World, run: seq<Action>, k: nat): World
    requires Admits(w, run) && k <= |run|
    decreases |run|
  {
    if k == 0 then w else StateAt(After(w, run[0]), run[1..], k - 1)
  }

  lemma {:induction false} RunKeeps(w: World, run: seq<Action>, k: nat)
    requires Inv(w) && Admits(w, run) && k <= |run|
    ensures Inv(StateAt(w, run, k))
    decreases |run|
  {
    if k > 0 {
      StepKeeps(w, run[0]);
      RunKeeps(After(w, run[0]), run[1..], k - 1);
    }
  }

  /** Once a frame is stopped it stays stopped, and no check of it passes for the rest of any run. */
  lemma {:induction false} StoppedNeverPasses(w: World, run: seq<Action>, k: nat, f: nat)
    requires Admits(w, run) && k < |run| && Stopped(w, f)
    ensures Stopped(StateAt(w, run, k), f) && !Passes(StateAt(w, run, k), run[k], f)
    decreases |run|
  {
    StoppedAbsorbs(w, run[0], f);
    if k > 0 {
      StoppedNeverPasses(After(w, run[0]), run[1..], k - 1, f);
    }
  }

  /** Over any run a doomed feedback is still doomed, or it has ended by raising. */
  lemma {:induction false} DoomedNeverSucceeds(w: World, run: seq<Action>, t: Thread, p: nat, f: nat)
    requires Admits(w, run) && Doomed(w, t, p, f)
    ensures Doomed(StateAt(w, run, |run|), t, p, f) ||
            exists k :: 0 <= k < |run| && EndsByRaising(w, run, k, t, p, f)
    decreases |run|
  {
    if run != [] {
      DoomedStaysDoomed(w, run[0], t, p, f);
      if Doomed(After(w, run[0]), t, p, f) {
        DoomedNeverSucceeds(After(w, run[0]), run[1..], t, p, f);
        if k :| 0 <= k < |run[1..]| && EndsByRaising(After(w, run[0]), run[1..], k, t, p, f) {
          assert EndsByRaising(w, run, k + 1, t, p, f);
        }
      } else {
        assert EndsByRaising(w, run, 0, t, p, f);
      }
    }
  }

  ghost predicate EndsByRaising(w: World, run: seq<Action>, k: nat, t: Thread, p: nat, f: nat)
    requires Admits(w, run) && k < |run|
  {
    run[k] == Fail(t) && Doomed(StateAt(w, run, k), t, p, f) && p == Depth(StateAt(w, run, k), t) - 1
  }

  // ----- The lease -----

  /** A released lease is gone for good, and with it every check, hold and success of its frames. */
  lemma {:induction false} ReleasedStaysReleased(w: World, run: seq<Action>, k: nat, lease: Lease)
    requires Admits(w, run) && k <= |run| && lease !in w.leases
    ensures lease !in StateAt(w, run, k).leases
    decreases |run|
  {
    if k > 0 {
      ReleasedStaysReleased(After(w, run[0]), run[1..], k - 1, lease);
    }
  }

  /** A feedback that returns normally still finds its lease held, so it was held all along. */
  lemma SuccessMeansHeld(w: World, run: seq<Action>, t: Thread, lease: Lease)
    requires Admits(w, run) && Enabled(StateAt(w, run, |run|), LetGo(t))
    requires TopFrame(StateAt(w, run, |run|), t).Some?
    requires StateAt(w, run, |run|).frames[TopFrame(StateAt(w, run, |run|), t).value].lease == lease
    requires Depth(After(StateAt(w, run, |run|), LetGo(t)), t) < Depth(StateAt(w, run, |run|), t)
    ensures forall k :: 0 <= k <= |run| ==> lease in StateAt(w, run, k).leases
  {
    forall k | 0 <= k <= |run|
      ensures lease in StateAt(w, run, k).leases
    {
      if lease !in StateAt(w, run, k).leases {
        StateSplits(w, run, k);
        ReleasedStaysReleased(StateAt(w, run, k), run[k..], |run| - k, lease);
      }
    }
  }

  lemma {:induction false} StateSplits(w: World, run: seq<Action>, k: nat)
    requires Admits(w, run) && k <= |run|
    ensures Admits(StateAt(w, run, k), run[k..])
    ensures StateAt(StateAt(w, run, k), run[k..], |run| - k) == StateAt(w, run, |run|)
    decreases |run|
  {
    if k > 0 {
      StateSplits(After(w, run[0]), run[1..], k - 1);
      assert run[1..][k - 1..] == run[k..];
    } else {
      assert run[0..] == run;
    }
  }

  lemma {:induction false} StateNext(w: World, run: seq<Action>, k: nat)
    requires Admits(w, run) && k < |run|
    ensures Enabled(StateAt(w, run, k), run[k])
    ensures StateAt(w, run, k + 1) == After(StateAt(w, run, k), run[k])
    decreases |run|
  {
    if k > 0 {
      StateNext(After(w, run[0]), run[1..], k - 1);
    }
  }

  // ----- From the opening check to the body -----

  /** The innermost call of the thread is a feedback of the frame between its opening check and its body. */
  predicate Waiting(w: World, t: Thread, f: nat) {
    OnTop(w, t, Feedback(Some(f), Checked)) || OnTop(w, t, Feedback(Some(f), Held))
  }

  /** What stops this frame: an invocation by any thread, or a failing feedback of the frame. */
  predicate Stops(w: World, a: Action, f: nat) {
    a.Invoke? || (a.Fail? && TopFrameOf(w, a) == Some(f))
  }

  ghost predicate StopsBetween(w: World, run: seq<Action>, since: nat, until: nat, f: nat)
    requires Admits(w, run) && since <= until <= |run|
  {
    exists k :: since <= k < until && Stops(StateAt(w, run, k), run[k], f)
  }

  predicate ReleasedBetween(run: seq<Action>, since: nat, until: nat, lease: Lease)
    requires since <= until <= |run|
  {
    exists k :: since <= k < until && run[k] == Release(lease)
  }

  lemma WaitingStep(w: World, a: Action, t: Thread, f: nat)
    requires Inv(w) && Enabled(w, a) && Waiting(w, t, f) && Waiting(After(w, a), t, f)
    ensures Stopped(After(w, a), f) <==> Stopped(w, f) || Stops(w, a, f)
  {
    assert a.Leave? ==> GoodAt(w, a.t, Depth(w, a.t) - 1);
    assert GoodAt(w, t, Depth(w, t) - 1);
  }

  /** While a thread waits there, its frame is stopped exactly by an invocation or a failing feedback. */
  lemma {:induction false} StoppedWhileWaiting(w: World, run: seq<Action>, t: Thread, f: nat, since: nat, until: nat)
    requires Inv(w) && Admits(w, run) && since <= until <= |run|
    requires forall k :: since <= k <= until ==> Waiting(StateAt(w, run, k), t, f)
    ensures Stopped(StateAt(w, run, until), f) <==>
              Stopped(StateAt(w, run, since), f) || StopsBetween(w, run, since, until, f)
    decreases until
  {
    if since < until {
      var last := until - 1;
      StoppedWhileWaiting(w, run, t, f, since, last);
      RunKeeps(w, run, last);
      StateNext(w, run, last);
      WaitingStep(StateAt(w, run, last), run[last], t, f);
      if StopsBetween(w, run, since, until, f) && !Stops(StateAt(w, run, last), run[last], f) {
        var k :| since <= k < until && Stops(StateAt(w, run, k), run[k], f);
        assert k < last;
      }
      if StopsBetween(w, run, since, last, f) {
        var k :| since <= k < last && Stops(StateAt(w, run, k), run[k], f);
        assert since <= k < until;
      }
    }
  }

  /** In any run a lease is held exactly if it was held before and was not released since. */
  lemma {:induction false} LeaseHeldExactly(w: World, run: seq<Action>, since: nat, until: nat, lease: Lease)
    requires Admits(w, run) && since <= until <= |run|
    ensures lease in StateAt(w, run, until).leases <==>
              lease in StateAt(w, run, since).leases && !ReleasedBetween(run, since, until, lease)
    decreases until
  {
    if since < until {
      var last := until - 1;
      LeaseHeldExactly(w, run, since, last, lease);
      StateNext(w, run, last);
      assert ReleasedBetween(run, since, until, lease) <==> ReleasedBetween(run, since, last, lease) || run[last] == Release(lease);
    }
  }

  lemma OthersLeaveStack(w: World, a: Action, t: Thread)
    requires Enabled(w, a) && (a.Release? || a.t != t)
    ensures Depth(After(w, a), t) == Depth(w, t) && (t < |w.stacks| ==> After(w, a).stacks[t] == w.stacks[t])
  {
  }

  /** What is below the innermost call is foreign code, so ending a call leaves nobody waiting. */
  lemma EndLeavesForeign(w: World, a: Action, f: nat)
    requires Inv(w) && Enabled(w, a) && (a.Leave? || a.LetGo? || a.Fail?)
    ensures !Waiting(After(w, a), a.t, f)
  {
    var n := Depth(w, a.t);
    if n > 1 {
      assert GoodAt(w, a.t, n - 2);
    }
  }

  /** A thread comes to wait only by its own opening check, and to hold only by its own hold. */
  lemma WaitingBefore(w: World, a: Action, t: Thread, f: nat)
    requires Inv(w) && Enabled(w, a) && Waiting(After(w, a), t, f)
    ensures Waiting(w, t, f) || (a.Check? && a.t == t && Passes(w, a, f))
    ensures OnTop(After(w, a), t, Feedback(Some(f), Held)) ==>
              OnTop(w, t, Feedback(Some(f), Held)) ||
              (a == Hold(t) && OnTop(w, t, Feedback(Some(f), Checked)) && f < |w.frames| && w.frames[f].lease in w.leases)
  {
    if a.Release? || a.t != t {
      OthersLeaveStack(w, a, t);
    } else if a.Leave? || a.LetGo? || a.Fail? {
      EndLeavesForeign(w, a, f);
    } else if a.Check? || a.Hold? {
      assert GoodAt(w, t, Depth(w, t) - 1);
    }
  }

  /** The feedback passed its opening check at `checked` and took hold of the lease at `held`, and waits since. */
  ghost predicate Opened(w: World, run: seq<Action>, t: Thread, f: nat, checked: nat, held: nat)
    requires Admits(w, run)
  {
    && checked < held < |run| && run[checked].Check? && Passes(StateAt(w, run, checked), run[checked], f)
    && run[checked].t == t && run[held] == Hold(t)
    && (forall k :: checked < k <= |run| ==> Waiting(StateAt(w, run, k), t, f))
    && (forall k :: held < k <= |run| ==> OnTop(StateAt(w, run, k), t, Feedback(Some(f), Held)))
    && f < |StateAt(w, run, held).frames|
    && StateAt(w, run, held).frames[f].lease in StateAt(w, run, held).leases
  }

  lemma {:induction false} CheckedBefore(w: World, run: seq<Action>, t: Thread, f: nat, n: nat) returns (checked: nat)
    requires Initial(w) && Admits(w, run) && n <= |run| && Waiting(StateAt(w, run, n), t, f)
    ensures checked < n && run[checked].Check? && run[checked].t == t && Passes(StateAt(w, run, checked), run[checked], f)
    ensures forall k :: checked < k <= n ==> Waiting(StateAt(w, run, k), t, f)
    decreases n
  {
    assert n > 0;
    RunKeeps(w, run, n - 1);
    StateNext(w, run, n - 1);
    WaitingBefore(StateAt(w, run, n - 1), run[n - 1], t, f);
    if Waiting(StateAt(w, run, n - 1), t, f) {
      checked := CheckedBefore(w, run, t, f, n - 1);
    } else {
      checked := n - 1;
    }
  }

  lemma {:induction false} HeldBefore(w: World, run: seq<Action>, t: Thread, f: nat, n: nat) returns (held: nat)
    requires Initial(w) && Admits(w, run) && n <= |run| && OnTop(StateAt(w, run, n), t, Feedback(Some(f), Held))
    ensures held < n && run[held] == Hold(t) && OnTop(StateAt(w, run, held), t, Feedback(Some(f), Checked))
    ensures f < |StateAt(w, run, held).frames| && StateAt(w, run, held).frames[f].lease in StateAt(w, run, held).leases
    ensures forall k :: held < k <= n ==> OnTop(StateAt(w, run, k), t, Feedback(Some(f), Held))
    decreases n
  {
    assert n > 0;
    RunKeeps(w, run, n - 1);
    StateNext(w, run, n - 1);
    WaitingBefore(StateAt(w, run, n - 1), run[n - 1], t, f);
    if OnTop(StateAt(w, run, n - 1), t, Feedback(Some(f), Held)) {
      held := HeldBefore(w, run, t, f, n - 1);
    } else {
      held := n - 1;
    }
  }

  /** Every body that is about to start was opened by its own thread. */
  lemma EveryBodyWasOpened(w: World, run: seq<Action>, t: Thread)
    requires Initial(w) && Admits(w, run) && Enabled(StateAt(w, run, |run|), Consume(t))
    ensures exists f, checked, held :: Opened(w, run, t, f, checked, held)
  {
    var end := StateAt(w, run, |run|);
    InitialHolds(w);
    RunKeeps(w, run, |run|);
    assert GoodAt(end, t, Depth(end, t) - 1);
    var f := TopFrame(end, t).value;
    assert OnTop(end, t, Feedback(Some(f), Held));
    var held := HeldBefore(w, run, t, f, |run|);
    var checked := CheckedBefore(w, run, t, f, held);
    forall k | checked < k <= |run|
      ensures Waiting(StateAt(w, run, k), t, f)
    {
      if k > held {
        assert OnTop(StateAt(w, run, k), t, Feedback(Some(f), Held));
      }
    }
    assert Opened(w, run, t, f, checked, held);
  }

  lemma HolderIsInside(w: World, t: Thread, f: nat)
    requires Inv(w) && OnTop(w, t, Feedback(Some(f), Held))
    ensures Enabled(w, Consume(t)) && TopFrame(w, t) == Some(f) == w.live
    ensures w.frames[f].thread == t && w.frames[f].executing && Invoking(f) in w.stacks[t]
  {
    assert GoodAt(w, t, Depth(w, t) - 1);
  }

  /**
   A body starts on the invoking thread, inside the execute call of the live frame.  The
   frame is unstopped then exactly if nothing stopped it since the opening check, and the
   lease is held exactly if nobody released it since the feedback took hold of it.
   */
  lemma BodyStartsInside(w: World, run: seq<Action>, t: Thread, f: nat, checked: nat, held: nat)
    requires Initial(w) && Admits(w, run) && Opened(w, run, t, f, checked, held)
    ensures var end := StateAt(w, run, |run|);
            && Enabled(end, Consume(t)) && TopFrame(end, t) == Some(f) == end.live
            && end.frames[f].thread == t && end.frames[f].executing && Invoking(f) in end.stacks[t]
            && (end.frames[f].stopped <==> StopsBetween(w, run, checked + 1, |run|, f))
            && (end.frames[f].lease in end.leases <==> !ReleasedBetween(run, held, |run|, end.frames[f].lease))
  {
    InitialHolds(w);
    RunKeeps(w, run, |run|);
    HolderIsInside(StateAt(w, run, |run|), t, f);
    StoppedSinceCheck(w, run, t, f, checked, held);
    LeaseOfFrame(w, run, held, |run|, f);
    LeaseHeldExactly(w, run, held, |run|, StateAt(w, run, held).frames[f].lease);
  }

  lemma StoppedSinceCheck(w: World, run: seq<Action>, t: Thread, f: nat, checked: nat, held: nat)
    requires Initial(w) && Admits(w, run) && Opened(w, run, t, f, checked, held)
    ensures Stopped(StateAt(w, run, |run|), f) <==> StopsBetween(w, run, checked + 1, |run|, f)
  {
    InitialHolds(w);
    StateNext(w, run, checked);
    PassedIsUnstopped(StateAt(w, run, checked), run[checked], f);
    StoppedWhileWaiting(w, run, t, f, checked + 1, |run|);
  }

  lemma PassedIsUnstopped(w: World, a: Action, f: nat)
    requires Enabled(w, a) && Passes(w, a, f) && a.Check?
    ensures !Stopped(After(w, a), f)
  {
  }

  lemma {:induction false} LeaseOfFrame(w: World, run: seq<Action>, since: nat, until: nat, f: nat)
    requires Admits(w, run) && since <= until <= |run| && f < |StateAt(w, run, since).frames|
    ensures f < |StateAt(w, run, until).frames| && StateAt(w, run, until).frames[f].lease == StateAt(w, run, since).frames[f].lease
    decreases until
  {
    if since < until {
      LeaseOfFrame(w, run, since, until - 1, f);
      StateNext(w, run, until - 1);
    }
  }

  // ----- Both can happen -----

  function TwoThreads(): World {
    World([], None, {7}, [[], []])
  }

  /** Up to the hold of the lease by thread 0, and then one action of thread 1 or of nobody. */
  function Opening(last: Action): seq<Action> {
    [Invoke(0, 7), Execute(0), Enter(0), Test(0), Check(0, true), Hold(0), last]
  }

  lemma OneStep(w: World, v: World, run: seq<Action>)
    requires run != [] && Enabled(w, run[0]) && After(w, run[0]) == v && Admits(v, run[1..])
    ensures Admits(w, run) && StateAt(w, run, |run|) == StateAt(v, run[1..], |run| - 1)
  {
  }

  function Alone(executing: bool, stack: seq<Activity>): World {
    World([Frame(0, 7, executing, false, false)], Some(0), {7}, [stack, []])
  }

  lemma AloneMoves(executing: bool, stack: seq<Activity>, x: Activity, stage: Stage)
    ensures Push(Alone(executing, stack), 0, x) == Alone(executing, stack + [x])
    ensures x.Feedback? ==>
              Turn(Alone(executing, stack + [x]), 0, stage) == Alone(executing, stack + [Feedback(x.frame, stage)])
  {
    assert [stack, []][0 := stack + [x]] == [stack + [x], []];
    if x.Feedback? {
      assert (stack + [x])[|stack| := Feedback(x.frame, stage)] == stack + [Feedback(x.frame, stage)];
      assert [stack + [x], []][0 := stack + [Feedback(x.frame, stage)]] == [stack + [Feedback(x.frame, stage)], []];
    }
  }

  function Inside(stage: Stage): World {
    Alone(true, [Invoking(0)] + [Feedback(Some(0), stage)])
  }

  lemma OpeningSteps()
    ensures After(TwoThreads(), Invoke(0, 7)) == Alone(false, [Invoking(0)])
    ensures After(Alone(false, [Invoking(0)]), Execute(0)) == Alone(true, [Invoking(0)])
    ensures After(Alone(true, [Invoking(0)]), Enter(0)) == Inside(Captured)
    ensures After(Inside(Captured), Test(0)) == Inside(Screened)
    ensures After(Inside(Screened), Check(0, true)) == Inside(Checked)
    ensures After(Inside(Checked), Hold(0)) == Inside(Held)
  {
    AloneMoves(true, [Invoking(0)], Feedback(Some(0), Captured), Screened);
    AloneMoves(true, [Invoking(0)], Feedback(Some(0), Screened), Checked);
    AloneMoves(true, [Invoking(0)], Feedback(Some(0), Checked), Held);
    var idle: seq<Activity> := [];
    assert idle + [Invoking(0)] == [Invoking(0)];
    assert [idle, idle][0 := [Invoking(0)]] == [[Invoking(0)], idle];
  }

  lemma OpeningLeads(last: Action)
    requires last == Invoke(1, 7) || last == Release(7)
    ensures Admits(TwoThreads(), Opening(last))
    ensures Enabled(Inside(Held), last) && StateAt(TwoThreads(), Opening(last), 7) == After(Inside(Held), last)
  {
    var run := Opening(last);
    assert run[1..][1..] == run[2..] && run[2..][1..] == run[3..] && run[3..][1..] == run[4..] && run[4..][1..] == run[5..];
    assert run[5..][1..] == run[6..] && run[6..][1..] == [];
    OpeningSteps();
    OneStep(Inside(Held), After(Inside(Held), last), run[6..]);
    OneStep(Inside(Checked), Inside(Held), run[5..]);
    OneStep(Inside(Screened), Inside(Checked), run[4..]);
    OneStep(Inside(Captured), Inside(Screened), run[3..]);
    OneStep(Alone(true, [Invoking(0)]), Inside(Captured), run[2..]);
    OneStep(Alone(false, [Invoking(0)]), Alone(true, [Invoking(0)]), run[1..]);
    OneStep(TwoThreads(), Alone(false, [Invoking(0)]), run);
  }

  /** A body starts in a frame that another thread has just stopped. */
  lemma StoppedBodyStarts()
    ensures var run := Opening(Invoke(1, 7));
            && Initial(TwoThreads()) && Admits(TwoThreads(), run)
            && Enabled(StateAt(TwoThreads(), run, |run|), Consume(0))
            && Stopped(StateAt(TwoThreads(), run, |run|), 0)
  {
    OpeningLeads(Invoke(1, 7));
  }

  /** A body starts after its lease has just been released. */
  lemma LeaselessBodyStarts()
    ensures var run := Opening(Release(7));
            && Initial(TwoThreads()) && Admits(TwoThreads(), run)
            && Enabled(StateAt(TwoThreads(), run, |run|), Consume(0))
            && StateAt(TwoThreads(), run, |run|).frames[0].lease !in StateAt(TwoThreads(), run, |run|).leases
  {
    OpeningLeads(Release(7));
  }

  // ----- After a failure -----

  /** A feedback entered after any failure in its frame is doomed from the start, on whatever thread. */
  lemma LaterIsDoomed(w: World, u: Thread, run: seq<Action>, t: Thread)
    requires Enabled(w, Fail(u)) && TopFrame(w, u).Some?
    requires Admits(After(w, Fail(u)), run)
    requires var end := StateAt(After(w, Fail(u)), run, |run|);
             Enabled(end, Enter(t)) && end.live == TopFrame(w, u)
    ensures var end := StateAt(After(w, Fail(u)), run, |run|);
            Doomed(After(end, Enter(t)), t, Depth(end, t), TopFrame(w, u).value)
  {
    FailureStops(w, u);
    StoppedForGood(After(w, Fail(u)), run, |run|, TopFrame(w, u).value);
  }

  lemma {:induction false} StoppedForGood(w: World, run: seq<Action>, k: nat, f: nat)
    requires Admits(w, run) && k <= |run| && Stopped(w, f)
    ensures Stopped(StateAt(w, run, k), f)
    decreases |run|
  {
    if k > 0 {
      StoppedAbsorbs(w, run[0], f);
      StoppedForGood(After(w, run[0]), run[1..], k - 1, f);
    }
  }
}
