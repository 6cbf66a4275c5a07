/**
 The bounded worker pool: several runners share one cursor and one results array, and give up
 control only while a worker call is pending. A `Pool` value is a snapshot of what the runners
 share; a `Step` is what one runner does between two suspension points. A run is any sequence of
 enabled steps, so every statement about runs is about every interleaving.
 */
module WorkerPool {
  import opened Wrappers

  /** Whether the call made for an item fulfils or throws. */
  datatype Outcome<+V, +E> = Fulfilled(value: V) | Rejected(reason: E)

  /** What sits at an input index: `undefined`, or a value whose call has the given outcome. */
  datatype Job<+V, +E> = Missing | Call(outcome: Outcome<V, E>)

  datatype Mode = FailFast | Settled

  datatype Runner = Idle | InFlight(index: nat) | Returned | Threw(index: nat)

  datatype Failure<+E> = MissingValue(at: nat) | WorkerError(reason: E)

  datatype Claimed = Claimed(runner: nat, index: nat)

  datatype Config<V, E> = Config(mode: Mode, jobs: seq<Job<V, E>>, concurrency: int) {

    function Workers(): nat {
      var limit := if concurrency > 1 then concurrency else 1;
      if limit < |jobs| then limit else |jobs|
    }

    /** Handling index i makes its runner throw. */
    predicate Fails(i: nat)
      requires i < |jobs|
    {
      jobs[i].Missing? || (mode.FailFast? && jobs[i].outcome.Rejected?)
    }

    function FailureAt(i: nat): Failure<E>
      requires i < |jobs| && Fails(i)
    {
      if jobs[i].Missing? then MissingValue(i) else WorkerError(jobs[i].outcome.reason)
    }

    ghost predicate NothingFails() {
      forall i :: 0 <= i < |jobs| ==> !Fails(i)
    }
  }

  /** `rejection` is what `Promise.all` over the runners has rejected with, if it has. */
  datatype Pool<V, E> = Pool(
    next: nat,
    slots: seq<Option<Outcome<V, E>>>,
    runners: seq<Runner>,
    claims: seq<Claimed>,
    rejection: Option<Failure<E>>
  ) {
    predicate Quiescent() {
      forall r :: 0 <= r < |runners| ==> runners[r].Returned? || runners[r].Threw?
    }
  }

  function Init<V, E>(c: Config<V, E>): Pool<V, E> {
    Pool(0, seq(|c.jobs|, _ => None), seq(c.Workers(), _ => Idle), [], None)
  }

  /** Runner `r` either looks at the cursor (`Claim`) or gets its pending call's outcome (`Resume`). */
  datatype Step = Claim(r: nat) | Resume(r: nat)

  predicate Enabled<V, E>(s: Pool<V, E>, step: Step) {
    && step.r < |s.runners|
    && (if step.Claim? then s.runners[step.r].Idle? else s.runners[step.r].InFlight?)
  }

  function Throw<V, E>(c: Config<V, E>, s: Pool<V, E>, r: nat, i: nat): Pool<V, E>
    requires r < |s.runners| && i < |c.jobs| && c.Fails(i)
  {
    s.(runners := s.runners[r := Threw(i)],
       rejection := if s.rejection.None? then Some(c.FailureAt(i)) else s.rejection)
  }

  function ApplyClaim<V, E>(c: Config<V, E>, s: Pool<V, E>, r: nat): Pool<V, E>
    requires r < |s.runners|
  {
    if s.next >= |c.jobs| then
      s.(runners := s.runners[r := Returned])
    else
      var taken := s.(next := s.next + 1, claims := s.claims + [Claimed(r, s.next)]);
      if c.jobs[s.next].Missing? then Throw(c, taken, r, s.next)
      else taken.(runners := s.runners[r := InFlight(s.next)])
  }

  function ApplyResume<V, E>(c: Config<V, E>, s: Pool<V, E>, r: nat): Pool<V, E>
    requires r < |s.runners| && s.runners[r].InFlight?
    requires Inv(c, s)
  {
    var i := s.runners[r].index;
    assert RunnerOk(c, s, r);
    if c.Fails(i) then Throw(c, s, r, i)
    else s.(slots := s.slots[i := Some(c.jobs[i].outcome)], runners := s.runners[r := Idle])
  }

  function Apply<V, E>(c: Config<V, E>, s: Pool<V, E>, step: Step): Pool<V, E>
    requires Inv(c, s) && Enabled(s, step)
  {
    if step.Claim? then ApplyClaim(c, s, step.r) else ApplyResume(c, s, step.r)
  }

  /** A runner that is busy with, or died on, an index is the one that claimed it. */
  ghost predicate Owns<V, E>(c: Config<V, E>, s: Pool<V, E>, r: nat, i: nat) {
    i < s.next && i < |s.claims| && i < |s.slots| && i < |c.jobs| && s.claims[i].runner == r && s.slots[i].None?
  }

  ghost predicate RunnerOk<V, E>(c: Config<V, E>, s: Pool<V, E>, r: nat)
    requires r < |s.runners|
  {
    match s.runners[r]
    case Idle => true
    case InFlight(i) => Owns(c, s, r, i) && c.jobs[i].Call?
    case Returned => s.next == |c.jobs|
    case Threw(i) => Owns(c, s, r, i) && c.Fails(i) && s.rejection.Some?
  }

  /** A claimed slot holds its own item's outcome, or is still owed by the runner that claimed it. */
  ghost predicate SlotOk<V, E>(c: Config<V, E>, s: Pool<V, E>, i: nat)
    requires i < |s.slots| == |c.jobs|
  {
    if i >= s.next then s.slots[i].None?
    else if s.slots[i].Some? then !c.Fails(i) && s.slots[i].value == c.jobs[i].outcome
    else
      && i < |s.claims| && s.claims[i].runner < |s.runners|
      && (s.runners[s.claims[i].runner] == InFlight(i) || s.runners[s.claims[i].runner] == Threw(i))
  }

  /** What every reachable pool state satisfies. */
  ghost predicate Inv<V, E>(c: Config<V, E>, s: Pool<V, E>) {
    && |s.slots| == |c.jobs| && |s.runners| == c.Workers() && s.next <= |c.jobs|
    // the claimed indices are 0, 1, ... next-1, in this order, each claimed once
    && |s.claims| == s.next
    && (forall k :: 0 <= k < s.next ==> s.claims[k].index == k && s.claims[k].runner < |s.runners|)
    && (forall r :: 0 <= r < |s.runners| ==> RunnerOk(c, s, r))
    && (forall i :: 0 <= i < |s.slots| ==> SlotOk(c, s, i))
    && (s.rejection.Some? ==> RejectionOk(c, s))
  }

  ghost predicate RejectionOk<V, E>(c: Config<V, E>, s: Pool<V, E>)
    requires s.rejection.Some?
  {
    exists r :: 0 <= r < |s.runners| && s.runners[r].Threw? && s.runners[r].index < |c.jobs|
      && c.Fails(s.runners[r].index) && s.rejection.value == c.FailureAt(s.runners[r].index)
  }

  lemma InitInv<V, E>(c: Config<V, E>)
    ensures Inv(c, Init(c))
  {
  }

  lemma ThrowKeepsRejection<V, E>(c: Config<V, E>, s: Pool<V, E>, r: nat, i: nat)
    requires r < |s.runners| && i < |c.jobs| && c.Fails(i) && !s.runners[r].Threw?
    requires s.rejection.Some? ==> RejectionOk(c, s)
    ensures var s' := Throw(c, s, r, i); s'.rejection.Some? && RejectionOk(c, s')
  {
    var s' := Throw(c, s, r, i);
    assert s'.runners[r] == Threw(i);
    if s.rejection.Some? {
      var q :| 0 <= q < |s.runners| && s.runners[q].Threw? && s.runners[q].index < |c.jobs|
        && c.Fails(s.runners[q].index) && s.rejection.value == c.FailureAt(s.runners[q].index);
      assert s'.runners[q] == s.runners[q];
    }
  }

  lemma StepKeepsRejection<V, E>(c: Config<V, E>, s: Pool<V, E>, step: Step)
    requires Inv(c, s) && Enabled(s, step)
    ensures var s' := Apply(c, s, step); s'.rejection.Some? ==> RejectionOk(c, s')
  {
    var s' := Apply(c, s, step);
    assert RunnerOk(c, s, step.r);
    if s'.runners[step.r].Threw? {
      var taken := if step.Claim? then s.(next := s.next + 1, claims := s.claims + [Claimed(step.r, s.next)]) else s;
      ThrowKeepsRejection(c, taken, step.r, s'.runners[step.r].index);
    } else if s.rejection.Some? {
      var q :| 0 <= q < |s.runners| && s.runners[q].Threw? && s.runners[q].index < |c.jobs|
        && c.Fails(s.runners[q].index) && s.rejection.value == c.FailureAt(s.runners[q].index);
      assert s'.runners[q] == s.runners[q];
    }
  }

  lemma ClaimRunners<V, E>(c: Config<V, E>, s: Pool<V, E>, step: Step, r: nat)
    requires Inv(c, s) && Enabled(s, step) && step.Claim? && r < |s.runners|
    ensures RunnerOk(c, Apply(c, s, step), r)
  {
    assert s.next < |s.slots| ==> SlotOk(c, s, s.next);
    assert RunnerOk(c, s, r);
  }

  lemma ClaimInv<V, E>(c: Config<V, E>, s: Pool<V, E>, step: Step)
    requires Inv(c, s) && Enabled(s, step) && step.Claim?
    ensures Inv(c, Apply(c, s, step))
  {
    var s' := Apply(c, s, step);
    StepKeepsRejection(c, s, step);
    forall r | 0 <= r < |s'.runners|
      ensures RunnerOk(c, s', r)
    {
      ClaimRunners(c, s, step, r);
    }
    forall i | 0 <= i < |s'.slots|
      ensures SlotOk(c, s', i)
    {
      assert SlotOk(c, s, i);
    }
  }

  lemma ResumeInv<V, E>(c: Config<V, E>, s: Pool<V, E>, step: Step)
    requires Inv(c, s) && Enabled(s, step) && step.Resume?
    ensures Inv(c, Apply(c, s, step))
  {
    var s' := Apply(c, s, step);
    StepKeepsRejection(c, s, step);
    assert RunnerOk(c, s, step.r);
    forall r | 0 <= r < |s'.runners|
      ensures RunnerOk(c, s', r)
    {
      assert RunnerOk(c, s, r);
    }
    forall i | 0 <= i < |s'.slots|
      ensures SlotOk(c, s', i)
    {
      assert SlotOk(c, s, i);
    }
  }

  /** Every step of every runner keeps the invariant. */
  lemma StepInv<V, E>(c: Config<V, E>, s: Pool<V, E>, step: Step)
    requires Inv(c, s) && Enabled(s, step)
    ensures Inv(c, Apply(c, s, step))
  {
    if step.Claim? {
      ClaimInv(c, s, step);
    } else {
      ResumeInv(c, s, step);
    }
  }

  ghost predicate IsRun<V, E>(c: Config<V, E>, s: Pool<V, E>, steps: seq<Step>)
    decreases |steps|
  {
    Inv(c, s) && (steps != [] ==> Enabled(s, steps[0]) && IsRun(c, Apply(c, s, steps[0]), steps[1..]))
  }

  ghost function Exec<V, E>(c: Config<V, E>, s: Pool<V, E>, steps: seq<Step>): (s': Pool<V, E>)
    requires IsRun(c, s, steps)
    ensures Inv(c, s')
    decreases |steps|
  {
    if steps == [] then s else Exec(c, Apply(c, s, steps[0]), steps[1..])
  }

  function Weight(r: Runner): nat {
    match r case Idle => 1 case InFlight(_) => 2 case Returned => 0 case Threw(_) => 0
  }

  function Weights(rs: seq<Runner>): nat {
    if rs == [] then 0 else Weight(rs[0]) + Weights(rs[1..])
  }

  lemma {:induction false} WeightsUpdate(rs: seq<Runner>, k: nat, r: Runner)
    requires k < |rs|
    ensures Weights(rs[k := r]) == Weights(rs) - Weight(rs[k]) + Weight(r)
  {
    if k == 0 {
      assert rs[k := r][1..] == rs[1..];
    } else {
      WeightsUpdate(rs[1..], k - 1, r);
      assert rs[k := r][1..] == rs[1..][k - 1 := r];
    }
  }

  lemma {:induction false} WeightsOfIdle(n: nat)
    ensures Weights(seq(n, _ => Idle)) == n
  {
    if n > 0 {
      WeightsOfIdle(n - 1);
      assert seq(n, _ => Idle)[1..] == seq(n - 1, _ => Idle);
    }
  }

  /** How many steps can still be taken, at most. */
  function Measure<V, E>(c: Config<V, E>, s: Pool<V, E>): nat
    requires s.next <= |c.jobs|
  {
    3 * (|c.jobs| - s.next) + Weights(s.runners)
  }

  lemma StepDecreases<V, E>(c: Config<V, E>, s: Pool<V, E>, step: Step)
    requires Inv(c, s) && Enabled(s, step)
    ensures Apply(c, s, step).next <= |c.jobs|
    ensures Measure(c, Apply(c, s, step)) < Measure(c, s)
  {
    WeightsUpdate(s.runners, step.r, Apply(c, s, step).runners[step.r]);
  }

  /** No interleaving keeps the runners busy for more steps than this. */
  lemma {:induction false} RunsAreShort<V, E>(c: Config<V, E>, s: Pool<V, E>, steps: seq<Step>)
    requires IsRun(c, s, steps)
    ensures |steps| + Measure(c, Exec(c, s, steps)) <= Measure(c, s)
    decreases |steps|
  {
    if steps != [] {
      StepDecreases(c, s, steps[0]);
      RunsAreShort(c, Apply(c, s, steps[0]), steps[1..]);
    }
  }

  lemma RunsAreBounded<V, E>(c: Config<V, E>, steps: seq<Step>)
    requires IsRun(c, Init(c), steps)
    ensures |steps| <= 3 * |c.jobs| + c.Workers()
  {
    RunsAreShort(c, Init(c), steps);
    WeightsOfIdle(c.Workers());
  }

  /** A pool that is not done always has a runner that can move, so no run gets stuck. */
  lemma Progress<V, E>(c: Config<V, E>, s: Pool<V, E>)
    requires Inv(c, s) && !s.Quiescent()
    ensures exists step :: Enabled(s, step) && Inv(c, Apply(c, s, step))
  {
    var r :| 0 <= r < |s.runners| && !s.runners[r].Returned? && !s.runners[r].Threw?;
    var step := if s.runners[r].Idle? then Claim(r) else Resume(r);
    assert Enabled(s, step);
    StepInv(c, s, step);
  }

  /** The items handled one after the other, with no pool at all: the reference result. */
  function Sequential<V, E>(jobs: seq<Job<V, E>>): (r: Option<seq<Outcome<V, E>>>)
  {
    if jobs == [] then Some([])
    else if jobs[0].Missing? then None
    else
      var rest := Sequential(jobs[1..]);
      if rest.None? then None else Some([jobs[0].outcome] + rest.value)
  }

  lemma {:induction false} SequentialAt<V, E>(jobs: seq<Job<V, E>>)
    ensures Sequential(jobs).Some? <==> forall i :: 0 <= i < |jobs| ==> jobs[i].Call?
    ensures Sequential(jobs).Some? ==>
      && |Sequential(jobs).value| == |jobs|
      && (forall i :: 0 <= i < |jobs| ==> jobs[i].Call? && Sequential(jobs).value[i] == jobs[i].outcome)
  {
    if jobs != [] {
      SequentialAt(jobs[1..]);
      assert forall i :: 1 <= i < |jobs| ==> jobs[i] == jobs[1..][i - 1];
      assert forall i :: 0 <= i < |jobs[1..]| ==> jobs[1..][i] == jobs[i + 1];
    }
  }

  /** Once every runner has stopped, either every index was claimed or every runner threw. */
  lemma QuiescentClaims<V, E>(c: Config<V, E>, s: Pool<V, E>)
    requires Inv(c, s) && s.Quiescent()
    ensures s.next == |c.jobs| || forall r :: 0 <= r < |s.runners| ==> s.runners[r].Threw?
    ensures s.rejection.None? ==> s.next == |c.jobs|
  {
    if |s.runners| > 0 {
      var r :| 0 <= r < |s.runners| && (s.runners[r].Returned? || forall q :: 0 <= q < |s.runners| ==> s.runners[q].Threw?);
      assert RunnerOk(c, s, r);
    }
  }

  /** An item's own failure: a missing value is named by its index, a throwing call rejects with its own reason. */
  ghost predicate FailsWith<V, E>(c: Config<V, E>, i: nat, failure: Failure<E>)
    requires i < |c.jobs|
  {
    match c.jobs[i]
    case Missing => failure == MissingValue(i)
    case Call(Rejected(reason)) => c.mode.FailFast? && failure == WorkerError(reason)
    case Call(Fulfilled(_)) => false
  }

  lemma FailsWithMeans<V, E>(c: Config<V, E>, i: nat, failure: Failure<E>)
    requires i < |c.jobs|
    ensures FailsWith(c, i, failure) <==>
      || (c.jobs[i].Missing? && failure == MissingValue(i))
      || (c.mode.FailFast? && c.jobs[i].Call? && c.jobs[i].outcome.Rejected? && failure == WorkerError(c.jobs[i].outcome.reason))
  {
  }

  lemma FailuresAreOwn<V, E>(c: Config<V, E>)
    ensures forall i :: 0 <= i < |c.jobs| && c.Fails(i) ==> FailsWith(c, i, c.FailureAt(i))
    ensures c.NothingFails() <==> forall job <- c.jobs :: job.Call? && (c.mode.FailFast? ==> job.outcome.Fulfilled?)
  {
    if c.NothingFails() {
      forall job | job in c.jobs
        ensures job.Call? && (c.mode.FailFast? ==> job.outcome.Fulfilled?)
      {
        var i :| 0 <= i < |c.jobs| && c.jobs[i] == job;
        assert !c.Fails(i);
      }
    } else {
      var i :| 0 <= i < |c.jobs| && c.Fails(i);
      assert c.jobs[i] in c.jobs;
    }
  }

  /**
   Whatever the interleaving, a finished pool has rejected exactly when some item fails, and
   otherwise holds the sequential outcomes in input order.
   */
  lemma FinishedPool<V, E>(c: Config<V, E>, s: Pool<V, E>)
    requires Inv(c, s) && s.Quiescent()
    ensures s.rejection.None? <==> c.NothingFails()
    ensures s.rejection.None? <==>
      forall job <- c.jobs :: job.Call? && (c.mode.FailFast? ==> job.outcome.Fulfilled?)
    ensures s.rejection.Some? ==> exists i :: 0 <= i < |c.jobs| && FailsWith(c, i, s.rejection.value)
    ensures s.rejection.None? ==>
      && Sequential(c.jobs).Some?
      && |Sequential(c.jobs).value| == |s.slots|
      && (forall i :: 0 <= i < |s.slots| ==> s.slots[i] == Some(Sequential(c.jobs).value[i]))
    ensures s.rejection.Some? ==> exists i :: 0 <= i < |c.jobs| && c.Fails(i) && s.rejection.value == c.FailureAt(i)
  {
    QuiescentClaims(c, s);
    SequentialAt(c.jobs);
    FailuresAreOwn(c);
    if s.rejection.Some? {
      var r :| 0 <= r < |s.runners| && s.runners[r].Threw? && s.runners[r].index < |c.jobs|
        && c.Fails(s.runners[r].index) && s.rejection.value == c.FailureAt(s.runners[r].index);
      assert FailsWith(c, s.runners[r].index, s.rejection.value);
    }
    if s.rejection.None? {
      forall i | 0 <= i < |c.jobs|
        ensures !c.Fails(i) && c.jobs[i].Call? && s.slots[i] == Some(c.jobs[i].outcome)
      {
        assert SlotOk(c, s, i);
        assert s.slots[i].None? ==> RunnerOk(c, s, s.claims[i].runner);
      }
    }
  }

  /** Two complete runs of the same pool cannot disagree on the results. */
  lemma InterleavingDoesNotMatter<V, E>(c: Config<V, E>, steps: seq<Step>, steps': seq<Step>)
    requires IsRun(c, Init(c), steps) && IsRun(c, Init(c), steps')
    requires Exec(c, Init(c), steps).Quiescent() && Exec(c, Init(c), steps').Quiescent()
    ensures var s, s' := Exec(c, Init(c), steps), Exec(c, Init(c), steps');
      && (s.rejection.None? <==> s'.rejection.None?)
      && (s.rejection.None? ==> s.slots == s'.slots)
  {
    RunsAreShort(c, Init(c), steps);
    RunsAreShort(c, Init(c), steps');
    FinishedPool(c, Exec(c, Init(c), steps));
    FinishedPool(c, Exec(c, Init(c), steps'));
  }

  /** In settled mode a call that throws is an outcome like any other: only `undefined` rejects. */
  lemma SettledRejectsOnlyOnMissing<V, E>(c: Config<V, E>, s: Pool<V, E>)
    requires c.mode.Settled? && Inv(c, s) && s.Quiescent()
    ensures s.rejection.None? <==> Sequential(c.jobs).Some?
  {
    FinishedPool(c, s);
    SequentialAt(c.jobs);
  }

  /** The index a runner is busy with, or (`failed`) died on. */
  ghost function Held(r: Runner, failed: bool): set<nat> {
    if (if failed then r.Threw? else r.InFlight?) then {r.index} else {}
  }

  ghost function HeldIndices(rs: seq<Runner>, failed: bool): set<nat> {
    if rs == [] then {} else Held(rs[0], failed) + HeldIndices(rs[1..], failed)
  }

  ghost function InFlightIndices(rs: seq<Runner>): set<nat> {
    HeldIndices(rs, false)
  }

  ghost function FailedIndices(rs: seq<Runner>): set<nat> {
    HeldIndices(rs, true)
  }

  lemma {:induction false} HeldIndicesMember(rs: seq<Runner>, failed: bool, i: nat)
    ensures i in HeldIndices(rs, failed) <==> (if failed then Threw(i) else InFlight(i)) in rs
  {
    if rs != [] {
      HeldIndicesMember(rs[1..], failed, i);
      assert rs == [rs[0]] + rs[1..];
    }
  }

  lemma {:induction false} IndicesBound(rs: seq<Runner>)
    ensures |InFlightIndices(rs)| + |FailedIndices(rs)| <= |rs|
  {
    if rs != [] {
      IndicesBound(rs[1..]);
    }
  }

  /** A claimed index without a result is in flight or has failed, and no other index is either. */
  lemma OpenIndex<V, E>(c: Config<V, E>, s: Pool<V, E>, i: nat)
    requires Inv(c, s)
    ensures i < s.next && s.slots[i].None? <==> i in InFlightIndices(s.runners) || i in FailedIndices(s.runners)
  {
    HeldIndicesMember(s.runners, false, i);
    HeldIndicesMember(s.runners, true, i);
    if r :| 0 <= r < |s.runners| && (s.runners[r] == InFlight(i) || s.runners[r] == Threw(i)) {
      assert RunnerOk(c, s, r);
    } else {
      assert i < |s.slots| ==> SlotOk(c, s, i);
    }
  }

  /** Calls in flight and failures together never exceed the number of runners. */
  lemma ConcurrencyBound<V, E>(c: Config<V, E>, s: Pool<V, E>)
    requires Inv(c, s)
    ensures |InFlightIndices(s.runners)| + |FailedIndices(s.runners)| <= c.Workers()
    ensures var limit := if c.concurrency > 1 then c.concurrency else 1;
      c.Workers() == |s.runners| == if limit < |c.jobs| then limit else |c.jobs|
    ensures (set i | 0 <= i < s.next && s.slots[i].None?) == InFlightIndices(s.runners) + FailedIndices(s.runners)
  {
    IndicesBound(s.runners);
    forall i: nat
      ensures i < s.next && s.slots[i].None? <==> i in InFlightIndices(s.runners) || i in FailedIndices(s.runners)
    {
      OpenIndex(c, s, i);
    }
  }

  /** In every state of every run: claimed indices in order, each once, and a slot that is filled holds its own item's outcome. */
  lemma ClaimsAndSlots<V, E>(c: Config<V, E>, steps: seq<Step>)
    requires IsRun(c, Init(c), steps)
    ensures var s := Exec(c, Init(c), steps);
      && |s.claims| == s.next <= |c.jobs| == |s.slots|
      && (forall k :: 0 <= k < s.next ==> s.claims[k].index == k && s.claims[k].runner < |s.runners|)
      && (forall i :: 0 <= i < |s.slots| && s.slots[i].Some? ==> i < s.next && c.jobs[i] == Call(s.slots[i].value))
      && (forall r :: 0 <= r < |s.runners| && s.runners[r].InFlight? ==>
            s.runners[r].index < s.next && s.claims[s.runners[r].index].runner == r && s.slots[s.runners[r].index].None?)
  {
    var s := Exec(c, Init(c), steps);
    forall i | 0 <= i < |s.slots| && s.slots[i].Some?
      ensures i < s.next && c.jobs[i] == Call(s.slots[i].value)
    {
      assert SlotOk(c, s, i);
    }
    forall r | 0 <= r < |s.runners| && s.runners[r].InFlight?
      ensures s.runners[r].index < s.next && s.claims[s.runners[r].index].runner == r && s.slots[s.runners[r].index].None?
    {
      assert RunnerOk(c, s, r);
    }
  }

  /** Any runner that waits for its turn or for a call may be the next to move. */
  lemma AnyRunnerMayMove<V, E>(s: Pool<V, E>, r: nat)
    requires r < |s.runners|
    ensures s.runners[r].Idle? <==> Enabled(s, Claim(r))
    ensures s.runners[r].InFlight? <==> Enabled(s, Resume(r))
  {
  }

  lemma {:induction false} RunSnoc<V, E>(c: Config<V, E>, s: Pool<V, E>, steps: seq<Step>, step: Step)
    requires IsRun(c, s, steps) && Enabled(Exec(c, s, steps), step)
    ensures IsRun(c, s, steps + [step]) && Exec(c, s, steps + [step]) == Apply(c, Exec(c, s, steps), step)
    decreases |steps|
  {
    if steps == [] {
      StepInv(c, s, step);
      assert [] + [step] == [step] && [step][1..] == [];
      assert IsRun(c, Apply(c, s, step), []);
    } else {
      RunSnoc(c, Apply(c, s, steps[0]), steps[1..], step);
      assert (steps + [step])[1..] == steps[1..] + [step];
    }
  }

  lemma {:induction false} ClaimsInARow<V, E>(c: Config<V, E>, n: nat) returns (steps: seq<Step>)
    requires n <= c.Workers() && forall job <- c.jobs :: job.Call?
    ensures IsRun(c, Init(c), steps)
    ensures var s := Exec(c, Init(c), steps);
      s.next == n && forall r :: 0 <= r < |s.runners| ==> s.runners[r] == if r < n then InFlight(r) else Idle
  {
    InitInv(c);
    if n == 0 {
      steps := [];
      assert Exec(c, Init(c), steps) == Init(c);
    } else {
      steps := ClaimsInARow(c, n - 1);
      assert c.jobs[n - 1] in c.jobs;
      RunSnoc(c, Init(c), steps, Claim(n - 1));
      steps := steps + [Claim(n - 1)];
    }
  }

  /** The bound on concurrency is reached: some run has every runner in flight at once, on different items. */
  lemma AllRunnersInFlight<V, E>(c: Config<V, E>)
    requires forall job <- c.jobs :: job.Call?
    ensures exists steps ::
      && IsRun(c, Init(c), steps)
      && forall r :: 0 <= r < c.Workers() ==> Exec(c, Init(c), steps).runners[r] == InFlight(r)
  {
    var steps := ClaimsInARow(c, c.Workers());
  }

  /** The cursor, the results and the runners, as the closures of one pool call share them. */
  class SharedPool<V, E> {
    const config: Config<V, E>
    const results: array<Option<Outcome<V, E>>>
    const runners: array<Runner>
    var nextIndex: nat
    var rejection: Option<Failure<E>>
    ghost var claims: seq<Claimed>

    ghost predicate Valid()
      reads this, results, runners
    {
      Inv(config, View())
    }

    ghost function View(): Pool<V, E>
      reads this, results, runners
    {
      Pool(nextIndex, results[..], runners[..], claims, rejection)
    }

    constructor (c: Config<V, E>)
      ensures config == c && fresh(results) && fresh(runners)
      ensures Valid() && View() == Init(c)
    {
      config := c;
      results := new Option<Outcome<V, E>>[|c.jobs|](_ => None);
      runners := new Runner[c.Workers()](_ => Idle);
      nextIndex, rejection, claims := 0, None, [];
      new;
      assert results[..] == Init(c).slots;
      assert runners[..] == Init(c).runners;
      InitInv(c);
    }

    method Fail(r: nat, i: nat)
      requires r < runners.Length && i < |config.jobs| && config.Fails(i)
      modifies this`rejection, runners
      ensures View() == Throw(config, old(View()), r, i)
    {
      runners[r] := Threw(i);
      if rejection.None? {
        rejection := Some(config.FailureAt(i));
      }
    }

    /** One turn of the runner's loop up to its next suspension point or exit. */
    method ClaimNext(r: nat)
      requires Valid() && r < runners.Length && runners[r].Idle?
      modifies this, runners
      ensures Valid() && View() == Apply(config, old(View()), Claim(r))
    {
      StepInv(config, View(), Claim(r));
      var index := nextIndex;
      if index >= |config.jobs| {
        runners[r] := Returned;
        return;
      }
      nextIndex := nextIndex + 1;
      claims := claims + [Claimed(r, index)];
      if config.jobs[index].Missing? {
        Fail(r, index);
      } else {
        runners[r] := InFlight(index);
      }
    }

    /** The pending call of runner `r` settles. */
    method Settle(r: nat)
      requires Valid() && r < runners.Length && runners[r].InFlight?
      modifies this, runners, results
      ensures Valid() && View() == Apply(config, old(View()), Resume(r))
    {
      StepInv(config, View(), Resume(r));
      assert RunnerOk(config, View(), r);
      var index := runners[r].index;
      if config.Fails(index) {
        Fail(r, index);
      } else {
        results[index] := Some(config.jobs[index].outcome);
        runners[r] := Idle;
      }
    }
  }

  datatype Settlement<+V, +E> = Resolved(results: seq<Outcome<V, E>>) | RejectedWith(failure: Failure<E>)

  /**
   Runs a pool until no runner can move. Which runner moves next is left open at every turn, so
   the contract holds for every schedule.
   */
  method RunPool<V, E>(c: Config<V, E>) returns (settlement: Settlement<V, E>)
    ensures settlement.Resolved? <==> c.NothingFails()
    ensures settlement.Resolved? ==> Sequential(c.jobs) == Some(settlement.results)
    ensures settlement.Resolved? <==> forall job <- c.jobs :: job.Call? && (c.mode.FailFast? ==> job.outcome.Fulfilled?)
    ensures settlement.RejectedWith? ==> exists i :: 0 <= i < |c.jobs| && c.Fails(i) && settlement.failure == c.FailureAt(i)
    ensures settlement.RejectedWith? ==> exists i :: 0 <= i < |c.jobs| && FailsWith(c, i, settlement.failure)
  {
    if |c.jobs| == 0 {
      return Resolved([]);
    }
    var pool := new SharedPool<V, E>(c);
    while exists r :: 0 <= r < pool.runners.Length && (pool.runners[r].Idle? || pool.runners[r].InFlight?)
      invariant pool.config == c && pool.Valid()
      invariant fresh(pool) && fresh(pool.runners) && fresh(pool.results)
      decreases Measure(c, pool.View())
    {
      var r :| 0 <= r < pool.runners.Length && (pool.runners[r].Idle? || pool.runners[r].InFlight?);
      ghost var before := pool.View();
      if pool.runners[r].Idle? {
        pool.ClaimNext(r);
        StepDecreases(c, before, Claim(r));
      } else {
        pool.Settle(r);
        StepDecreases(c, before, Resume(r));
      }
    }
    assert pool.View().Quiescent();
    FinishedPool(c, pool.View());
    SequentialAt(c.jobs);
    if pool.rejection.Some? {
      return RejectedWith(pool.rejection.value);
    }
    var results: seq<Outcome<V, E>> := [];
    assert pool.results[..] == pool.View().slots;
    var i := 0;
    while i < pool.results.Length
      invariant 0 <= i <= pool.results.Length && |results| == i
      invariant results == Sequential(c.jobs).value[..i]
    {
      assert pool.results[i] == pool.View().slots[i] == Some(Sequential(c.jobs).value[i]);
      results := results + [pool.results[i].value];
      i := i + 1;
    }
    assert results == Sequential(c.jobs).value;
    return Resolved(results);
  }
}
