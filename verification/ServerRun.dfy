/** A controller's prefix joined with a route's path. */
module RoutePaths {

  /** Every run of slashes made one. */
  function Collapse(s: string): string {
    if s == "" then ""
    else if s[0] == '/' && |s| > 1 && s[1] == '/' then Collapse(s[1..])
    else [s[0]] + Collapse(s[1..])
  }

  function Join(prefix: string, path: string): string {
    if prefix == "" then path else Collapse(prefix + "/" + path)
  }

  /** A route's path: text, or a pattern (a regular expression, or a list), which is never prefixed. */
  datatype Path = Literal(text: string) | Pattern(source: string)

  function JoinPath(prefix: string, path: Path): Path {
    if path.Literal? then Literal(Join(prefix, path.text)) else path
  }

  ghost predicate SingleSlashes(s: string) {
    forall i :: 0 < i < |s| ==> !(s[i - 1] == '/' && s[i] == '/')
  }

  lemma {:induction false} CollapseSingles(s: string)
    ensures SingleSlashes(Collapse(s))
    ensures s == "" <==> Collapse(s) == ""
    ensures s != "" ==> Collapse(s)[0] == s[0]
  {
    if s != "" {
      CollapseSingles(s[1..]);
    }
  }

  lemma {:induction false} SinglesCollapse(s: string)
    requires SingleSlashes(s)
    ensures Collapse(s) == s
  {
    if s != "" {
      assert SingleSlashes(s[1..]);
      SinglesCollapse(s[1..]);
    }
  }

  lemma CollapseCons(c: char, t: string)
    ensures Collapse([c] + t) == if c == '/' && t != "" && t[0] == '/' then Collapse(t) else [c] + Collapse(t)
  {
    assert ([c] + t)[1..] == t;
  }

  lemma {:induction false} CollapseRight(s: string, t: string)
    ensures Collapse(s + Collapse(t)) == Collapse(s + t)
  {
    CollapseSingles(t);
    if s == "" {
      SinglesCollapse(Collapse(t));
      assert s + t == t && s + Collapse(t) == Collapse(t);
    } else {
      CollapseRight(s[1..], t);
      assert (s + t)[1..] == s[1..] + t && (s + Collapse(t))[1..] == s[1..] + Collapse(t);
    }
  }

  lemma {:induction false} CollapseLeft(s: string, t: string)
    ensures Collapse(Collapse(s) + t) == Collapse(s + t)
  {
    if s != "" {
      var c, r := s[0], s[1..];
      assert s == [c] + r;
      CollapseLeft(r, t);
      CollapseSingles(r);
      ConsLeft(c, r, t);
    }
  }

  lemma ConsLeft(c: char, r: string, t: string)
    requires Collapse(Collapse(r) + t) == Collapse(r + t)
    requires (r == "" <==> Collapse(r) == "") && (r != "" ==> Collapse(r)[0] == r[0])
    ensures Collapse(Collapse([c] + r) + t) == Collapse([c] + r + t)
  {
    hide Collapse;
    CollapseCons(c, r);
    CollapseCons(c, r + t);
    CollapseCons(c, Collapse(r) + t);
    assert [c] + r + t == [c] + (r + t);
    assert [c] + Collapse(r) + t == [c] + (Collapse(r) + t);
  }

  lemma {:induction false} DoubledSlash(s: string, t: string)
    ensures Collapse(s + "/" + "/" + t) == Collapse(s + "/" + t)
  {
    hide Collapse;
    CollapseCons('/', "/" + t);
    CollapseRight(s, "/" + ("/" + t));
    CollapseRight(s, "/" + t);
    assert s + "/" + "/" + t == s + ("/" + ("/" + t)) && s + "/" + t == s + ("/" + t);
  }

  /** Without a prefix a path stays as it is; otherwise one slash joins what has no other at the seam; patterns stay. */
  lemma JoinMeans(prefix: string, path: string, source: string)
    ensures Join("", path) == path && JoinPath(prefix, Literal(path)) == Literal(Join(prefix, path))
    ensures JoinPath(prefix, Pattern(source)) == Pattern(source)
    ensures prefix != "" && SingleSlashes(prefix + "/" + path) ==> Join(prefix, path) == prefix + "/" + path
    ensures prefix != "" ==> Join(prefix + "/", path) == Join(prefix, path) && Join(prefix, "/" + path) == Join(prefix, path)
  {
    if SingleSlashes(prefix + "/" + path) {
      SinglesCollapse(prefix + "/" + path);
    }
    DoubledSlash(prefix, path);
    assert prefix + "/" + ("/" + path) == prefix + "/" + "/" + path;
  }

  /** A joined path has no doubled slash, unless it came unprefixed with one. */
  lemma JoinedIsClean(prefix: string, path: string)
    ensures SingleSlashes(Join(prefix, path)) <==> prefix != "" || SingleSlashes(path)
  {
    CollapseSingles(prefix + "/" + path);
  }

  lemma LeftGrouping(a: string, b: string, c: string)
    requires a != ""
    ensures Join(Join(a, b), c) == Collapse(a + "/" + b + "/" + c)
  {
    hide Collapse;
    var ab, tail := a + "/" + b, "/" + c;
    CollapseSingles(ab);
    CollapseLeft(ab, tail);
    assert Collapse(ab) + "/" + c == Collapse(ab) + tail;
    assert ab + tail == ab + "/" + c;
  }

  lemma RightGrouping(a: string, b: string, c: string)
    requires a != "" && b != ""
    ensures Join(a, Join(b, c)) == Collapse(a + "/" + b + "/" + c)
  {
    hide Collapse;
    var head, tail := a + "/", b + "/" + c;
    CollapseRight(head, tail);
    assert head + tail == a + "/" + b + "/" + c;
  }

  /** Prefixes may be joined in either grouping, empty ones included. */
  lemma JoinAssociative(a: string, b: string, c: string)
    ensures Join(Join(a, b), c) == Join(a, Join(b, c))
  {
    hide Collapse;
    if a != "" {
      LeftGrouping(a, b, c);
      if b != "" {
        RightGrouping(a, b, c);
      } else {
        DoubledSlash(a, c);
        assert a + "/" + b == a + "/";
      }
    }
  }
}

/**
 The prepare-shutdown hooks, and overlapping calls that want them run. A step is what a call does
 between two suspension points: from its beginning, or from the settling of the hook it waits for,
 until it waits for the next hook or ends.
 */
module ShutdownHooks {

  /** A call that has not begun, waits for hook number `hook`, has returned, or has thrown. */
  datatype Call = Waiting | Pending(hook: nat) | Returned | Thrown

  /** `hooks` counts the hooks of all layers in layer order; `started` and `fulfilled` record their fates. */
  datatype State = State(hooks: nat, ran: bool, calls: seq<Call>, started: seq<nat>, fulfilled: nat)

  /** `starts` says whether the hook started in the step, if there is one, gets to its own suspension without throwing. */
  datatype Step = Begin(call: nat, starts: bool) | Settle(call: nat, fulfils: bool, starts: bool)

  predicate Enabled(s: State, step: Step) {
    && step.call < |s.calls|
    && if step.Begin? then s.calls[step.call].Waiting? else s.calls[step.call].Pending?
  }

  /** Call `i` goes on to hook `k`, or returns if there is none. */
  function Continue(s: State, i: nat, k: nat, starts: bool): State
    requires i < |s.calls|
  {
    if k >= s.hooks then s.(calls := s.calls[i := Returned])
    else s.(started := s.started + [k], calls := s.calls[i := if starts then Pending(k) else Thrown])
  }

  function Apply(s: State, step: Step): State
    requires Enabled(s, step)
  {
    match step
    case Begin(i, starts) =>
      if s.ran then s.(calls := s.calls[i := Returned])
      else Continue(s.(ran := true), i, 0, starts)
    case Settle(i, fulfils, starts) =>
      if fulfils then Continue(s.(fulfilled := s.fulfilled + 1), i, s.calls[i].hook + 1, starts)
      else s.(calls := s.calls[i := Thrown])
  }

  /** What a beginning call does, and what a call does when the hook it waits for settles. */
  lemma StepMeans(s: State, step: Step)
    requires Enabled(s, step)
    ensures var t, i := Apply(s, step), step.call;
      && t.hooks == s.hooks && t.ran == (s.ran || step.Begin?)
      && (forall j :: 0 <= j < |s.calls| && j != i ==> t.calls[j] == s.calls[j])
      && (step.Begin? && s.ran ==> t.calls[i].Returned? && t.started == s.started && t.fulfilled == s.fulfilled)
      && (step.Settle? && !step.fulfils ==> t.calls[i].Thrown? && t.started == s.started && t.fulfilled == s.fulfilled)
      && (step.Settle? && step.fulfils ==> t.fulfilled == s.fulfilled + 1)
      && ((step.Begin? && !s.ran) || (step.Settle? && step.fulfils) ==>
          var next := if step.Begin? then 0 else s.calls[i].hook + 1;
          if next < s.hooks
          then t.started == s.started + [next] && t.calls[i] == (if step.starts then Pending(next) else Thrown)
          else t.started == s.started && t.calls[i].Returned?)
  {
  }

  predicate Runs(s: State, steps: seq<Step>)
    decreases |steps|
  {
    steps == [] || (Enabled(s, steps[0]) && Runs(Apply(s, steps[0]), steps[1..]))
  }

  function Exec(s: State, steps: seq<Step>): State
    requires Runs(s, steps)
    decreases |steps|
  {
    if steps == [] then s else Exec(Apply(s, steps[0]), steps[1..])
  }

  function Initial(hooks: nat, calls: nat): State {
    State(hooks, false, seq(calls, _ => Waiting), [], 0)
  }

  function UpTo(n: nat): seq<nat> {
    seq(n, i => i)
  }

  /** A call that holds the hooks: it waits for one, or one threw at it. */
  ghost predicate Holds(s: State, i: int) {
    0 <= i < |s.calls| && (s.calls[i].Pending? || s.calls[i].Thrown?)
  }

  ghost predicate Inv(s: State) {
    && s.fulfilled <= |s.started| <= s.hooks && s.started == UpTo(|s.started|)
    && (forall i, j :: Holds(s, i) && Holds(s, j) ==> i == j)
    && (forall i :: Holds(s, i) ==> |s.started| == s.fulfilled + 1 && (s.calls[i].Pending? ==> s.calls[i].hook == s.fulfilled))
    && (!s.ran ==> s.started == [] && forall i :: 0 <= i < |s.calls| ==> s.calls[i].Waiting?)
    && (s.ran ==> (s.fulfilled < s.hooks <==> exists i :: Holds(s, i)))
  }

  lemma StepInv(s: State, step: Step)
    requires Inv(s) && Enabled(s, step)
    ensures Inv(Apply(s, step))
  {
    var i, t := step.call, Apply(s, step);
    assert step.Settle? ==> Holds(s, i);
    assert forall j :: j != i ==> (Holds(t, j) <==> Holds(s, j));
    assert t.calls[i].Pending? || t.calls[i].Thrown? ==> Holds(t, i);
  }

  lemma {:induction false} ExecInv(s: State, steps: seq<Step>)
    requires Inv(s) && Runs(s, steps)
    ensures Inv(Exec(s, steps)) && Exec(s, steps).hooks == s.hooks
    decreases |steps|
  {
    if steps != [] {
      StepInv(s, steps[0]);
      ExecInv(Apply(s, steps[0]), steps[1..]);
    }
  }

  /**
   However calls overlap and whichever hooks fail, the hooks started are a first stretch of the
   layer order, each started once and only after the one before it fulfilled. Once a call has begun,
   they have all fulfilled unless some call still waits for one or one threw.
   */
  lemma HooksStartOnceInOrder(hooks: nat, calls: nat, steps: seq<Step>)
    requires Runs(Initial(hooks, calls), steps)
    ensures var s := Exec(Initial(hooks, calls), steps);
      && s.started <= UpTo(hooks) && |s.started| <= s.fulfilled + 1
      && (s.fulfilled == hooks ==> s.started == UpTo(hooks))
      && (s.fulfilled == hooks || (exists i :: Holds(s, i)) || forall i :: 0 <= i < |s.calls| ==> s.calls[i].Waiting?)
  {
    ExecInv(Initial(hooks, calls), steps);
    var s := Exec(Initial(hooks, calls), steps);
    assert !(exists i :: Holds(s, i)) && s.ran ==> s.fulfilled == hooks;
    FulfilledStarted(s);
  }

  lemma FulfilledStarted(s: State)
    requires Inv(s)
    ensures |s.started| <= s.fulfilled + 1
  {
    if s.ran && s.fulfilled < s.hooks {
      var i :| Holds(s, i);
    }
  }

  /**
   A call returns before every hook has fulfilled exactly when the flag was set when it began and
   another call was then still waiting for a hook or had been thrown at by one.
   */
  lemma ReturnsEarlyIff(hooks: nat, calls: nat, steps: seq<Step>, step: Step)
    requires Runs(Initial(hooks, calls), steps) && Enabled(Exec(Initial(hooks, calls), steps), step)
    requires Apply(Exec(Initial(hooks, calls), steps), step).calls[step.call].Returned?
    ensures var s := Exec(Initial(hooks, calls), steps);
      Apply(s, step).fulfilled < hooks <==> step.Begin? && s.ran && exists j :: Holds(s, j)
  {
    ExecInv(Initial(hooks, calls), steps);
    var s := Exec(Initial(hooks, calls), steps);
    assert step.Settle? ==> Holds(s, step.call);
  }

  /** A call that comes second may return while the first still waits for hook 0; that one has started. */
  lemma SecondCallDoesNotWait(hooks: nat)
    requires hooks > 0
    ensures exists steps ::
      && Runs(Initial(hooks, 2), steps)
      && Exec(Initial(hooks, 2), steps) == State(hooks, true, [Pending(0), Returned], [0], 0)
  {
    var s := Initial(hooks, 2);
    var steps := [Begin(0, true), Begin(1, true)];
    assert steps[1..][1..] == [] && steps[1..][0] == Begin(1, true);
    assert Runs(Apply(s, Begin(0, true)), steps[1..]);
    assert Runs(s, steps);
  }

  /** And once some call has begun, hook 0 has started, if there is one. */
  lemma FirstHookStartsAtOnce(hooks: nat, calls: nat, steps: seq<Step>)
    requires Runs(Initial(hooks, calls), steps) && hooks > 0
    ensures var s := Exec(Initial(hooks, calls), steps);
      s.started == [] <==> forall i :: 0 <= i < |s.calls| ==> s.calls[i].Waiting?
  {
    ExecInv(Initial(hooks, calls), steps);
    var s := Exec(Initial(hooks, calls), steps);
    AllWaitingUnlessRan(Initial(hooks, calls), steps);
    assert s.ran && s.fulfilled == 0 ==> exists i :: Holds(s, i);
  }

  lemma {:induction false} AllWaitingUnlessRan(s: State, steps: seq<Step>)
    requires Runs(s, steps) && Inv(s)
    requires s.ran ==> exists i :: 0 <= i < |s.calls| && !s.calls[i].Waiting?
    ensures var t := Exec(s, steps); t.ran ==> exists i :: 0 <= i < |t.calls| && !t.calls[i].Waiting?
    decreases |steps|
  {
    if steps != [] {
      var t := Apply(s, steps[0]);
      StepInv(s, steps[0]);
      assert !t.calls[steps[0].call].Waiting?;
      AllWaitingUnlessRan(t, steps[1..]);
    }
  }
}
