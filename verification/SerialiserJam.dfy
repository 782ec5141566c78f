/** The bound of 2N + 2 is sharp: for every capacity a run of one model id, whose submitters
    all keep listening, ends in a state from which nothing can move. */
module SerialiserJam {
  import opened Serialiser
  import opened SerialiserSafety
  import opened SerialiserProgress

  const ID := "m"

  /** One model, its worker in the given phase, q requests queued, r results waiting. */
  ghost predicate Shape(s: State, cap: nat, q: nat, r: nat, finished: bool) {
    && s.cap == cap && s.intake == [] && s.intakeOpen && !s.intakeNil && s.hand == AtSelect
    && s.data == map[ID := 0] && |s.workers| == 1
    && s.workers[0].open && |s.workers[0].queue| == q
    && (forall i | 0 <= i < q :: s.workers[0].queue[i].kind == Load)
    && (if finished then s.workers[0].phase.Finished? else s.workers[0].phase.Waiting?)
    && |s.results| == r && s.resultsOpen && !s.panicked
    && s.delivered == [] && (forall t | t in s.taken :: t.c in s.listening)
  }

  lemma Then(s: State, steps: seq<Step>, step: Step)
    requires Bound(s) && Legal(s, steps) && Enabled(Exec(s, steps), step)
    ensures Legal(s, steps + [step]) && Exec(s, steps + [step]) == Apply(Exec(s, steps), step)
  {
    var e := Exec(s, steps);
    BoundKept(e, step);
    assert [step][1..] == [];
    assert Legal(Apply(e, step), []) && Exec(Apply(e, step), []) == Apply(e, step);
    assert Legal(e, [step]);
    assert Exec(e, [step]) == Exec(Apply(e, step), [step][1..]);
    ExecConcat(s, steps, [step]);
  }

  lemma Submitted(s: State, cap: nat, q: nat, r: nat, finished: bool)
    requires Shape(s, cap, q, r, finished) && q < cap
    ensures Enabled(s, Submit(ID, Load))
    ensures var s1 := SubmitStep(s, ID, Load);
            && Bound(s1) && Enabled(s1, Take)
            && TakeStep(s1).taken == s.taken + [Ticket(ID, s.nextChan)]
            && Enabled(TakeStep(s1), Route)
            && Shape(RouteStep(TakeStep(s1)).(hand := AtSelect), cap, q + 1, r, finished)
            && RouteStep(TakeStep(s1)).hand == LoopEnd
  {
  }

  lemma Feed(s: State, before: seq<Step>, cap: nat, q: nat, r: nat, finished: bool) returns (steps: seq<Step>)
    requires Bound(s) && Legal(s, before) && Shape(Exec(s, before), cap, q, r, finished) && q < cap
    ensures Legal(s, steps) && Shape(Exec(s, steps), cap, q + 1, r, finished)
  {
    var e := Exec(s, before);
    Submitted(e, cap, q, r, finished);
    Then(s, before, Submit(ID, Load));
    Then(s, before + [Submit(ID, Load)], Take);
    Then(s, before + [Submit(ID, Load)] + [Take], Route);
    Then(s, before + [Submit(ID, Load)] + [Take] + [Route], EndLoop);
    steps := before + [Submit(ID, Load)] + [Take] + [Route] + [EndLoop];
  }

  lemma Serve(s: State, before: seq<Step>, cap: nat, q: nat, r: nat) returns (steps: seq<Step>)
    requires Bound(s) && Legal(s, before) && Shape(Exec(s, before), cap, q, r, false) && q > 0
    ensures Legal(s, steps) && Shape(Exec(s, steps), cap, q - 1, r, true)
  {
    Then(s, before, Fetch(0));
    Then(s, before + [Fetch(0)], Finish(0, Response(Load)));
    steps := before + [Fetch(0)] + [Finish(0, Response(Load))];
  }

  lemma HandIn(s: State, before: seq<Step>, cap: nat, q: nat, r: nat) returns (steps: seq<Step>)
    requires Bound(s) && Legal(s, before) && Shape(Exec(s, before), cap, q, r, true) && r < cap
    ensures Legal(s, steps) && Shape(Exec(s, steps), cap, q, r + 1, false)
  {
    Then(s, before, Report(0));
    steps := before + [Report(0)];
  }

  lemma First(cap: nat) returns (steps: seq<Step>)
    requires cap > 0
    ensures Legal(Init(cap), steps) && Shape(Exec(Init(cap), steps), cap, 1, 0, false)
  {
    var s := Init(cap);
    assert Legal(s, []) && Exec(s, []) == s;
    Then(s, [], Submit(ID, Load));
    Then(s, [] + [Submit(ID, Load)], Take);
    var e := Exec(s, [] + [Submit(ID, Load)] + [Take]);
    assert e.hand.Routing? && e.hand.w == 0 && e.workers == [Worker(ID, [], true, 1, Waiting)];
    Then(s, [] + [Submit(ID, Load)] + [Take], Route);
    Then(s, [] + [Submit(ID, Load)] + [Take] + [Route], EndLoop);
    steps := [] + [Submit(ID, Load)] + [Take] + [Route] + [EndLoop];
  }

  /** Fill the results channel, leaving the worker with one more result. */
  lemma {:induction false} FillResults(cap: nat, r: nat) returns (steps: seq<Step>)
    requires cap > 0 && r <= cap
    ensures Legal(Init(cap), steps) && Shape(Exec(Init(cap), steps), cap, 0, r, true)
  {
    if r == 0 {
      steps := First(cap);
      steps := Serve(Init(cap), steps, cap, 1, 0);
    } else {
      steps := FillResults(cap, r - 1);
      steps := HandIn(Init(cap), steps, cap, 0, r - 1);
      steps := Feed(Init(cap), steps, cap, 0, r, false);
      steps := Serve(Init(cap), steps, cap, 1, r);
    }
  }

  lemma {:induction false} FillQueue(cap: nat, q: nat) returns (steps: seq<Step>)
    requires cap > 0 && q <= cap
    ensures Legal(Init(cap), steps) && Shape(Exec(Init(cap), steps), cap, q, cap, true)
  {
    if q == 0 {
      steps := FillResults(cap, cap);
    } else {
      steps := FillQueue(cap, q - 1);
      steps := Feed(Init(cap), steps, cap, q - 1, cap, true);
    }
  }

  lemma LastTake(s: State, cap: nat)
    requires cap > 0 && Shape(s, cap, cap, cap, true)
    ensures Enabled(s, Submit(ID, Load)) && Bound(s)
    ensures var s1 := SubmitStep(s, ID, Load);
            && Bound(s1) && Enabled(s1, Take) && Jammed(TakeStep(s1))
            && TakeStep(s1).cap == cap
            && TakeStep(s1).delivered == [] && TakeStep(s1).intake == [] && |TakeStep(s1).workers| == 1
            && AllListening(TakeStep(s1))
  {
    var s2 := TakeStep(SubmitStep(s, ID, Load));
    assert |s2.workers| == 1;
    assert Accepted(s2) == s.taken + [Ticket(ID, s.nextChan)];
  }

  lemma OneWorkerHeld(ws: seq<Worker>)
    requires |ws| == 1
    ensures Sum(ws, Held) == Held(ws[0])
  {
    assert ws[..0] == [];
    assert Sum(ws[..0], Held) == 0;
  }

  /** 2N + 2 unanswered requests can stop the serialiser for good, although every submitter
      listens and every load and unload returns. */
  lemma JamReachable(cap: nat) returns (steps: seq<Step>)
    requires cap > 0
    ensures Legal(Init(cap), steps)
    ensures var s := Exec(Init(cap), steps);
            && AllListening(s) && s.delivered == [] && |s.taken| == 2 * cap + 2
            && Jammed(s) && (forall step | Internal(step) :: !Enabled(s, step))
  {
    var before := FillQueue(cap, cap);
    var e := Exec(Init(cap), before);
    LastTake(e, cap);
    Then(Init(cap), before, Submit(ID, Load));
    Then(Init(cap), before + [Submit(ID, Load)], Take);
    steps := before + [Submit(ID, Load)] + [Take];
    ReachableSound(cap, steps);
    OneWorkerHeld(Exec(Init(cap), steps).workers);
    StoppedQuiet(Exec(Init(cap), steps));
  }

  /** With the channel length of the source, 52 requests for one model id suffice. */
  lemma JamAtSourceLength() returns (steps: seq<Step>)
    ensures Legal(Init(STATE_MANAGER_CHANNEL_LENGTH), steps)
    ensures var s := Exec(Init(STATE_MANAGER_CHANNEL_LENGTH), steps);
            AllListening(s) && |s.taken| == 52 && s.delivered == [] && Quiet(s)
  {
    steps := JamReachable(STATE_MANAGER_CHANNEL_LENGTH);
    var s := Exec(Init(STATE_MANAGER_CHANNEL_LENGTH), steps);
    ReachableSound(STATE_MANAGER_CHANNEL_LENGTH, steps);
    assert |s.taken| == |s.delivered| + InFlight(s);
  }
}
