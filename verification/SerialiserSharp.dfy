/** Both bounds at once: a jam with 2N + 2 requests in all, N + 2 of one model and N of another. */
module SerialiserSharp {
  import opened Serialiser
  import opened SerialiserSafety
  import opened SerialiserProgress
  import opened SerialiserJam

  const OTHER := "n"

  /** The results channel is full of results of ID, whose worker waits; the worker of OTHER is in
      the given phase with q requests queued. */
  ghost predicate Two(s: State, cap: nat, q: nat, finished: bool) {
    && s.cap == cap && s.intake == [] && s.intakeOpen && !s.intakeNil && s.hand == AtSelect
    && s.data == map[ID := 0, OTHER := 1] && |s.workers| == 2
    && s.workers[0].open && s.workers[0].queue == [] && s.workers[0].phase.Waiting?
    && s.workers[1].open && |s.workers[1].queue| == q
    && (forall i | 0 <= i < q :: s.workers[1].queue[i].kind == Load)
    && (if finished then s.workers[1].phase.Finished? else s.workers[1].phase.Waiting?)
    && |s.results| == cap && Sel(ResTickets(s.results), OTHER) == [] && s.resultsOpen && !s.panicked
    && s.delivered == [] && (forall t | t in s.taken :: t.c in s.listening)
  }

  /** One request, from its submission into the queue of its worker. */
  lemma IntoRun(s: State, before: seq<Step>, m: string) returns (steps: seq<Step>)
    requires Bound(s) && Legal(s, before)
    requires var e := Exec(s, before);
             && Enabled(e, Submit(m, Load)) && e.intake == [] && e.hand == AtSelect && !e.intakeNil
             && Bound(SubmitStep(e, m, Load)) && var e2 := TakeStep(SubmitStep(e, m, Load));
             && Bound(e2) && Enabled(e2, Route) && e2.workers[e2.hand.w].open
    ensures Legal(s, steps)
    ensures Exec(s, steps) == EndStep(RouteStep(TakeStep(SubmitStep(Exec(s, before), m, Load))))
  {
    Then(s, before, Submit(m, Load));
    Then(s, before + [Submit(m, Load)], Take);
    Then(s, before + [Submit(m, Load)] + [Take], Route);
    Then(s, before + [Submit(m, Load)] + [Take] + [Route], EndLoop);
    steps := before + [Submit(m, Load)] + [Take] + [Route] + [EndLoop];
  }

  lemma NoneOfOther(cap: nat, steps: seq<Step>)
    requires Legal(Init(cap), steps) && OTHER !in Exec(Init(cap), steps).data
    ensures Sel(ResTickets(Exec(Init(cap), steps).results), OTHER) == []
  {
    ReachableInv(cap, steps);
    assert Good(ViewOf(Exec(Init(cap), steps), OTHER));
  }

  lemma Opened(e: State, cap: nat)
    requires cap > 0 && Shape(e, cap, 0, cap, false) && Sel(ResTickets(e.results), OTHER) == []
    ensures Enabled(e, Submit(OTHER, Load)) && Bound(SubmitStep(e, OTHER, Load))
    ensures var e2 := TakeStep(SubmitStep(e, OTHER, Load));
            && Bound(e2) && Enabled(e2, Route) && e2.workers[e2.hand.w].open
            && Two(EndStep(RouteStep(e2)), cap, 1, false)
  {
    var e2 := TakeStep(SubmitStep(e, OTHER, Load));
    assert e2.data == map[ID := 0, OTHER := 1] && e2.hand.w == 1 && |e2.workers| == 2;
    assert e2.workers[1] == Worker(OTHER, [], true, 1, Waiting) && e2.workers[0] == e.workers[0];
  }

  lemma Fed(e: State, cap: nat, q: nat)
    requires Two(e, cap, q, true) && q < cap
    ensures Enabled(e, Submit(OTHER, Load)) && Bound(SubmitStep(e, OTHER, Load))
    ensures var e2 := TakeStep(SubmitStep(e, OTHER, Load));
            && Bound(e2) && Enabled(e2, Route) && e2.workers[e2.hand.w].open
            && Two(EndStep(RouteStep(e2)), cap, q + 1, true)
  {
    var e2 := TakeStep(SubmitStep(e, OTHER, Load));
    assert e2.data == e.data && e2.hand.w == 1 && |e2.workers| == 2;
  }

  lemma Served(cap: nat, before: seq<Step>) returns (steps: seq<Step>)
    requires Legal(Init(cap), before) && Two(Exec(Init(cap), before), cap, 1, false)
    ensures Legal(Init(cap), steps) && Two(Exec(Init(cap), steps), cap, 0, true)
  {
    Then(Init(cap), before, Fetch(1));
    Then(Init(cap), before + [Fetch(1)], Finish(1, Response(Load)));
    steps := before + [Fetch(1)] + [Finish(1, Response(Load))];
  }

  lemma {:induction false} FillOther(cap: nat, q: nat) returns (steps: seq<Step>)
    requires cap > 0 && q <= cap
    ensures Legal(Init(cap), steps) && Two(Exec(Init(cap), steps), cap, q, true)
  {
    if q == 0 {
      steps := FillResults(cap, cap - 1);
      steps := HandIn(Init(cap), steps, cap, 0, cap - 1);
      NoneOfOther(cap, steps);
      Opened(Exec(Init(cap), steps), cap);
      steps := IntoRun(Init(cap), steps, OTHER);
      steps := Served(cap, steps);
    } else {
      steps := FillOther(cap, q - 1);
      Fed(Exec(Init(cap), steps), cap, q - 1);
      steps := IntoRun(Init(cap), steps, OTHER);
    }
  }

  lemma Ready(e: State, cap: nat)
    requires cap > 0 && Two(e, cap, cap, true)
    ensures Enabled(e, Submit(OTHER, Load)) && Bound(SubmitStep(e, OTHER, Load))
    ensures var s1 := SubmitStep(e, OTHER, Load);
            && Enabled(s1, Take) && Jammed(TakeStep(s1)) && TakeStep(s1).intake == []
            && TakeStep(s1).hand.req.ticket.model == OTHER && TakeStep(s1).data == e.data
            && TakeStep(s1).workers[0].queue == [] && TakeStep(s1).workers[0].phase.Waiting?
            && |TakeStep(s1).workers| == 2 && TakeStep(s1).results == e.results
            && TakeStep(s1).delivered == [] && TakeStep(s1).cap == cap
            && AllListening(TakeStep(s1))
  {
    var s2 := TakeStep(SubmitStep(e, OTHER, Load));
    assert s2.hand.w == 1 && |s2.workers| == 2;
    assert forall x | x in s2.workers :: x == s2.workers[0] || x == s2.workers[1];
    assert Accepted(s2) == e.taken + [Ticket(OTHER, e.nextChan)];
  }

  lemma {:induction false} SelShort(ts: seq<Ticket>, m: string)
    ensures |Sel(ts, m)| <= |ts|
    decreases |ts|
  {
    if ts != [] {
      SelShort(ts[..|ts| - 1], m);
    }
  }

  /** The requests of each model in such a jam. */
  lemma JamWaits(s: State, cap: nat, m: string)
    requires Inv(s) && Jammed(s) && s.cap == cap && s.hand.req.ticket.model == OTHER
    requires s.data == map[ID := 0, OTHER := 1] && |s.workers| == 2
    requires s.workers[0].queue == [] && s.workers[0].phase.Waiting?
    requires Sel(ResTickets(s.results), OTHER) == []
    ensures if m == OTHER then Waits(s.taken, s, m) == cap + 2 else Waits(s.taken, s, m) <= cap
  {
    var v := ViewOf(s, m);
    assert Good(v);
    Prefixes(v);
    SelShort(ResTickets(s.results), m);
  }

  lemma TwoHeld(ws: seq<Worker>)
    requires |ws| == 2
    ensures Sum(ws, Held) == Held(ws[0]) + Held(ws[1])
  {
    OneWorkerHeld(ws[..1]);
  }

  /** No smaller number would do in either bound: with exactly 2N + 2 requests, N + 2 of one model
      and at most N of any other, and every submitter listening, the serialiser can stop for good. */
  lemma JamAtBothBounds(cap: nat) returns (steps: seq<Step>)
    requires cap > 0
    ensures Legal(Init(cap), steps)
    ensures var s := Exec(Init(cap), steps);
            && AllListening(s) && Quiet(s) && s.delivered == [] && |s.taken| == 2 * cap + 2
            && Waits(s.taken, s, OTHER) == cap + 2
            && (forall m | m != OTHER :: Waits(s.taken, s, m) <= cap)
  {
    var before := FillOther(cap, cap);
    var e := Exec(Init(cap), before);
    Ready(e, cap);
    Then(Init(cap), before, Submit(OTHER, Load));
    Then(Init(cap), before + [Submit(OTHER, Load)], Take);
    steps := before + [Submit(OTHER, Load)] + [Take];
    var s := Exec(Init(cap), steps);
    ReachableSound(cap, steps);
    StoppedQuiet(s);
    TwoHeld(s.workers);
    forall m: string
      ensures if m == OTHER then Waits(s.taken, s, m) == cap + 2 else Waits(s.taken, s, m) <= cap
    {
      JamWaits(s, cap, m);
    }
  }
}
