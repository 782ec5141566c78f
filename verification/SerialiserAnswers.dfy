/** What a submitter receives is how the call for its own request ended. */
module SerialiserAnswers {
  import opened Serialiser
  import opened SerialiserSafety

  /** A call that ended. */
  datatype Call = Call(req: Request, outcome: Outcome)

  /** The calls that end in a run, in order. */
  function Calls(s: State, steps: seq<Step>): seq<Call>
    requires Bound(s) && Legal(s, steps)
    decreases |steps|
  {
    if steps == [] then []
    else
      BoundKept(s, steps[0]);
      CallOf(s, steps[0]) + Calls(Apply(s, steps[0]), steps[1..])
  }

  function CallOf(s: State, step: Step): seq<Call>
    requires Enabled(s, step)
  {
    match step
    case Finish(w, outcome) => [Call(s.workers[w].phase.req, outcome)]
    case _ => []
  }

  /** The result says how one of the calls ended, on the channel of that call's request. */
  ghost predicate Reports(res: Result, calls: seq<Call>) {
    exists i :: 0 <= i < |calls|
             && calls[i].req.ticket == res.ticket && calls[i].outcome == res.outcome
             && Fits(calls[i].req.kind, res.outcome)
  }

  lemma StillReports(res: Result, calls: seq<Call>, more: seq<Call>)
    requires Reports(res, calls)
    ensures Reports(res, calls + more)
  {
    var i :| 0 <= i < |calls|
             && calls[i].req.ticket == res.ticket && calls[i].outcome == res.outcome
             && Fits(calls[i].req.kind, res.outcome);
    assert (calls + more)[i] == calls[i];
  }

  ghost predicate HandReports(h: Hand, calls: seq<Call>) {
    (h.Answering? || h.Settling?) ==> Reports(h.res, calls)
  }

  ghost predicate AllReport(rs: seq<Result>, calls: seq<Call>) {
    forall i | 0 <= i < |rs| :: Reports(rs[i], calls)
  }

  ghost predicate WorkersReport(ws: seq<Worker>, calls: seq<Call>) {
    forall i | 0 <= i < |ws| && ws[i].phase.Finished? :: Reports(ws[i].phase.res, calls)
  }

  /** Every result on its way to a submitter reports a call. */
  ghost predicate Carried(s: State, calls: seq<Call>) {
    HandReports(s.hand, calls) && AllReport(s.results, calls) && WorkersReport(s.workers, calls)
  }

  lemma StillCarried(s: State, calls: seq<Call>, more: seq<Call>)
    requires Carried(s, calls)
    ensures Carried(s, calls + more)
  {
    if s.hand.Answering? || s.hand.Settling? {
      StillReports(s.hand.res, calls, more);
    }
    forall i | 0 <= i < |s.results| ensures Reports(s.results[i], calls + more) {
      StillReports(s.results[i], calls, more);
    }
    forall i | 0 <= i < |s.workers| && s.workers[i].phase.Finished?
      ensures Reports(s.workers[i].phase.res, calls + more)
    {
      StillReports(s.workers[i].phase.res, calls, more);
    }
  }

  /** One worker changes, and reports a call if it holds a result. */
  lemma OneWorker(ws: seq<Worker>, w: nat, x: Worker, calls: seq<Call>)
    requires WorkersReport(ws, calls) && w < |ws| && (x.phase.Finished? ==> Reports(x.phase.res, calls))
    ensures WorkersReport(ws[w := x], calls)
  {
  }

  lemma FinishCarried(s: State, w: nat, outcome: Outcome, calls: seq<Call>)
    requires Carried(s, calls) && Enabled(s, Finish(w, outcome))
    ensures Carried(FinishStep(s, w, outcome), calls + CallOf(s, Finish(w, outcome)))
  {
    var all := calls + CallOf(s, Finish(w, outcome));
    var s' := FinishStep(s, w, outcome);
    StillCarried(s, calls, CallOf(s, Finish(w, outcome)));
    assert all[|calls|] == Call(s.workers[w].phase.req, outcome);
    assert Reports(s'.workers[w].phase.res, all);
    OneWorker(s.workers, w, s'.workers[w], all);
  }

  lemma StepCarried(s: State, step: Step, calls: seq<Call>)
    requires Inv(s) && Enabled(s, step) && Carried(s, calls)
    ensures Carried(Apply(s, step), calls + CallOf(s, step))
  {
    var s' := Apply(s, step);
    assert !step.Finish? ==> calls + CallOf(s, step) == calls;
    match step
    case Finish(w, outcome) => FinishCarried(s, w, outcome, calls);
    case Take =>
    case Route => OneWorker(s.workers, s.hand.w, s'.workers[s.hand.w], calls);
    case Settle =>
      assert Good(ViewOf(s, s.hand.res.ticket.model));
      SettleLive(s);
      var w := s.data[s.hand.res.ticket.model];
      OneWorker(s.workers, w, s'.workers[w], calls);
    case Fetch(w) => OneWorker(s.workers, w, s'.workers[w], calls);
    case Report(w) => OneWorker(s.workers, w, s'.workers[w], calls);
    case Leave(w) => OneWorker(s.workers, w, s'.workers[w], calls);
    case _ =>
  }

  lemma {:induction false} RunCarried(s: State, steps: seq<Step>, calls: seq<Call>)
    requires Inv(s) && Legal(s, steps) && Carried(s, calls)
    ensures Carried(Exec(s, steps), calls + Calls(s, steps))
    decreases |steps|
  {
    if steps == [] {
      assert calls + [] == calls;
    } else {
      StepCarried(s, steps[0], calls);
      StepInv(s, steps[0]);
      var more := CallOf(s, steps[0]);
      RunCarried(Apply(s, steps[0]), steps[1..], calls + more);
      var rest := Calls(Apply(s, steps[0]), steps[1..]);
      assert (calls + more) + rest == calls + (more + rest);
    }
  }

  /* ---------- what was submitted, read off the steps alone ---------- */

  /** The k-th submission of a run asks on channel k. */
  function Submissions(steps: seq<Step>): seq<Request>
    decreases |steps|
  {
    if steps == [] then []
    else
      var before := Submissions(steps[..|steps| - 1]);
      match steps[|steps| - 1]
      case Submit(model, kind) => before + [Request(Ticket(model, |before|), kind)]
      case _ => before
  }

  lemma SubmissionsMore(steps: seq<Step>, step: Step)
    ensures Submissions(steps + [step]) ==
              if step.Submit? then
                Submissions(steps) + [Request(Ticket(step.model, |Submissions(steps)|), step.kind)]
              else Submissions(steps)
  {
    assert (steps + [step])[..|steps + [step]| - 1] == steps;
  }

  /** The request is the submission on its channel, model and kind included. */
  predicate Submitted(req: Request, subs: seq<Request>) {
    req.ticket.c < |subs| && subs[req.ticket.c] == req
  }

  ghost predicate AllSubmitted(q: seq<Request>, subs: seq<Request>) {
    forall i | 0 <= i < |q| :: Submitted(q[i], subs)
  }

  ghost predicate WorkerHolds(x: Worker, subs: seq<Request>) {
    AllSubmitted(x.queue, subs) && (x.phase.Working? ==> Submitted(x.phase.req, subs))
  }

  ghost predicate WorkersHold(ws: seq<Worker>, subs: seq<Request>) {
    forall i | 0 <= i < |ws| :: WorkerHolds(ws[i], subs)
  }

  /** Wherever a request is, it is as it was submitted. */
  ghost predicate Unaltered(s: State, subs: seq<Request>) {
    && s.nextChan == |subs|
    && AllSubmitted(s.intake, subs)
    && (s.hand.Routing? ==> Submitted(s.hand.req, subs))
    && WorkersHold(s.workers, subs)
  }

  lemma HoldsOne(ws: seq<Worker>, w: nat, x: Worker, subs: seq<Request>)
    requires WorkersHold(ws, subs) && w < |ws| && WorkerHolds(x, subs)
    ensures WorkersHold(ws[w := x], subs)
  {
  }

  lemma SubmitUnaltered(s: State, model: string, kind: Kind, subs: seq<Request>)
    requires Unaltered(s, subs)
    ensures Unaltered(SubmitStep(s, model, kind), subs + [Request(Ticket(model, |subs|), kind)])
  {
    var more := subs + [Request(Ticket(model, |subs|), kind)];
    assert more[|subs|] == Request(Ticket(model, |subs|), kind);
    forall i | 0 <= i < |s.workers| ensures WorkerHolds(s.workers[i], more) {
      assert WorkerHolds(s.workers[i], subs);
    }
  }

  lemma TakeUnaltered(s: State, subs: seq<Request>)
    requires Structure(s) && s.intake != [] && Unaltered(s, subs)
    ensures Unaltered(TakeStep(s), subs)
  {
    var m := s.intake[0].ticket.model;
    if m in s.data {
      HoldsOne(s.workers, s.data[m], TakeStep(s).workers[s.data[m]], subs);
    } else {
      assert WorkerHolds(Worker(m, [], true, 1, Waiting), subs);
    }
  }

  lemma StepUnaltered(s: State, step: Step, subs: seq<Request>)
    requires Inv(s) && Enabled(s, step) && Unaltered(s, subs)
    ensures Unaltered(Apply(s, step),
                      if step.Submit? then subs + [Request(Ticket(step.model, |subs|), step.kind)] else subs)
  {
    var s' := Apply(s, step);
    match step
    case Submit(model, kind) => SubmitUnaltered(s, model, kind, subs);
    case Take => TakeUnaltered(s, subs);
    case Route => HoldsOne(s.workers, s.hand.w, s'.workers[s.hand.w], subs);
    case Settle =>
      assert Good(ViewOf(s, s.hand.res.ticket.model));
      SettleLive(s);
      var w := s.data[s.hand.res.ticket.model];
      HoldsOne(s.workers, w, s'.workers[w], subs);
    case Fetch(w) => HoldsOne(s.workers, w, s'.workers[w], subs);
    case Finish(w, _) => HoldsOne(s.workers, w, s'.workers[w], subs);
    case Report(w) => HoldsOne(s.workers, w, s'.workers[w], subs);
    case Leave(w) => HoldsOne(s.workers, w, s'.workers[w], subs);
    case _ =>
  }

  /** From a state that a run before led to, every call that ends was made for a request as it was
      submitted, before or since. */
  lemma {:induction false} CallsSubmitted(before: seq<Step>, s: State, steps: seq<Step>)
    requires Inv(s) && Legal(s, steps) && Unaltered(s, Submissions(before))
    ensures Submissions(before) <= Submissions(before + steps)
    ensures forall i | 0 <= i < |Calls(s, steps)| :: Submitted(Calls(s, steps)[i].req, Submissions(before + steps))
    decreases |steps|
  {
    if steps == [] {
      assert before + steps == before;
    } else {
      var step, rest := steps[0], steps[1..];
      StepUnaltered(s, step, Submissions(before));
      SubmissionsMore(before, step);
      StepInv(s, step);
      CallsSubmitted(before + [step], Apply(s, step), rest);
      assert before + steps == (before + [step]) + rest;
      if step.Finish? {
        assert WorkerHolds(s.workers[step.w], Submissions(before));
      }
    }
  }

  /** Every call that ends in a run was made for a request of the model and of the kind that were
      submitted on its channel. */
  lemma {:induction false} CallsAreSubmissions(cap: nat, steps: seq<Step>)
    requires Legal(Init(cap), steps)
    ensures forall i | 0 <= i < |Calls(Init(cap), steps)| ::
              var req := Calls(Init(cap), steps)[i].req;
              req.ticket.c < |Submissions(steps)| && req == Submissions(steps)[req.ticket.c]
  {
    InitInv(cap);
    assert [] + steps == steps;
    CallsSubmitted([], Init(cap), steps);
  }

  /** The result that a submitter is about to receive is how the call for its own request ended:
      the outcome is that call's, made for what was submitted on this channel; a response is of
      the kind that was asked for, and an unrecognised request gets none. */
  lemma {:induction false} AnswerIsItsOwn(cap: nat, steps: seq<Step>) returns (call: Call)
    requires Legal(Init(cap), steps) && Exec(Init(cap), steps).hand.Answering?
    ensures var res := Exec(Init(cap), steps).hand.res;
            && call in Calls(Init(cap), steps)
            && call.req.ticket == res.ticket && call.outcome == res.outcome
            && res.ticket.c < |Submissions(steps)| && call.req == Submissions(steps)[res.ticket.c]
            && (res.outcome.Response? ==> Submissions(steps)[res.ticket.c].kind == res.outcome.kind)
            && (Submissions(steps)[res.ticket.c].kind.Unrecognised? ==> res.outcome.Failed?)
  {
    InitInv(cap);
    RunCarried(Init(cap), steps, []);
    CallsAreSubmissions(cap, steps);
    var calls := Calls(Init(cap), steps);
    assert [] + calls == calls;
    var res := Exec(Init(cap), steps).hand.res;
    var i :| 0 <= i < |calls|
             && calls[i].req.ticket == res.ticket && calls[i].outcome == res.outcome
             && Fits(calls[i].req.kind, res.outcome);
    call := calls[i];
  }
}
