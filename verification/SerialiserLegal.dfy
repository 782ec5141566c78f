/** When each operation can happen after a run, from what the run did to the channels: a send
    waits only while its channel is full, a receive only while it is empty. */
module SerialiserLegal {
  import opened Serialiser
  import opened SerialiserSafety
  import opened SerialiserProgress
  import opened SerialiserJam

  function Count(steps: seq<Step>, p: Step -> bool): nat {
    if steps == [] then 0 else (if p(steps[0]) then 1 else 0) + Count(steps[1..], p)
  }

  function Submits(steps: seq<Step>): nat {
    Count(steps, (step: Step) => step.Submit?)
  }

  function Takes(steps: seq<Step>): nat {
    Count(steps, (step: Step) => step.Take?)
  }

  function Reports(steps: seq<Step>): nat {
    Count(steps, (step: Step) => step.Report?)
  }

  function Collects(steps: seq<Step>): nat {
    Count(steps, (step: Step) => step.Collect?)
  }

  /** The state of the shared channels after one more step. */
  lemma StepChannels(s: State, step: Step)
    requires Inv(s) && Enabled(s, step)
    ensures var s' := Apply(s, step);
            && |s'.intake| == |s.intake| + (if step.Submit? then 1 else 0) - (if step.Take? then 1 else 0)
            && |s'.results| == |s.results| + (if step.Report? then 1 else 0) - (if step.Collect? then 1 else 0)
            && s'.nextChan == s.nextChan + (if step.Submit? then 1 else 0)
            && (s'.intakeOpen <==> s.intakeOpen && step != CloseIntake)
            && (s'.intakeNil <==> s.intakeNil || step == SeeClosed)
  {
    if step.Report? {
      assert WorkerOk(s.data, s.workers[step.w], step.w);
    }
  }

  lemma {:induction false} RunChannels(s: State, steps: seq<Step>)
    requires Inv(s) && Legal(s, steps)
    ensures var e := Exec(s, steps);
            && |e.intake| == |s.intake| + Submits(steps) - Takes(steps)
            && |e.results| == |s.results| + Reports(steps) - Collects(steps)
            && e.nextChan == s.nextChan + Submits(steps)
            && (e.intakeOpen <==> s.intakeOpen && CloseIntake !in steps)
            && (e.intakeNil <==> s.intakeNil || SeeClosed in steps)
    decreases |steps|
  {
    if steps != [] {
      StepChannels(s, steps[0]);
      StepInv(s, steps[0]);
      RunChannels(Apply(s, steps[0]), steps[1..]);
      assert steps == [steps[0]] + steps[1..];
    }
  }

  predicate Delivered(s: State, c: nat) {
    exists i :: 0 <= i < |s.delivered| && s.delivered[i].c == c
  }

  /** A submitter listens from its submission until it gives up or is answered. */
  ghost predicate Listens(before: seq<Step>, s: State, c: nat) {
    && (c in s.listening <==> c < s.nextChan && Abandon(c) !in before && !Delivered(s, c))
    && (Abandon(c) in before || Delivered(s, c) ==> c < s.nextChan)
  }

  lemma DeliveredMore(s: State, c: nat)
    requires s.hand.Answering?
    ensures Delivered(DeliverStep(s), c) <==> Delivered(s, c) || s.hand.res.ticket.c == c
  {
    var s' := DeliverStep(s);
    if Delivered(s, c) {
      var i :| 0 <= i < |s.delivered| && s.delivered[i].c == c;
      assert s'.delivered[i].c == c;
    }
    assert s'.delivered[|s.delivered|] == s.hand.res.ticket;
  }

  lemma StepListens(before: seq<Step>, s: State, step: Step, c: nat)
    requires Inv(s) && Enabled(s, step) && Listens(before, s, c)
    ensures Listens(before + [step], Apply(s, step), c)
  {
    if step.Deliver? {
      DeliveredMore(s, c);
      assert s.hand.res.ticket.c < s.nextChan;
    } else {
      assert Apply(s, step).delivered == s.delivered;
    }
  }

  lemma {:induction false} RunListens(before: seq<Step>, s: State, steps: seq<Step>, c: nat)
    requires Inv(s) && Legal(s, steps) && Listens(before, s, c)
    ensures Listens(before + steps, Exec(s, steps), c)
    decreases |steps|
  {
    if steps == [] {
      assert before + steps == before;
    } else {
      StepListens(before, s, steps[0], c);
      StepInv(s, steps[0]);
      RunListens(before + [steps[0]], Apply(s, steps[0]), steps[1..], c);
      assert before + steps == (before + [steps[0]]) + steps[1..];
    }
  }

  /* ---------- when one more step is legal ---------- */

  lemma {:induction false} NextLegal(s: State, steps: seq<Step>, step: Step)
    requires Bound(s) && Legal(s, steps)
    ensures Legal(s, steps + [step]) <==> Enabled(Exec(s, steps), step)
    decreases |steps|
  {
    if steps == [] {
      assert steps + [step] == [step] && [step][1..] == [];
      if Enabled(s, step) {
        BoundKept(s, step);
        assert Legal(Apply(s, step), []);
      }
    } else {
      assert (steps + [step])[0] == steps[0] && (steps + [step])[1..] == steps[1..] + [step];
      BoundKept(s, steps[0]);
      NextLegal(Apply(s, steps[0]), steps[1..], step);
    }
  }

  /** A request is accepted exactly while the intake is open and not full. */
  lemma {:induction false} SubmitLegal(cap: nat, steps: seq<Step>, model: string, kind: Kind)
    requires Legal(Init(cap), steps)
    ensures Legal(Init(cap), steps + [Submit(model, kind)])
            <==> CloseIntake !in steps && Submits(steps) - Takes(steps) < cap
  {
    InitInv(cap);
    RunChannels(Init(cap), steps);
    ReachableSound(cap, steps);
    NextLegal(Init(cap), steps, Submit(model, kind));
  }

  lemma {:induction false} OnlySubmits(steps: seq<Step>)
    requires forall i | 0 <= i < |steps| :: steps[i].Submit?
    ensures Submits(steps) == |steps| && Takes(steps) == 0 && CloseIntake !in steps
    decreases |steps|
  {
    if steps != [] {
      OnlySubmits(steps[1..]);
      assert steps == [steps[0]] + steps[1..];
    }
  }

  /** With nobody at work, as many requests are accepted as the intake has room for, and no more. */
  lemma {:induction false} CapSubmits(cap: nat, steps: seq<Step>)
    requires forall i | 0 <= i < |steps| :: steps[i].Submit?
    ensures Legal(Init(cap), steps) <==> |steps| <= cap
    decreases |steps|
  {
    if steps != [] {
      var front, last := steps[..|steps| - 1], steps[|steps| - 1];
      assert steps == front + [last];
      CapSubmits(cap, front);
      OnlySubmits(front);
      LegalFront(Init(cap), front, last);
      if Legal(Init(cap), front) {
        SubmitLegal(cap, front, last.model, last.kind);
      }
    }
  }

  lemma {:induction false} LegalFront(s: State, front: seq<Step>, last: Step)
    requires Bound(s)
    ensures Legal(s, front + [last]) ==> Legal(s, front)
    decreases |front|
  {
    if front != [] && Legal(s, front + [last]) {
      assert (front + [last])[0] == front[0] && (front + [last])[1..] == front[1..] + [last];
      BoundKept(s, front[0]);
      LegalFront(Apply(s, front[0]), front[1..], last);
    }
  }

  /** The dispatcher's operations: it takes and collects whatever there is when it comes to the
      select, waits for a full queue, and delivers unless the submitter gave up. */
  lemma {:induction false} DispatcherLegal(cap: nat, steps: seq<Step>, step: Step)
    requires Legal(Init(cap), steps)
    ensures var s := Exec(Init(cap), steps);
            Legal(Init(cap), steps + [step]) <==>
              match step
              case Take => s.hand.AtSelect? && SeeClosed !in steps && Takes(steps) < Submits(steps)
              case SeeClosed =>
                && s.hand.AtSelect? && SeeClosed !in steps
                && CloseIntake in steps && Takes(steps) == Submits(steps)
              case Collect => s.hand.AtSelect? && Collects(steps) < Reports(steps)
              case Route => s.hand.Routing? && s.hand.w < |s.workers| && |s.workers[s.hand.w].queue| < cap
              case Deliver => s.hand.Answering? && Abandon(s.hand.res.ticket.c) !in steps
              case Settle => s.hand.Settling?
              case EndLoop => s.hand.LoopEnd?
              case _ => Legal(Init(cap), steps + [step])
  {
    InitInv(cap);
    var s := Exec(Init(cap), steps);
    NextLegal(Init(cap), steps, step);
    RunChannels(Init(cap), steps);
    ReachableSound(cap, steps);
    if step.Route? && s.hand.Routing? {
      assert WorkerOk(s.data, s.workers[s.hand.w], s.hand.w);
    }
    if step.Deliver? && s.hand.Answering? {
      AnswerChannel(cap, steps);
    }
  }

  lemma AnswerChannel(cap: nat, steps: seq<Step>)
    requires Legal(Init(cap), steps) && Exec(Init(cap), steps).hand.Answering?
    ensures var s := Exec(Init(cap), steps);
            s.hand.res.ticket.c in s.listening <==> Abandon(s.hand.res.ticket.c) !in steps
  {
    InitInv(cap);
    var s := Exec(Init(cap), steps);
    var t := s.hand.res.ticket;
    assert Listens([], Init(cap), t.c);
    RunListens([], Init(cap), steps, t.c);
    assert [] + steps == steps;
    ReachableInv(cap, steps);
    AnswerIsNew(s);
    TakenAccepted(s, t);
    forall i | 0 <= i < |s.delivered| ensures s.delivered[i].c != t.c {
      DeliveredWasTaken(s, s.delivered[i]);
      TakenAccepted(s, s.delivered[i]);
      if s.delivered[i].c == t.c {
        SameChannelSameTicket(s, s.delivered[i], t);
      }
    }
  }

  /** The workers' operations: any outcome that the kind of the request allows can come, and a
      result waits only while the results channel is full. */
  lemma {:induction false} WorkerLegal(cap: nat, steps: seq<Step>, step: Step)
    requires Legal(Init(cap), steps)
    requires step.Fetch? || step.Finish? || step.Report? || step.Leave?
    ensures var s := Exec(Init(cap), steps);
            Legal(Init(cap), steps + [step]) <==>
              && step.w < |s.workers|
              && var x := s.workers[step.w];
                 match step
                 case Fetch(_) => x.phase.Waiting? && x.queue != []
                 case Finish(_, outcome) =>
                   x.phase.Working? &&
                   (match x.phase.req.kind
                    case Load => outcome.Failed? || outcome == Response(Load)
                    case Unload => outcome.Failed? || outcome == Response(Unload)
                    case Unrecognised => outcome == Failed("unrecognized request type"))
                 case Report(_) => x.phase.Finished? && Reports(steps) - Collects(steps) < cap
                 case Leave(_) => x.phase.Waiting? && x.queue == [] && !x.open
                 case _ => true
  {
    InitInv(cap);
    var s := Exec(Init(cap), steps);
    NextLegal(Init(cap), steps, step);
    RunChannels(Init(cap), steps);
    ReachableSound(cap, steps);
    if step.w < |s.workers| {
      assert WorkerOk(s.data, s.workers[step.w], step.w);
    }
  }
}
