/** One caller that gives up at the wrong moment is enough to stop the serialiser for good. */
module SerialiserLost {
  import opened Serialiser
  import opened SerialiserSafety
  import opened SerialiserProgress
  import opened SerialiserJam

  /** Its result is in the dispatcher's hand. */
  lemma ResultInHand(cap: nat) returns (steps: seq<Step>)
    requires cap > 0
    ensures Legal(Init(cap), steps)
    ensures var s := Exec(Init(cap), steps);
            && s.hand.Answering? && s.results == [] && s.delivered == [] && !s.panicked && |s.workers| == 1
            && Stopped(s, s.workers[0]) && (forall t | t in s.taken :: t.c in s.listening)
  {
    steps := First(cap);
    steps := Serve(Init(cap), steps, cap, 1, 0);
    steps := HandIn(Init(cap), steps, cap, 0, 0);
    Then(Init(cap), steps, Collect);
    steps := steps + [Collect];
  }

  /** One request for one model: it is loaded, the answer is on its way, and its caller stops
      waiting.  From there nothing moves, and nothing is ever answered whatever else is submitted. */
  lemma DesertedReachable(cap: nat) returns (steps: seq<Step>)
    requires cap > 0
    ensures Legal(Init(cap), steps)
    ensures var s := Exec(Init(cap), steps);
            && Deserted(s) && Quiet(s) && s.delivered == [] && Lost(s, s.hand.res.ticket)
            && forall more | Legal(s, more) :: Exec(s, more).delivered == []
  {
    var before := ResultInHand(cap);
    var e := Exec(Init(cap), before);
    ReachableInv(cap, before);
    AnswerIsNew(e);
    var t := e.hand.res.ticket;
    TakenAccepted(e, t);
    Then(Init(cap), before, Abandon(t.c));
    steps := before + [Abandon(t.c)];
    var s := Exec(Init(cap), steps);
    ReachableInv(cap, steps);
    StoppedQuiet(s);
    forall more | Legal(s, more) ensures Exec(s, more).delivered == [] {
      AbandonedAnswerBlocksForever(s, more);
    }
  }
}
