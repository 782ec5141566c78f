/** The per-model request serialiser of model-serving-puller/server/modelstate.go as a
    state machine.  A step is one channel operation of one goroutine: the dispatcher
    (`modelStateManager.execute`), a worker (`modelData.execute`) or a submitter
    (`submitRequest`).  Any interleaving of enabled steps is a run. */
module Serialiser {

  const STATE_MANAGER_CHANNEL_LENGTH: nat := 25
  const UNRECOGNISED_TYPE := "unrecognized request type"

  /** What a request and its result share: the model id, and the response channel that
      `submitRequest` makes afresh for every request. */
  datatype Ticket = Ticket(model: string, c: nat)

  datatype Kind = Load | Unload | Unrecognised

  datatype Request = Request(ticket: Ticket, kind: Kind)

  datatype Outcome = Response(kind: Kind) | Failed(message: string)

  datatype Result = Result(ticket: Ticket, outcome: Outcome)

  /** Where a worker goroutine is: waiting for a request, inside load or unload, holding a
      result that it has not sent yet, or ended. */
  datatype Phase = Waiting | Working(req: Request) | Finished(res: Result) | Gone

  /** One modelData together with the goroutine that serves it.  `model` is the id it was
      made for; `open` says that its request channel has not been closed. */
  datatype Worker = Worker(model: string, queue: seq<Request>, open: bool, refCount: int, phase: Phase)

  /** Where the dispatcher goroutine is. */
  datatype Hand =
    | AtSelect
    | Routing(req: Request, w: nat)   // refCount raised, about to send to worker w
    | Answering(res: Result)          // about to send on the result's own channel
    | Settling(res: Result)           // sent, refCount not lowered yet
    | LoopEnd                         // at the shutdown test that ends an iteration
    | Exited

  datatype State = State(
    cap: nat,                  // capacity of every buffered channel
    intake: seq<Request>, intakeOpen: bool,
    intakeNil: bool,           // the dispatcher has seen the intake closed
    hand: Hand,
    data: map<string, nat>,    // model id to its worker
    workers: seq<Worker>,      // every worker ever started, by age
    results: seq<Result>, resultsOpen: bool,
    listening: set<nat>,       // channels whose submitter still receives
    nextChan: nat,
    panicked: bool,            // a send on, or a close of, a closed channel
    taken: seq<Ticket>,        // history: requests taken off the intake
    started: seq<Ticket>,      // history: requests whose execution began
    delivered: seq<Ticket>)    // history: results received by their submitter

  datatype Step =
    | Submit(model: string, kind: Kind) | Abandon(c: nat) | CloseIntake
    | Take | SeeClosed | Route | Collect | Deliver | Settle | EndLoop
    | Fetch(w: nat) | Finish(w: nat, outcome: Outcome) | Report(w: nat) | Leave(w: nat)

  /** Steps of the dispatcher and of the workers, as opposed to the submitters'. */
  predicate Internal(step: Step) {
    !step.Submit? && !step.Abandon? && !step.CloseIntake?
  }

  function Init(cap: nat): State {
    State(cap, [], true, false, AtSelect, map[], [], [], true, {}, 0, false, [], [], [])
  }

  /** A step that would block is not enabled; one that would panic is. */
  predicate Enabled(s: State, step: Step) {
    && !s.panicked
    && match step
       case Submit(_, _) => s.intakeOpen && |s.intake| < s.cap
       case Abandon(c) => c in s.listening
       case CloseIntake => s.intakeOpen
       case Take => s.hand.AtSelect? && !s.intakeNil && s.intake != []
       case SeeClosed => s.hand.AtSelect? && !s.intakeNil && s.intake == [] && !s.intakeOpen
       case Route => s.hand.Routing? && s.hand.w < |s.workers|
                     && (s.workers[s.hand.w].open ==> |s.workers[s.hand.w].queue| < s.cap)
       case Collect => s.hand.AtSelect? && s.results != []
       case Deliver => s.hand.Answering? && s.hand.res.ticket.c in s.listening
       case Settle => s.hand.Settling?
       case EndLoop => s.hand.LoopEnd?
       case Fetch(w) => w < |s.workers| && s.workers[w].phase.Waiting? && s.workers[w].queue != []
       case Finish(w, outcome) => w < |s.workers| && s.workers[w].phase.Working?
                                  && Fits(s.workers[w].phase.req.kind, outcome)
       case Report(w) => w < |s.workers| && s.workers[w].phase.Finished?
                         && (s.resultsOpen ==> |s.results| < s.cap)
       case Leave(w) => w < |s.workers| && s.workers[w].phase.Waiting?
                        && s.workers[w].queue == [] && !s.workers[w].open
  }

  /** Lines 170 to 177: a load or an unload may fail, a request of another type always does, and
      a response is of the kind of the call that was made. */
  predicate Fits(kind: Kind, outcome: Outcome) {
    if kind.Unrecognised? then outcome == Failed(UNRECOGNISED_TYPE)
    else outcome.Response? ==> outcome.kind == kind
  }

  /** The map of live workers points at workers. */
  predicate Bound(s: State) {
    forall m | m in s.data :: s.data[m] < |s.workers|
  }

  /* ---------- what each step does ---------- */

  function SetWorker(s: State, w: nat, x: Worker): State
    requires w < |s.workers|
  {
    s.(workers := s.workers[w := x])
  }

  function SubmitStep(s: State, model: string, kind: Kind): State {
    s.(intake := s.intake + [Request(Ticket(model, s.nextChan), kind)],
       listening := s.listening + {s.nextChan}, nextChan := s.nextChan + 1)
  }

  /** Lines 131 to 143: the model's worker, started if there is none. */
  function WorkerFor(data: map<string, nat>, workers: seq<Worker>, m: string): nat {
    if m in data then data[m] else |workers|
  }

  function WithWorker(data: map<string, nat>, workers: seq<Worker>, m: string): map<string, nat> {
    if m in data then data else data[m := |workers|]
  }

  /** Lines 131 to 145: the workers, once the model's worker counts one more request. */
  function CountedIn(data: map<string, nat>, workers: seq<Worker>, m: string): seq<Worker>
    requires m in data ==> data[m] < |workers|
  {
    if m in data then workers[data[m] := workers[data[m]].(refCount := workers[data[m]].refCount + 1)]
    else workers + [Worker(m, [], true, 1, Waiting)]
  }

  function TakeStep(s: State): State
    requires Bound(s) && s.intake != []
  {
    var req := s.intake[0];
    var m := req.ticket.model;
    s.(intake := s.intake[1..], taken := s.taken + [req.ticket],
       data := WithWorker(s.data, s.workers, m), workers := CountedIn(s.data, s.workers, m),
       hand := Routing(req, WorkerFor(s.data, s.workers, m)))
  }

  /** Line 146. */
  function RouteStep(s: State): State
    requires s.hand.Routing? && s.hand.w < |s.workers|
  {
    var x := s.workers[s.hand.w];
    if !x.open then s.(panicked := true)
    else SetWorker(s, s.hand.w, x.(queue := x.queue + [s.hand.req])).(hand := LoopEnd)
  }

  /** Line 148. */
  function CollectStep(s: State): State
    requires s.results != []
  {
    s.(results := s.results[1..], hand := Answering(s.results[0]))
  }

  /** Line 149, together with line 96 in the submitter. */
  function DeliverStep(s: State): State
    requires s.hand.Answering?
  {
    s.(listening := s.listening - {s.hand.res.ticket.c},
       delivered := s.delivered + [s.hand.res.ticket], hand := Settling(s.hand.res))
  }

  /** Lines 150 to 157: count the answered request out and retire an idle worker. */
  function SettleStep(s: State): State
    requires Bound(s) && s.hand.Settling?
  {
    var m := s.hand.res.ticket.model;
    if m !in s.data then s.(hand := LoopEnd)
    else
      var w := s.data[m];
      var x := s.workers[w].(refCount := s.workers[w].refCount - 1);
      if x.refCount > 0 then SetWorker(s, w, x).(hand := LoopEnd)
      else if !x.open then SetWorker(s, w, x).(panicked := true)
      else SetWorker(s, w, x.(open := false)).(data := s.data - {m}, hand := LoopEnd)
  }

  /** Lines 159 to 162. */
  function EndStep(s: State): State {
    if s.intakeNil && s.data == map[] then
      if !s.resultsOpen then s.(panicked := true) else s.(resultsOpen := false, hand := Exited)
    else s.(hand := AtSelect)
  }

  function FetchStep(s: State, w: nat): State
    requires w < |s.workers| && s.workers[w].queue != []
  {
    var x := s.workers[w];
    SetWorker(s, w, x.(queue := x.queue[1..], phase := Working(x.queue[0])))
    .(started := s.started + [x.queue[0].ticket])
  }

  /** The result carries the model id and the channel of its request. */
  function FinishStep(s: State, w: nat, outcome: Outcome): State
    requires w < |s.workers| && s.workers[w].phase.Working?
  {
    var x := s.workers[w];
    SetWorker(s, w, x.(phase := Finished(Result(x.phase.req.ticket, outcome))))
  }

  /** Line 178. */
  function ReportStep(s: State, w: nat): State
    requires w < |s.workers| && s.workers[w].phase.Finished?
  {
    if !s.resultsOpen then s.(panicked := true)
    else SetWorker(s, w, s.workers[w].(phase := Waiting)).(results := s.results + [s.workers[w].phase.res])
  }

  function LeaveStep(s: State, w: nat): State
    requires w < |s.workers|
  {
    SetWorker(s, w, s.workers[w].(phase := Gone))
  }

  function Apply(s: State, step: Step): State
    requires Enabled(s, step) && Bound(s)
  {
    match step
    case Submit(model, kind) => SubmitStep(s, model, kind)
    case Abandon(c) => s.(listening := s.listening - {c})
    case CloseIntake => s.(intakeOpen := false)
    case Take => TakeStep(s)
    case SeeClosed => s.(intakeNil := true, hand := LoopEnd)
    case Route => RouteStep(s)
    case Collect => CollectStep(s)
    case Deliver => DeliverStep(s)
    case Settle => SettleStep(s)
    case EndLoop => EndStep(s)
    case Fetch(w) => FetchStep(s, w)
    case Finish(w, outcome) => FinishStep(s, w, outcome)
    case Report(w) => ReportStep(s, w)
    case Leave(w) => LeaveStep(s, w)
  }

  lemma BoundKept(s: State, step: Step)
    requires Bound(s) && Enabled(s, step)
    ensures Bound(Apply(s, step))
  {
  }

  /** A run: every step is enabled where it is taken. */
  predicate Legal(s: State, steps: seq<Step>)
    requires Bound(s)
    decreases |steps|
  {
    steps == [] ||
    (Enabled(s, steps[0]) && (BoundKept(s, steps[0]); Legal(Apply(s, steps[0]), steps[1..])))
  }

  function Exec(s: State, steps: seq<Step>): (r: State)
    requires Bound(s) && Legal(s, steps)
    ensures Bound(r)
    decreases |steps|
  {
    if steps == [] then s
    else BoundKept(s, steps[0]); Exec(Apply(s, steps[0]), steps[1..])
  }

  lemma ExecConcat(s: State, a: seq<Step>, b: seq<Step>)
    requires Bound(s) && Legal(s, a) && Legal(Exec(s, a), b)
    ensures Legal(s, a + b) && Exec(s, a + b) == Exec(Exec(s, a), b)
    decreases |a|
  {
    if a == [] {
      assert a + b == b;
    } else {
      assert (a + b)[1..] == a[1..] + b;
      BoundKept(s, a[0]);
      ExecConcat(Apply(s, a[0]), a[1..], b);
    }
  }
}
