/** What every run of the serialiser keeps: reference counts, order per model, mutual
    exclusion per model, and channels that are closed only when nothing can be lost. */
module SerialiserSafety {
  import opened Serialiser

  /* ---------- sequences of tickets, one model at a time ---------- */

  function Sel(ts: seq<Ticket>, m: string): seq<Ticket> {
    if ts == [] then []
    else Sel(ts[..|ts| - 1], m) + (if ts[|ts| - 1].model == m then [ts[|ts| - 1]] else [])
  }

  function One(t: Ticket, m: string): seq<Ticket> {
    if t.model == m then [t] else []
  }

  lemma SelAppend(ts: seq<Ticket>, t: Ticket, m: string)
    ensures Sel(ts + [t], m) == Sel(ts, m) + One(t, m)
  {
    assert (ts + [t])[..|ts + [t]| - 1] == ts;
  }

  lemma {:induction false} SelHead(ts: seq<Ticket>, m: string)
    requires ts != []
    ensures Sel(ts, m) == One(ts[0], m) + Sel(ts[1..], m)
    decreases |ts|
  {
    var front, last := ts[..|ts| - 1], ts[|ts| - 1];
    if front == [] {
      assert ts == [last] && ts[1..] == [];
    } else {
      SelHead(front, m);
      assert ts[1..] == front[1..] + [last];
      SelAppend(front[1..], last, m);
    }
  }

  lemma {:induction false} SelKeeps(ts: seq<Ticket>, t: Ticket)
    requires t in ts
    ensures t in Sel(ts, t.model)
    decreases |ts|
  {
    if t != ts[|ts| - 1] {
      SelKeeps(ts[..|ts| - 1], t);
    }
  }

  function Tickets(q: seq<Request>): (r: seq<Ticket>)
    ensures |r| == |q|
  {
    seq(|q|, i requires 0 <= i < |q| => q[i].ticket)
  }

  function ResTickets(q: seq<Result>): (r: seq<Ticket>)
    ensures |r| == |q|
  {
    seq(|q|, i requires 0 <= i < |q| => q[i].ticket)
  }

  /* ---------- the requests of one model, by where they are ---------- */

  function Current(p: Phase): seq<Ticket> {
    match p
    case Working(req) => [req.ticket]
    case Finished(res) => [res.ticket]
    case _ => []
  }

  /** The tickets of one model at every place, oldest place last. */
  datatype View = View(
    taken: seq<Ticket>, started: seq<Ticket>, delivered: seq<Ticket>,
    entering: seq<Ticket>,     // in the dispatcher's hand, on its way to the worker
    queue: seq<Ticket>, current: seq<Ticket>, results: seq<Ticket>,
    leaving: seq<Ticket>,      // in the dispatcher's hand, on its way to the submitter
    settling: seq<Ticket>,     // delivered, still counted
    live: bool, refCount: int)

  function LiveQueue(s: State, m: string): seq<Ticket>
    requires Bound(s)
  {
    if m in s.data then Tickets(s.workers[s.data[m]].queue) else []
  }

  function LiveCurrent(s: State, m: string): seq<Ticket>
    requires Bound(s)
  {
    if m in s.data then Current(s.workers[s.data[m]].phase) else []
  }

  function Entering(h: Hand, m: string): seq<Ticket> {
    if h.Routing? then One(h.req.ticket, m) else []
  }

  function Leaving(h: Hand, m: string): seq<Ticket> {
    if h.Answering? then One(h.res.ticket, m) else []
  }

  function SettlingOf(h: Hand, m: string): seq<Ticket> {
    if h.Settling? then One(h.res.ticket, m) else []
  }

  function ViewOf(s: State, m: string): View
    requires Bound(s)
  {
    View(Sel(s.taken, m), Sel(s.started, m), Sel(s.delivered, m),
         Entering(s.hand, m), LiveQueue(s, m), LiveCurrent(s, m), Sel(ResTickets(s.results), m),
         Leaving(s.hand, m), SettlingOf(s.hand, m),
         m in s.data, if m in s.data then s.workers[s.data[m]].refCount else 0)
  }

  /* ---------- the invariant ---------- */

  /** Taken, started and delivered requests of a model are one queue cut in three places. */
  predicate InOrder(v: View) {
    && v.started == v.delivered + v.leaving + v.results + v.current
    && v.taken == v.started + v.queue + v.entering
  }

  /** refCount counts exactly the requests between intake and settlement. */
  predicate Counted(v: View) {
    var n := |v.entering| + |v.queue| + |v.current| + |v.results| + |v.leaving| + |v.settling|;
    && v.refCount == n
    && (v.live <==> n > 0)
  }

  predicate Good(v: View) {
    Counted(v) && InOrder(v)
  }

  /** The three histories are one, read from the end. */
  lemma Prefixes(v: View)
    requires InOrder(v)
    ensures v.started == v.delivered + (v.leaving + v.results + v.current)
    ensures v.taken == v.started + (v.queue + v.entering)
    ensures v.taken == v.delivered + (v.leaving + v.results + v.current + v.queue + v.entering)
  {
  }

  predicate WorkerOk(data: map<string, nat>, x: Worker, i: nat) {
    && (x.open <==> x.model in data && data[x.model] == i)
    && (!x.open ==> x.queue == [] && (x.phase.Waiting? || x.phase.Gone?))
    && (x.open ==> !x.phase.Gone?)
    && (forall r | r in x.queue :: r.ticket.model == x.model)
    && (x.phase.Working? ==> x.phase.req.ticket.model == x.model)
    && (x.phase.Finished? ==> x.phase.res.ticket.model == x.model)
  }

  ghost predicate WorkersOk(data: map<string, nat>, workers: seq<Worker>) {
    && (forall i: nat | i < |workers| :: WorkerOk(data, workers[i], i))
    && (forall m | m in data :: data[m] < |workers| && workers[data[m]].model == m)
  }

  ghost predicate Structure(s: State) {
    && WorkersOk(s.data, s.workers)
    && (s.hand.Routing? ==> s.hand.req.ticket.model in s.data && s.data[s.hand.req.ticket.model] == s.hand.w)
    && (s.resultsOpen <==> !s.hand.Exited?)
    && (s.hand.Exited? ==> s.data == map[] && s.intakeNil)
    && (s.intakeNil ==> s.intake == [] && !s.intakeOpen)
    && !s.panicked
  }

  /** Every request accepted into the intake, in order. */
  function Accepted(s: State): seq<Ticket> {
    s.taken + Tickets(s.intake)
  }

  /** Response channels are made once, in the order of acceptance. */
  ghost predicate Fresh(accepted: seq<Ticket>, next: nat) {
    && (forall i, j | 0 <= i < j < |accepted| :: accepted[i].c < accepted[j].c)
    && (forall i | 0 <= i < |accepted| :: accepted[i].c < next)
  }

  ghost predicate Inv(s: State) {
    && Structure(s)
    && Fresh(Accepted(s), s.nextChan)
    && (forall c | c in s.listening :: c < s.nextChan)
    && (forall m: string :: Good(ViewOf(s, m)))
  }

  lemma InitInv(cap: nat)
    ensures Inv(Init(cap))
  {
    var s := Init(cap);
    forall m: string ensures Good(ViewOf(s, m)) {
      assert ViewOf(s, m) == View([], [], [], [], [], [], [], [], [], false, 0);
    }
  }

  /* ---------- each step moves a ticket to the next place ---------- */

  lemma MoveIn(v: View, t: seq<Ticket>)
    requires Good(v) && v.entering == []
    ensures Good(v.(taken := v.taken + t, entering := t, live := v.live || t != [], refCount := v.refCount + |t|))
  {
  }

  lemma MoveToQueue(v: View)
    requires Good(v)
    ensures Good(v.(queue := v.queue + v.entering, entering := []))
  {
    assert v.started + (v.queue + v.entering) + [] == v.started + v.queue + v.entering;
  }

  lemma MoveToWorker(v: View, t: seq<Ticket>, rest: seq<Ticket>)
    requires Good(v) && v.queue == t + rest && (t == [] || v.current == [])
    ensures Good(v.(started := v.started + t, queue := rest, current := v.current + t))
  {
    assert (v.started + t) + rest == v.started + (t + rest);
  }

  lemma MoveToResults(v: View, t: seq<Ticket>, rest: seq<Ticket>)
    requires Good(v) && v.current == t + rest
    ensures Good(v.(results := v.results + t, current := rest))
  {
    assert v.delivered + v.leaving + (v.results + t) + rest == v.delivered + v.leaving + v.results + (t + rest);
  }

  lemma MoveToHand(v: View, t: seq<Ticket>, rest: seq<Ticket>)
    requires Good(v) && v.leaving == [] && v.results == t + rest
    ensures Good(v.(leaving := t, results := rest))
  {
    assert v.delivered + t + rest + v.current == v.delivered + [] + (t + rest) + v.current;
  }

  lemma MoveOut(v: View)
    requires Good(v) && v.settling == []
    ensures Good(v.(delivered := v.delivered + v.leaving, leaving := [], settling := v.leaving))
  {
    assert (v.delivered + v.leaving) + [] + v.results + v.current == v.delivered + v.leaving + v.results + v.current;
  }

  lemma TakeOne(s: State, m: string)
    requires Structure(s) && s.intake != [] && s.hand.AtSelect?
    ensures Bound(TakeStep(s))
    ensures LiveQueue(TakeStep(s), m) == LiveQueue(s, m) && LiveCurrent(TakeStep(s), m) == LiveCurrent(s, m)
  {
  }

  lemma {:induction false} TakeView(s: State, m: string)
    requires Structure(s) && s.intake != [] && s.hand.AtSelect? && Good(ViewOf(s, m))
    ensures Bound(TakeStep(s)) && Good(ViewOf(TakeStep(s), m))
  {
    TakeOne(s, m);
    var t := One(s.intake[0].ticket, m);
    SelAppend(s.taken, s.intake[0].ticket, m);
    var v, v' := ViewOf(s, m), ViewOf(TakeStep(s), m);
    MoveIn(v, t);
    assert v'.live == (v.live || t != []);
    assert v'.refCount == v.refCount + |t|;
    assert v' == v.(taken := v.taken + t, entering := t, live := v'.live, refCount := v'.refCount);
  }

  lemma RouteView(s: State, m: string)
    requires Structure(s) && s.hand.Routing? && Good(ViewOf(s, m))
    ensures Bound(RouteStep(s)) && Good(ViewOf(RouteStep(s), m))
  {
    var q := s.workers[s.hand.w].queue;
    assert WorkerOk(s.data, s.workers[s.hand.w], s.hand.w);
    assert Tickets(q + [s.hand.req]) == Tickets(q) + [s.hand.req.ticket];
    var v := ViewOf(s, m);
    MoveToQueue(v);
    assert ViewOf(RouteStep(s), m) == v.(queue := v.queue + v.entering, entering := []);
  }

  lemma CollectView(s: State, m: string)
    requires Structure(s) && s.results != [] && s.hand.AtSelect? && Good(ViewOf(s, m))
    ensures Good(ViewOf(CollectStep(s), m))
  {
    var rest := ResTickets(s.results[1..]);
    SelHead(ResTickets(s.results), m);
    assert ResTickets(s.results)[1..] == rest;
    var v := ViewOf(s, m);
    var t := One(s.results[0].ticket, m);
    MoveToHand(v, t, Sel(rest, m));
    assert ViewOf(CollectStep(s), m) == v.(leaving := t, results := Sel(rest, m));
  }

  lemma DeliverView(s: State, m: string)
    requires Structure(s) && s.hand.Answering? && Good(ViewOf(s, m))
    ensures Good(ViewOf(DeliverStep(s), m))
  {
    SelAppend(s.delivered, s.hand.res.ticket, m);
    var v := ViewOf(s, m);
    MoveOut(v);
    assert ViewOf(DeliverStep(s), m)
        == v.(delivered := v.delivered + v.leaving, leaving := [], settling := v.leaving);
  }

  /** A model that is being settled is live, and is retired only when nothing of it is left. */
  lemma SettleLive(s: State)
    requires Structure(s) && s.hand.Settling? && Good(ViewOf(s, s.hand.res.ticket.model))
    ensures var m := s.hand.res.ticket.model;
            m in s.data && s.workers[s.data[m]].open
            && (s.workers[s.data[m]].refCount <= 1 ==>
                  s.workers[s.data[m]].queue == [] && s.workers[s.data[m]].phase.Waiting?)
  {
    var m := s.hand.res.ticket.model;
    var v := ViewOf(s, m);
    assert |v.settling| == 1;
    assert WorkerOk(s.data, s.workers[s.data[m]], s.data[m]);
  }

  lemma SettleOne(s: State, m: string)
    requires Structure(s) && s.hand.Settling? && Good(ViewOf(s, s.hand.res.ticket.model))
    requires Good(ViewOf(s, m))
    ensures Bound(SettleStep(s)) && SettleStep(s).hand == LoopEnd
    ensures LiveQueue(SettleStep(s), m) == LiveQueue(s, m) && LiveCurrent(SettleStep(s), m) == LiveCurrent(s, m)
  {
    SettleLive(s);
  }

  lemma SettleRef(s: State, m: string)
    requires Structure(s) && s.hand.Settling? && Good(ViewOf(s, s.hand.res.ticket.model))
    requires Good(ViewOf(s, m))
    ensures Bound(SettleStep(s))
    ensures var n := ViewOf(s, m).refCount - |ViewOf(s, m).settling|;
            ViewOf(SettleStep(s), m).refCount == n && (ViewOf(SettleStep(s), m).live <==> n > 0)
  {
    SettleLive(s);
    assert Counted(ViewOf(s, m));
  }

  lemma SettleView(s: State, m: string)
    requires Structure(s) && s.hand.Settling? && Good(ViewOf(s, s.hand.res.ticket.model))
    requires Good(ViewOf(s, m))
    ensures Bound(SettleStep(s)) && Good(ViewOf(SettleStep(s), m))
  {
    SettleOne(s, m);
    SettleRef(s, m);
    var v, v' := ViewOf(s, m), ViewOf(SettleStep(s), m);
    var n := v.refCount - |v.settling|;
    assert v' == v.(settling := [], refCount := n, live := n > 0);
  }

  lemma FetchOne(s: State, w: nat, m: string)
    requires Structure(s) && w < |s.workers| && s.workers[w].phase.Waiting? && s.workers[w].queue != []
    ensures var t := One(s.workers[w].queue[0].ticket, m);
            && LiveQueue(s, m) == t + LiveQueue(FetchStep(s, w), m)
            && LiveCurrent(FetchStep(s, w), m) == LiveCurrent(s, m) + t
            && (t == [] || LiveCurrent(s, m) == [])
  {
    var x := s.workers[w];
    assert WorkerOk(s.data, x, w);
    assert x.queue[0] in x.queue;
    assert Tickets(x.queue) == [x.queue[0].ticket] + Tickets(x.queue[1..]);
  }

  lemma FetchView(s: State, w: nat, m: string)
    requires Structure(s) && w < |s.workers| && s.workers[w].phase.Waiting? && s.workers[w].queue != []
    requires Good(ViewOf(s, m))
    ensures Good(ViewOf(FetchStep(s, w), m))
  {
    var t := s.workers[w].queue[0].ticket;
    FetchOne(s, w, m);
    SelAppend(s.started, t, m);
    var v, v' := ViewOf(s, m), ViewOf(FetchStep(s, w), m);
    MoveToWorker(v, One(t, m), v'.queue);
    assert v' == v.(started := v.started + One(t, m), queue := v'.queue, current := v.current + One(t, m));
  }

  lemma FinishView(s: State, w: nat, outcome: Outcome, m: string)
    requires Structure(s) && w < |s.workers| && s.workers[w].phase.Working?
    ensures ViewOf(FinishStep(s, w, outcome), m) == ViewOf(s, m)
  {
  }

  lemma LeaveView(s: State, w: nat, m: string)
    requires Structure(s) && w < |s.workers| && s.workers[w].phase.Waiting? && !s.workers[w].open
    ensures ViewOf(LeaveStep(s, w), m) == ViewOf(s, m)
  {
    assert WorkerOk(s.data, s.workers[w], w);
  }

  lemma ReportView(s: State, w: nat, m: string)
    requires Structure(s) && w < |s.workers| && s.workers[w].phase.Finished? && Good(ViewOf(s, m))
    ensures Bound(ReportStep(s, w)) && Good(ViewOf(ReportStep(s, w), m))
  {
    var x := s.workers[w];
    assert WorkerOk(s.data, x, w);
    var res := x.phase.res;
    var t := One(res.ticket, m);
    assert x.model in s.data;
    assert ResTickets(s.results + [res]) == ResTickets(s.results) + [res.ticket];
    SelAppend(ResTickets(s.results), res.ticket, m);
    var v := ViewOf(s, m);
    var rest := LiveCurrent(ReportStep(s, w), m);
    MoveToResults(v, t, rest);
    assert ViewOf(ReportStep(s, w), m) == v.(results := v.results + t, current := rest);
  }

  lemma StepView(s: State, step: Step, m: string)
    requires Inv(s) && Enabled(s, step)
    ensures Bound(Apply(s, step))
    ensures Good(ViewOf(Apply(s, step), m))
  {
    assert Good(ViewOf(s, m));
    match step
    case Take => TakeView(s, m);
    case Route => RouteView(s, m);
    case Collect => CollectView(s, m);
    case Deliver => DeliverView(s, m);
    case Settle => SettleView(s, m);
    case Fetch(w) => FetchView(s, w, m);
    case Finish(w, outcome) => FinishView(s, w, outcome, m);
    case Report(w) => ReportView(s, w, m);
    case Leave(w) => LeaveView(s, w, m);
    case _ => assert ViewOf(Apply(s, step), m) == ViewOf(s, m);
  }

  /* ---------- and keeps the structure ---------- */

  lemma SetWorkerOk(data: map<string, nat>, workers: seq<Worker>, w: nat, x: Worker)
    requires WorkersOk(data, workers) && w < |workers|
    requires x.model == workers[w].model && WorkerOk(data, x, w)
    ensures WorkersOk(data, workers[w := x])
  {
  }

  lemma TakeStructure(s: State)
    requires Structure(s) && s.intake != [] && s.hand.AtSelect? && !s.intakeNil
    ensures Structure(TakeStep(s))
  {
    var m := s.intake[0].ticket.model;
    var s' := TakeStep(s);
    if m in s.data {
      assert WorkerOk(s.data, s.workers[s.data[m]], s.data[m]);
      SetWorkerOk(s.data, s.workers, s.data[m], s'.workers[s.data[m]]);
    } else {
      forall i: nat | i < |s'.workers| ensures WorkerOk(s'.data, s'.workers[i], i) {
        if i < |s.workers| { assert WorkerOk(s.data, s.workers[i], i); }
      }
    }
  }

  lemma SettleStructure(s: State)
    requires Structure(s) && s.hand.Settling? && Good(ViewOf(s, s.hand.res.ticket.model))
    ensures Structure(SettleStep(s))
  {
    SettleLive(s);
    var s' := SettleStep(s);
    var w := s.data[s.hand.res.ticket.model];
    assert WorkerOk(s.data, s.workers[w], w);
    if s.workers[w].refCount > 1 {
      SetWorkerOk(s.data, s.workers, w, s'.workers[w]);
    } else {
      forall i: nat | i < |s'.workers| ensures WorkerOk(s'.data, s'.workers[i], i) {
        assert WorkerOk(s.data, s.workers[i], i);
      }
    }
  }

  lemma WorkerStructure(s: State, step: Step)
    requires Structure(s) && Enabled(s, step)
    requires step.Route? || step.Fetch? || step.Finish? || step.Report? || step.Leave?
    ensures Bound(s) && Structure(Apply(s, step))
  {
    var w := if step.Route? then s.hand.w else step.w;
    assert WorkerOk(s.data, s.workers[w], w);
    var s' := Apply(s, step);
    SetWorkerOk(s.data, s.workers, w, s'.workers[w]);
  }

  lemma {:induction false} StepStructure(s: State, step: Step)
    requires Inv(s) && Enabled(s, step)
    ensures Structure(Apply(s, step))
  {
    match step
    case Take => TakeStructure(s);
    case Settle =>
      assert Good(ViewOf(s, s.hand.res.ticket.model));
      SettleStructure(s);
    case Route => WorkerStructure(s, step);
    case Fetch(_) => WorkerStructure(s, step);
    case Finish(_, _) => WorkerStructure(s, step);
    case Report(_) => WorkerStructure(s, step);
    case Leave(_) => WorkerStructure(s, step);
    case _ =>
  }

  lemma TakeAccepts(s: State)
    requires Bound(s) && s.intake != []
    ensures Accepted(TakeStep(s)) == Accepted(s)
  {
    assert Tickets(s.intake) == [s.intake[0].ticket] + Tickets(s.intake[1..]);
  }

  lemma SubmitAccepts(s: State, model: string, kind: Kind)
    ensures Accepted(SubmitStep(s, model, kind)) == Accepted(s) + [Ticket(model, s.nextChan)]
  {
  }

  lemma StepFresh(s: State, step: Step)
    requires Inv(s) && Enabled(s, step)
    ensures Fresh(Accepted(Apply(s, step)), Apply(s, step).nextChan)
  {
    match step
    case Take => TakeAccepts(s);
    case Submit(model, kind) => SubmitAccepts(s, model, kind);
    case _ =>
  }

  lemma StepListening(s: State, step: Step)
    requires Inv(s) && Enabled(s, step)
    ensures var s' := Apply(s, step); forall c | c in s'.listening :: c < s'.nextChan
  {
  }

  lemma StepInv(s: State, step: Step)
    requires Inv(s) && Enabled(s, step)
    ensures Inv(Apply(s, step))
  {
    StepStructure(s, step);
    StepFresh(s, step);
    StepListening(s, step);
    forall m: string ensures Good(ViewOf(Apply(s, step), m)) {
      StepView(s, step, m);
    }
  }

  lemma {:induction false} RunInv(s: State, steps: seq<Step>)
    requires Inv(s) && Legal(s, steps)
    ensures Inv(Exec(s, steps))
    decreases |steps|
  {
    if steps != [] {
      StepInv(s, steps[0]);
      RunInv(Apply(s, steps[0]), steps[1..]);
    }
  }

  /* ---------- safety over every run ---------- */

  lemma {:induction false} ReachableInv(cap: nat, steps: seq<Step>)
    requires Legal(Init(cap), steps)
    ensures Inv(Exec(Init(cap), steps))
  {
    InitInv(cap);
    RunInv(Init(cap), steps);
  }

  /** No run sends on a closed channel or closes one twice: the dispatcher closes a worker's
      channel only when nothing of its model is left, and never sends there again. */
  lemma NeverPanics(cap: nat, steps: seq<Step>)
    requires Legal(Init(cap), steps)
    ensures !Exec(Init(cap), steps).panicked
  {
    ReachableInv(cap, steps);
  }

  /** refCount of a live model is the number of its requests anywhere between the intake and
      settlement; a model with none of them has no entry. */
  lemma RefCountConserved(cap: nat, steps: seq<Step>, m: string)
    requires Legal(Init(cap), steps)
    ensures var s := Exec(Init(cap), steps);
            var v := ViewOf(s, m);
            var n := |v.entering| + |v.queue| + |v.current| + |v.results| + |v.leaving| + |v.settling|;
            && (m in s.data ==> s.workers[s.data[m]].refCount == n)
            && (m in s.data <==> n > 0)
  {
    ReachableInv(cap, steps);
    assert Good(ViewOf(Exec(Init(cap), steps), m));
  }

  /** At most one worker is inside load or unload for a model id, whatever was retired and
      started again before. */
  lemma MutualExclusion(cap: nat, steps: seq<Step>, i: nat, j: nat)
    requires Legal(Init(cap), steps)
    requires var ws := Exec(Init(cap), steps).workers;
             && i < |ws| && j < |ws| && ws[i].phase.Working? && ws[j].phase.Working?
             && ws[i].phase.req.ticket.model == ws[j].phase.req.ticket.model
    ensures i == j
  {
    ReachableInv(cap, steps);
    var s := Exec(Init(cap), steps);
    assert WorkerOk(s.data, s.workers[i], i) && WorkerOk(s.data, s.workers[j], j);
  }

  /** Per model, requests start in the order taken and are answered in the order started. */
  lemma PerModelFifo(cap: nat, steps: seq<Step>, m: string)
    requires Legal(Init(cap), steps)
    ensures var s := Exec(Init(cap), steps);
            && Sel(s.delivered, m) <= Sel(s.started, m) <= Sel(s.taken, m)
            && s.taken <= Accepted(s)
  {
    ReachableInv(cap, steps);
    var v := ViewOf(Exec(Init(cap), steps), m);
    assert Good(v);
    Prefixes(v);
  }

  lemma {:induction false} SelIncreasing(ts: seq<Ticket>, m: string)
    requires forall i, j | 0 <= i < j < |ts| :: ts[i].c < ts[j].c
    ensures forall t | t in Sel(ts, m) :: t in ts && t.model == m
    ensures forall i, j | 0 <= i < j < |Sel(ts, m)| :: Sel(ts, m)[i].c < Sel(ts, m)[j].c
    decreases |ts|
  {
    if ts != [] {
      var front := ts[..|ts| - 1];
      SelIncreasing(front, m);
      forall t | t in Sel(front, m) ensures t.c < ts[|ts| - 1].c {
        var i :| 0 <= i < |front| && front[i] == t;
        assert ts[i] == t;
      }
    }
  }

  /** The tickets of a model in flight and delivered are all different. */
  lemma TakenIncreasing(s: State, m: string)
    requires Inv(s)
    ensures forall t | t in Sel(s.taken, m) :: t in s.taken && t.model == m
    ensures forall i, j | 0 <= i < j < |Sel(s.taken, m)| :: Sel(s.taken, m)[i].c < Sel(s.taken, m)[j].c
  {
    forall i, j | 0 <= i < j < |s.taken| ensures s.taken[i].c < s.taken[j].c {
      assert Accepted(s)[i] == s.taken[i] && Accepted(s)[j] == s.taken[j];
    }
    SelIncreasing(s.taken, m);
  }

  lemma DeliveredWasTaken(s: State, t: Ticket)
    requires Inv(s) && t in s.delivered
    ensures t in s.taken
  {
    SelKeeps(s.delivered, t);
    var v := ViewOf(s, t.model);
    assert Good(v);
    Prefixes(v);
    TakenIncreasing(s, t.model);
  }

  /** A result about to be sent answers a request that was taken and is not answered yet. */
  lemma AnswerIsNew(s: State)
    requires Inv(s) && s.hand.Answering?
    ensures s.hand.res.ticket in s.taken && s.hand.res.ticket !in s.delivered
  {
    var t := s.hand.res.ticket;
    var v := ViewOf(s, t.model);
    assert Good(v) && v.leaving == [t];
    TakenIncreasing(s, t.model);
    var d := |v.delivered|;
    assert v.taken == v.delivered + [t] + (v.results + v.current + v.queue + v.entering);
    assert v.taken[d] == t;
    forall i | 0 <= i < d ensures v.delivered[i] != t {
      assert v.delivered[i] == v.taken[i];
      assert v.taken[i].c < v.taken[d].c;
    }
    if t in s.delivered {
      SelKeeps(s.delivered, t);
    }
  }

  predicate Distinct(ts: seq<Ticket>) {
    forall i, j | 0 <= i < j < |ts| :: ts[i].c != ts[j].c
  }

  lemma SameChannelSameTicket(s: State, t: Ticket, u: Ticket)
    requires Inv(s) && t in Accepted(s) && u in Accepted(s) && t.c == u.c
    ensures t == u
  {
    var a := Accepted(s);
    var i :| 0 <= i < |a| && a[i] == t;
    var j :| 0 <= j < |a| && a[j] == u;
  }

  lemma StepDistinct(s: State, step: Step)
    requires Inv(s) && Enabled(s, step) && Distinct(s.delivered)
    ensures Distinct(Apply(s, step).delivered)
  {
    if step.Deliver? {
      AnswerIsNew(s);
      var t := s.hand.res.ticket;
      forall i | 0 <= i < |s.delivered| ensures s.delivered[i].c != t.c {
        DeliveredWasTaken(s, s.delivered[i]);
        if s.delivered[i].c == t.c {
          SameChannelSameTicket(s, s.delivered[i], t);
        }
      }
    }
  }

  lemma {:induction false} RunDistinct(s: State, steps: seq<Step>)
    requires Inv(s) && Distinct(s.delivered) && Legal(s, steps)
    ensures Distinct(Exec(s, steps).delivered)
    decreases |steps|
  {
    if steps != [] {
      StepDistinct(s, steps[0]);
      StepInv(s, steps[0]);
      RunDistinct(Apply(s, steps[0]), steps[1..]);
    }
  }

  /** Answers go to requests that were accepted, each on its own channel, at most once. */
  lemma AnsweredAtMostOnce(cap: nat, steps: seq<Step>)
    requires Legal(Init(cap), steps)
    ensures var s := Exec(Init(cap), steps);
            && (forall i, j | 0 <= i < j < |s.delivered| :: s.delivered[i].c != s.delivered[j].c)
            && (forall t | t in s.delivered :: t in s.taken && t in s.started)
  {
    InitInv(cap);
    RunDistinct(Init(cap), steps);
    ReachableInv(cap, steps);
    var s := Exec(Init(cap), steps);
    forall t | t in s.delivered ensures t in s.taken && t in s.started {
      DeliveredWasTaken(s, t);
      var v := ViewOf(s, t.model);
      assert Good(v);
      SelKeeps(s.delivered, t);
      Prefixes(v);
      InSel(s.started, t);
    }
  }

  lemma {:induction false} InSel(ts: seq<Ticket>, t: Ticket)
    requires t in Sel(ts, t.model)
    ensures t in ts
    decreases |ts|
  {
    if t in Sel(ts[..|ts| - 1], t.model) {
      InSel(ts[..|ts| - 1], t);
    }
  }

  /** The dispatcher ends only when every accepted request has been answered, and leaves no
      worker that could still send on the results channel it closed. */
  lemma SafeShutdown(cap: nat, steps: seq<Step>)
    requires Legal(Init(cap), steps) && Exec(Init(cap), steps).hand.Exited?
    ensures var s := Exec(Init(cap), steps);
            && !s.intakeOpen && s.intake == []
            && (forall t | t in Accepted(s) :: t in s.delivered)
            && (forall x | x in s.workers :: !x.open && x.queue == [] && (x.phase.Waiting? || x.phase.Gone?))
  {
    ReachableInv(cap, steps);
    var s := Exec(Init(cap), steps);
    forall t | t in Accepted(s) ensures t in s.delivered {
      var v := ViewOf(s, t.model);
      assert Good(v);
      assert v.taken == v.delivered;
      SelKeeps(s.taken, t);
      InSel(s.delivered, t);
    }
    forall x | x in s.workers ensures !x.open && x.queue == [] && (x.phase.Waiting? || x.phase.Gone?) {
      var i :| 0 <= i < |s.workers| && s.workers[i] == x;
      assert WorkerOk(s.data, s.workers[i], i);
    }
  }
}
