/** The goroutines of model-serving-puller/server/modelstate.go over the heap.  A method is
    one channel operation with the local work around it; each is proved to be the step of the
    state machine that carries its lines. */
module ModelStateManagers {
  import opened Serialiser
  import opened SerialiserSafety
  import opened SerialiserProgress

  /** modelData and the local state of its goroutine.  `index` counts the workers by age. */
  class ModelData {
    ghost const model: string
    ghost const index: nat
    var requests: seq<Request>
    var open: bool
    var refCount: int
    var phase: Phase

    constructor (ghost model: string, ghost index: nat)
      ensures this.model == model && this.index == index
      ensures Value() == Worker(model, [], true, 0, Waiting)
    {
      this.model, this.index := model, index;
      requests, open, refCount, phase := [], true, 0, Waiting;
    }

    ghost function Value(): Worker
      reads this
    {
      Worker(model, requests, open, refCount, phase)
    }
  }

  /** Where the dispatcher is, with the modelData it found in line 131. */
  datatype Place =
    | InSelect
    | Sending(req: Request, d: ModelData)
    | Answer(res: Result)
    | Answered(res: Result)
    | Ending
    | Ended

  ghost function Values(ds: seq<ModelData>): (r: seq<Worker>)
    reads ds
    ensures |r| == |ds|
    ensures forall i | 0 <= i < |ds| :: r[i] == ds[i].Value()
  {
    seq(|ds|, i requires 0 <= i < |ds| reads ds => ds[i].Value())
  }

  function ClosedIn(ws: seq<Worker>, w: nat): seq<Worker>
    requires w < |ws|
  {
    ws[w := ws[w].(open := false)]
  }

  function AddedTo(ws: seq<Worker>, w: nat, delta: int): seq<Worker>
    requires w < |ws|
  {
    ws[w := ws[w].(refCount := ws[w].refCount + delta)]
  }

  /** Lines 150 to 157 for a live model. */
  lemma SettleIs(s: State)
    requires Bound(s) && s.hand.Settling? && s.hand.res.ticket.model in s.data
    ensures var m := s.hand.res.ticket.model;
            var w := s.data[m];
            var ws := AddedTo(s.workers, w, -1);
            SettleStep(s) ==
              if ws[w].refCount > 0 then s.(workers := ws, hand := LoopEnd)
              else if !ws[w].open then s.(workers := ws, panicked := true)
              else s.(workers := ClosedIn(ws, w), data := s.data - {m}, hand := LoopEnd)
  {
  }

  /** The worker found or started, then counted up. */
  lemma CountedInIs(data: map<string, nat>, ws: seq<Worker>, m: string, found: seq<Worker>)
    requires m in data ==> data[m] < |ws|
    requires found == if m in data then ws else ws + [Worker(m, [], true, 0, Waiting)]
    ensures var w := WorkerFor(data, ws, m);
            w < |found| && AddedTo(found, w, 1) == CountedIn(data, ws, m)
  {
  }

  class ModelStateManager {
    const cap: nat
    var data: map<string, ModelData>
    var requests: seq<Request>
    var requestsOpen: bool
    var reqChanNil: bool
    var place: Place
    var results: seq<Result>
    var resultsOpen: bool
    var goroutines: seq<ModelData>
    var nextChan: nat
    var panicked: bool
    ghost var state: State     // what the fields represent, with the listeners and the history

    ghost predicate Linked()
      reads this, goroutines
    {
      && (forall i | 0 <= i < |goroutines| :: goroutines[i].index == i)
      && (forall m | m in data :: data[m].index < |goroutines| && goroutines[data[m].index] == data[m])
    }

    ghost function HandOf(): Hand
      reads this`place
    {
      match place
      case InSelect => AtSelect
      case Sending(req, d) => Routing(req, d.index)
      case Answer(res) => Answering(res)
      case Answered(res) => Settling(res)
      case Ending => LoopEnd
      case Ended => Exited
    }

    ghost function Links(): map<string, nat>
      reads this`data
    {
      map m | m in data :: data[m].index
    }

    ghost predicate Channels()
      reads this`requests, this`requestsOpen, this`reqChanNil, this`results, this`resultsOpen
      reads this`nextChan, this`panicked, this`state
    {
      && state.cap == cap && state.nextChan == nextChan && state.panicked == panicked
      && state.intake == requests && state.intakeOpen == requestsOpen && state.intakeNil == reqChanNil
      && state.results == results && state.resultsOpen == resultsOpen
    }

    ghost predicate Valid()
      reads this, goroutines
    {
      && Linked()
      && Channels()
      && (place.Sending? ==> place.d.index < |goroutines| && goroutines[place.d.index] == place.d)
      && state.hand == HandOf()
      && state.data == Links()
      && state.workers == Values(goroutines)
    }

    constructor (cap: nat)
      ensures Valid() && state == Init(cap) && goroutines == []
    {
      this.cap := cap;
      data, requests, requestsOpen, reqChanNil := map[], [], true, false;
      place, results, resultsOpen, goroutines := InSelect, [], true, [];
      nextChan, panicked := 0, false;
      state := Init(cap);
    }

    /** submitRequest, lines 92 to 103: refused at once when the intake is full. */
    method SubmitRequest(model: string, kind: Kind) returns (ok: bool)
      requires Valid() && requestsOpen && !panicked
      modifies this`requests, this`nextChan, this`state
      ensures Valid()
      ensures ok <==> |old(requests)| < cap
      ensures requests == old(requests) + if ok then [Request(Ticket(model, old(nextChan)), kind)] else []
      ensures ok == Enabled(old(state), Submit(model, kind))
      ensures state == if ok then SubmitStep(old(state), model, kind) else old(state)
    {
      ok := |requests| < cap;
      if ok {
        requests := requests + [Request(Ticket(model, nextChan), kind)];
        nextChan := nextChan + 1;
        state := SubmitStep(state, model, kind);
      }
    }

    /** Line 98: the context of a waiting submitter is done. */
    ghost method CancelWait(c: nat)
      requires Valid()
      modifies this`state
      ensures Valid() && state == old(state).(listening := old(state).listening - {c})
    {
      state := state.(listening := state.listening - {c});
    }

    method CloseRequests()
      requires Valid()
      modifies this`requestsOpen, this`state
      ensures Valid() && state == old(state).(intakeOpen := false)
    {
      requestsOpen := false;
      state := state.(intakeOpen := false);
    }

    /** Lines 131 to 143. */
    method FindOrStart(model: string) returns (d: ModelData)
      requires Linked()
      modifies this`data, this`goroutines
      ensures Linked() && d.index < |goroutines| && goroutines[d.index] == d
      ensures d.index == WorkerFor(old(Links()), old(Values(goroutines)), model)
      ensures Links() == WithWorker(old(Links()), old(Values(goroutines)), model)
      ensures model in old(data) ==> d == old(data)[model] && goroutines == old(goroutines)
      ensures model !in old(data) ==>
                fresh(d) && goroutines == old(goroutines) + [d] && d.index == |old(goroutines)|
      ensures Values(goroutines) == if model in old(data) then old(Values(goroutines))
                                    else old(Values(goroutines)) + [Worker(model, [], true, 0, Waiting)]
    {
      if model in data {
        d := data[model];
      } else {
        d := new ModelData(model, |goroutines|);
        data := data[model := d];
        goroutines := goroutines + [d];
      }
    }

    /** Lines 145 and 151. */
    method AddToRefCount(d: ModelData, delta: int)
      requires Linked() && d.index < |goroutines| && goroutines[d.index] == d
      modifies d`refCount
      ensures Linked() && d.refCount == old(d.refCount) + delta
      ensures Values(goroutines) == AddedTo(old(Values(goroutines)), d.index, delta)
    {
      d.refCount := d.refCount + delta;
    }

    /** Lines 131 to 145: the model's worker, started if need be, with one more request. */
    method CountIn(model: string) returns (d: ModelData)
      requires Linked()
      modifies this`data, this`goroutines, goroutines
      ensures Linked() && d.index < |goroutines| && goroutines[d.index] == d
      ensures d.index == WorkerFor(old(Links()), old(Values(goroutines)), model)
      ensures Links() == WithWorker(old(Links()), old(Values(goroutines)), model)
      ensures Values(goroutines) == CountedIn(old(Links()), old(Values(goroutines)), model)
      ensures old(goroutines) <= goroutines
      ensures forall i | |old(goroutines)| <= i < |goroutines| :: fresh(goroutines[i])
    {
      ghost var links, ws := Links(), Values(goroutines);
      d := FindOrStart(model);
      CountedInIs(links, ws, model, Values(goroutines));
      AddToRefCount(d, 1);
    }

    /** Lines 126 to 145. */
    method ReceiveRequest()
      requires Valid() && place.InSelect? && requests != []
      modifies this`data, this`goroutines, this`requests, this`place, this`state, goroutines
      ensures Valid() && state == TakeStep(old(state)) && old(goroutines) <= goroutines
      ensures forall i | |old(goroutines)| <= i < |goroutines| :: fresh(goroutines[i])
    {
      var d := CountIn(requests[0].ticket.model);
      HoldForSending(d);
    }

    /** Lines 126 and 145, once the model's worker is found and has counted the request. */
    method HoldForSending(d: ModelData)
      requires Linked() && Channels() && requests != []
      requires d.index < |goroutines| && goroutines[d.index] == d
      modifies this`requests, this`place, this`state
      ensures Valid()
      ensures state == old(state).(intake := old(requests)[1..],
                                   taken := old(state).taken + [old(requests)[0].ticket],
                                   data := Links(), workers := Values(goroutines),
                                   hand := Routing(old(requests)[0], d.index))
    {
      place := Sending(requests[0], d);
      state := state.(intake := requests[1..], taken := state.taken + [requests[0].ticket],
                      data := Links(), workers := Values(goroutines), hand := HandOf());
      requests := requests[1..];
    }

    /** Lines 127 to 129. */
    method SeeRequestsClosed()
      requires Valid() && place.InSelect?
      modifies this`reqChanNil, this`place, this`state
      ensures Valid() && state == old(state).(intakeNil := true, hand := LoopEnd)
    {
      reqChanNil := true;
      place := Ending;
      state := state.(intakeNil := true, hand := LoopEnd);
    }

    /** Line 146. */
    method SendToWorker()
      requires Valid() && place.Sending?
      modifies this`panicked, this`place, this`state, goroutines
      ensures Valid() && state == RouteStep(old(state))
      ensures panicked <==> old(panicked) || !old(place.d.open)
      ensures old(place.d.open) ==> old(place.d).requests == old(place.d.requests) + [old(place.req)]
    {
      var d := place.d;
      if !d.open {
        panicked := true;
      } else {
        d.requests := d.requests + [place.req];
        place := Ending;
      }
      state := RouteStep(state);
    }

    /** Line 148. */
    method ReceiveResult()
      requires Valid() && place.InSelect? && results != []
      modifies this`results, this`place, this`state
      ensures Valid() && state == CollectStep(old(state))
    {
      place := Answer(results[0]);
      results := results[1..];
      state := CollectStep(state);
    }

    /** Line 149, a rendezvous with line 96. */
    method SendAnswer()
      requires Valid() && place.Answer?
      modifies this`place, this`state
      ensures Valid() && state == DeliverStep(old(state))
    {
      place := Answered(place.res);
      state := DeliverStep(state);
    }

    /** Lines 154 and 155: close the channel of a worker with nothing left, and forget it. */
    method Retire(model: string, d: ModelData)
      requires Linked() && model in data && data[model] == d && d.open
      modifies this`data, d`open
      ensures Linked() && Links() == old(Links()) - {model}
      ensures Values(goroutines) == ClosedIn(old(Values(goroutines)), d.index)
    {
      d.open := false;
      data := data - {model};
    }

    /** Lines 150 to 157. */
    method CountDown()
      requires Valid() && place.Answered?
      modifies this`data, this`panicked, this`place, this`state, goroutines
      ensures Valid() && state == SettleStep(old(state))
    {
      var model := place.res.ticket.model;
      if model in data {
        CountDownLive(model, data[model]);
      } else {
        place := Ending;
        state := state.(hand := LoopEnd);
      }
    }

    /** Lines 151 to 156. */
    method CountDownLive(model: string, d: ModelData)
      requires Valid() && place.Answered? && place.res.ticket.model == model
      requires model in data && data[model] == d
      modifies this`data, this`panicked, this`place, this`state, d
      ensures Valid() && state == SettleStep(old(state))
    {
      SettleIs(state);
      AddToRefCount(d, -1);
      if d.refCount > 0 {
        MoveOn();
      } else if d.open {
        RetireIdle(model, d);
      } else {
        PanicOnClose();
      }
    }

    method RetireIdle(model: string, d: ModelData)
      requires Linked() && Channels() && model in data && data[model] == d && d.open
      modifies this`data, this`place, this`state, d`open
      ensures Valid()
      ensures state == old(state).(data := old(Links()) - {model}, hand := LoopEnd,
                                   workers := ClosedIn(old(Values(goroutines)), d.index))
    {
      Retire(model, d);
      MoveOn();
    }

    /** Line 154 on a channel that is closed already. */
    method PanicOnClose()
      requires Linked() && Channels() && state.hand == HandOf() && !place.Sending?
      modifies this`panicked, this`state
      ensures Valid()
      ensures state == old(state).(panicked := true, data := Links(), workers := Values(goroutines))
    {
      panicked := true;
      state := state.(panicked := true, data := Links(), workers := Values(goroutines));
    }

    /** The end of the select body, line 158. */
    method MoveOn()
      requires Linked() && Channels()
      modifies this`place, this`state
      ensures Valid()
      ensures state == old(state).(data := Links(), workers := Values(goroutines), hand := LoopEnd)
    {
      place := Ending;
      state := state.(data := Links(), workers := Values(goroutines), hand := LoopEnd);
    }

    /** len(m.data) == 0 */
    method NoData() returns (none: bool)
      ensures none == (Links() == map[])
    {
      none := |data| == 0;
      assert Links().Keys == data.Keys;
      assert Links() == map[] <==> Links().Keys == {};
    }

    /** Lines 159 to 162. */
    method TestForExit()
      requires Valid() && place.Ending?
      modifies this`panicked, this`resultsOpen, this`place, this`state
      ensures Valid() && state == EndStep(old(state))
    {
      var none := NoData();
      if reqChanNil && none {
        CloseResults();
      } else {
        Select();
      }
    }

    /** The next turn of the loop of line 124. */
    method Select()
      requires Valid()
      modifies this`place, this`state
      ensures Valid() && state == old(state).(hand := AtSelect)
    {
      place := InSelect;
      state := state.(hand := AtSelect);
    }

    /** Lines 160 and 161. */
    method CloseResults()
      requires Valid()
      modifies this`panicked, this`resultsOpen, this`place, this`state
      ensures Valid()
      ensures state == if !old(resultsOpen) then old(state).(panicked := true)
                       else old(state).(resultsOpen := false, hand := Exited)
    {
      if !resultsOpen {
        panicked := true;
        state := state.(panicked := true);
      } else {
        resultsOpen := false;
        place := Ended;
        state := state.(resultsOpen := false, hand := Exited);
      }
    }

    /** Line 167. */
    method TakeNext(d: ModelData)
      requires Valid() && d in goroutines && d.phase.Waiting? && d.requests != []
      modifies this`state, d
      ensures Valid() && state == FetchStep(old(state), d.index)
      ensures d.phase == Working(old(d.requests)[0]) && d.requests == old(d.requests)[1..]
    {
      d.phase := Working(d.requests[0]);
      d.requests := d.requests[1..];
      state := FetchStep(state, d.index);
    }

    /** Lines 168 to 177: the call for the request's type ends as the environment chose; there is
        none for an unrecognised type. */
    method EndCall(d: ModelData, called: Outcome)
      requires Valid() && d in goroutines && d.phase.Working?
      requires !d.phase.req.kind.Unrecognised? ==> Fits(d.phase.req.kind, called)
      modifies this`state, d
      ensures var outcome := if old(d.phase.req.kind).Unrecognised? then Failed(UNRECOGNISED_TYPE) else called;
              && Fits(old(d.phase.req.kind), outcome)
              && Valid() && state == FinishStep(old(state), d.index, outcome)
              && d.phase == Finished(Result(old(d.phase).req.ticket, outcome))
    {
      var outcome: Outcome;
      match d.phase.req.kind {
        case Load => outcome := called;
        case Unload => outcome := called;
        case Unrecognised => outcome := Failed(UNRECOGNISED_TYPE);
      }
      d.phase := Finished(Result(d.phase.req.ticket, outcome));
      state := FinishStep(state, d.index, outcome);
    }

    /** Line 178. */
    method SendResult(d: ModelData)
      requires Valid() && d in goroutines && d.phase.Finished?
      modifies this`results, this`panicked, this`state, d
      ensures Valid() && state == ReportStep(old(state), d.index)
    {
      if !resultsOpen {
        panicked := true;
      } else {
        results := results + [d.phase.res];
        d.phase := Waiting;
      }
      state := ReportStep(state, d.index);
    }

    /** The range loop of line 167 ends. */
    method EndWorker(d: ModelData)
      requires Valid() && d in goroutines && d.phase.Waiting?
      modifies this`state, d
      ensures Valid() && state == LeaveStep(old(state), d.index)
    {
      d.phase := Gone;
      state := LeaveStep(state, d.index);
    }

    /** One scheduling decision of the runtime: the chosen operation happens. */
    method Perform(step: Step)
      requires Valid() && Bound(state) && Enabled(state, step)
      modifies this, goroutines
      ensures Valid() && state == Apply(old(state), step) && old(goroutines) <= goroutines
      ensures forall i | |old(goroutines)| <= i < |goroutines| :: fresh(goroutines[i])
    {
      match step
      case Submit(model, kind) => var ok := SubmitRequest(model, kind);
      case Abandon(c) => CancelWait(c);
      case CloseIntake => CloseRequests();
      case Take => ReceiveRequest();
      case SeeClosed => SeeRequestsClosed();
      case Route => SendToWorker();
      case Collect => ReceiveResult();
      case Deliver => SendAnswer();
      case Settle => CountDown();
      case EndLoop => TestForExit();
      case Fetch(w) => TakeNext(goroutines[w]);
      case Finish(w, outcome) => EndCall(goroutines[w], outcome);
      case Report(w) => SendResult(goroutines[w]);
      case Leave(w) => EndWorker(goroutines[w]);
    }

    method PerformFirst(schedule: seq<Step>)
      requires Valid() && Inv(state) && Legal(state, schedule) && schedule != []
      modifies this, goroutines
      ensures Valid() && Inv(state) && Legal(state, schedule[1..])
      ensures Exec(state, schedule[1..]) == Exec(old(state), schedule)
      ensures old(goroutines) <= goroutines
      ensures forall i | |old(goroutines)| <= i < |goroutines| :: fresh(goroutines[i])
    {
      StepInv(state, schedule[0]);
      Perform(schedule[0]);
    }

    /** Any interleaving: the heap follows the state machine, so what is proved of its runs
        holds of the goroutines. */
    method Run(schedule: seq<Step>)
      requires Valid() && Inv(state) && Legal(state, schedule)
      modifies this, goroutines
      ensures Valid() && state == Exec(old(state), schedule)
      ensures Inv(state) && !panicked
    {
      var rest := schedule;
      while rest != []
        invariant Valid() && Inv(state) && Legal(state, rest)
        invariant Exec(state, rest) == Exec(old(state), schedule)
        invariant old(goroutines) <= goroutines
        invariant forall i | |old(goroutines)| <= i < |goroutines| :: fresh(goroutines[i])
        decreases |rest|
      {
        PerformFirst(rest);
        rest := rest[1..];
      }
    }
  }
}
