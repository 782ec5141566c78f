/** How the OVMS actor gathers a batch of requests: gatherLoadRequests of
    model-mesh-ovms-adapter/server/modelmanager.go, one select at a time. */
module OvmsGather {
  import opened Wrappers

  datatype Entry = Entry(name: string, basePath: string)

  datatype Kind = Load | Unload | UnloadAll

  /** `id` stands for the request's own response channel and context. */
  datatype Request = Request(id: nat, kind: Kind, modelId: string, basePath: string)

  datatype Ctx = Live | Canceled | DeadlineExceeded

  datatype Code = OK | Aborted | Internal | Unknown | ContextError(ctx: Ctx)

  /** What the select of line 361 meets: a request, with the state of its context and the set of
      requests whose contexts are done at that moment, or a look at the timer. */
  datatype Event =
    | Receive(now: int, req: Request, ctx: Ctx, done: set<nat>)
    | Poll(now: int)

  datatype Timing = Timing(min: int, max: int)

  /** Locals of gatherLoadRequests, the desired models, and the answers sent so far.
      `crashed`: the error text of a live context was asked for (lines 386, 407 and 425). */
  datatype Gather = Gather(
    loaded: map<string, Entry>, batch: map<string, Request>,
    deadline: Option<int>, short: bool,
    answers: map<nat, Code>, stopped: bool, crashed: bool)

  function Start(loaded: map<string, Entry>, answers: map<nat, Code>): Gather {
    Gather(loaded, map[], None, false, answers, false, false)
  }

  function SetTimer(g: Gather, at: int): Gather {
    if g.deadline.None? then g.(deadline := Some(at)) else g
  }

  function Supersede(g: Gather, m: string): map<nat, Code> {
    if m in g.batch then g.answers[g.batch[m].id := Aborted] else g.answers
  }

  function OnUnloadAll(g: Gather, e: Event, t: Timing): Gather
    requires e.Receive?
  {
    if exists m | m in g.batch :: g.batch[m].id !in e.done then g.(crashed := true)
    else SetTimer(g, e.now + t.max).(
           batch := map[], loaded := map[],
           short := if g.deadline.None? then false else g.short,
           answers := (g.answers + map m | m in g.batch :: g.batch[m].id := Aborted)[e.req.id := OK])
  }

  function OnUnload(g: Gather, e: Event, t: Timing): Gather
    requires e.Receive?
  {
    var m := e.req.modelId;
    if m in g.batch && g.batch[m].id !in e.done then g.(crashed := true)
    else SetTimer(g, e.now + t.max).(
           batch := g.batch - {m}, loaded := g.loaded - {m},
           answers := Supersede(g, m)[e.req.id := OK])
  }

  function OnLoad(g: Gather, e: Event, t: Timing): Gather
    requires e.Receive?
  {
    var m := e.req.modelId;
    if m in g.batch && g.batch[m].id !in e.done then g.(crashed := true)
    else g.(batch := g.batch[m := e.req],
            loaded := g.loaded[m := Entry(m, e.req.basePath)],
            answers := Supersede(g, m),
            deadline := if g.deadline.None? || !g.short then Some(e.now + t.min) else g.deadline,
            short := true)
  }

  function Step(g: Gather, e: Event, t: Timing): Gather {
    if g.stopped || g.crashed then g
    else match e
      case Poll(now) => g.(stopped := g.deadline.Some? && g.deadline.value <= now)
      case Receive(_, req, ctx, _) =>
        if !ctx.Live? then g.(answers := g.answers[req.id := ContextError(ctx)])
        else match req.kind
          case UnloadAll => OnUnloadAll(g, e, t)
          case Unload => OnUnload(g, e, t)
          case Load => OnLoad(g, e, t)
  }

  function Run(g: Gather, events: seq<Event>, t: Timing): Gather {
    if events == [] then g
    else Step(Run(g, events[..|events| - 1], t), events[|events| - 1], t)
  }

  lemma RunAppend(g: Gather, events: seq<Event>, e: Event, t: Timing)
    ensures Run(g, events + [e], t) == Step(Run(g, events, t), e, t)
  {
    assert (events + [e])[..|events + [e]| - 1] == events;
  }

  /* ---------- the meaning of a sequence of requests, read off the requests alone ---------- */

  predicate Accepted(e: Event) {
    e.Receive? && e.ctx.Live?
  }

  /** The event decides whether m is desired. */
  predicate Touches(e: Event, m: string) {
    Accepted(e) && (e.req.kind.UnloadAll? || e.req.modelId == m)
  }

  /** The last event that touches m, or -1. */
  function Last(events: seq<Event>, m: string): (i: int)
    ensures -1 <= i < |events|
    ensures i >= 0 ==> Touches(events[i], m)
    ensures forall j | i < j < |events| :: !Touches(events[j], m)
  {
    if events == [] then -1
    else if Touches(events[|events| - 1], m) then |events| - 1
    else Last(events[..|events| - 1], m)
  }

  lemma LastAppend(events: seq<Event>, e: Event, m: string)
    ensures Last(events + [e], m) == if Touches(e, m) then |events| else Last(events, m)
  {
    assert (events + [e])[..|events + [e]| - 1] == events;
  }

  /** The first accepted load, or -1; the first accepted request, or -1. */
  function FirstLoad(events: seq<Event>): (i: int)
    ensures -1 <= i < |events|
    ensures i >= 0 ==> Accepted(events[i]) && events[i].req.kind.Load?
    ensures forall j | 0 <= j < (if i < 0 then |events| else i) :: !(Accepted(events[j]) && events[j].req.kind.Load?)
  {
    if events == [] then -1
    else
      var i := FirstLoad(events[..|events| - 1]);
      if i >= 0 then i
      else if Accepted(events[|events| - 1]) && events[|events| - 1].req.kind.Load? then |events| - 1
      else -1
  }

  function FirstAccepted(events: seq<Event>): (i: int)
    ensures -1 <= i < |events|
    ensures i >= 0 ==> Accepted(events[i])
    ensures forall j | 0 <= j < (if i < 0 then |events| else i) :: !Accepted(events[j])
  {
    if events == [] then -1
    else
      var i := FirstAccepted(events[..|events| - 1]);
      if i >= 0 then i else if Accepted(events[|events| - 1]) then |events| - 1 else -1
  }

  /** Requests have their own channels, none of which was answered before. */
  ghost predicate FreshIds(events: seq<Event>, answers: map<nat, Code>) {
    && (forall i, j | 0 <= i < j < |events| && events[i].Receive? && events[j].Receive? ::
          events[i].req.id != events[j].req.id)
    && (forall i | 0 <= i < |events| && events[i].Receive? :: events[i].req.id !in answers)
  }

  /** Going on: neither stopped by the timer nor crashed. */
  predicate Open(g: Gather) {
    !g.stopped && !g.crashed
  }

  /** m is desired and batched exactly as its last touch says. */
  ghost predicate Desired(loaded: map<string, Entry>, events: seq<Event>, g: Gather, m: string) {
    var i := Last(events, m);
    if i < 0 then
      m !in g.batch && (m in g.loaded <==> m in loaded) && (m in loaded ==> g.loaded[m] == loaded[m])
    else if events[i].req.kind.Load? then
      && m in g.batch && g.batch[m] == events[i].req
      && m in g.loaded && g.loaded[m] == Entry(m, events[i].req.basePath)
    else m !in g.batch && m !in g.loaded
  }

  /** The answer to the k-th request, if it has one. */
  ghost predicate AnsweredRight(events: seq<Event>, g: Gather, k: nat)
    requires k < |events| && events[k].Receive?
  {
    var e := events[k];
    if !e.ctx.Live? then e.req.id in g.answers && g.answers[e.req.id] == ContextError(e.ctx)
    else if !e.req.kind.Load? then e.req.id in g.answers && g.answers[e.req.id] == OK
    else if Last(events, e.req.modelId) == k then e.req.id !in g.answers
    else e.req.id in g.answers && g.answers[e.req.id] == Aborted
  }

  /** What one step does to one model. */
  lemma StepModel(g: Gather, e: Event, t: Timing, m: string)
    requires Open(g) && Open(Step(g, e, t))
    ensures var g' := Step(g, e, t);
            if !Touches(e, m) then
              && (m in g'.batch <==> m in g.batch) && (m in g.batch ==> g'.batch[m] == g.batch[m])
              && (m in g'.loaded <==> m in g.loaded) && (m in g.loaded ==> g'.loaded[m] == g.loaded[m])
            else if e.req.kind.Load? then
              && m in g'.batch && g'.batch[m] == e.req
              && m in g'.loaded && g'.loaded[m] == Entry(m, e.req.basePath)
            else m !in g'.batch && m !in g'.loaded
  {
  }

  lemma {:induction false} StepDesired(loaded: map<string, Entry>, front: seq<Event>, g: Gather, e: Event,
                                       t: Timing, m: string)
    requires Open(g) && Open(Step(g, e, t)) && Desired(loaded, front, g, m)
    ensures Desired(loaded, front + [e], Step(g, e, t), m)
  {
    LastAppend(front, e, m);
    StepModel(g, e, t, m);
    var i := Last(front, m);
    assert i >= 0 ==> (front + [e])[i] == front[i];
  }

  /** After any number of requests, the desired models and the batch are what the last accepted
      request about each model says. */
  lemma {:induction false} BatchIs(loaded: map<string, Entry>, answers: map<nat, Code>, events: seq<Event>,
                                   t: Timing, m: string)
    requires Open(Run(Start(loaded, answers), events, t))
    ensures Desired(loaded, events, Run(Start(loaded, answers), events, t), m)
    decreases |events|
  {
    if events != [] {
      var front, e := events[..|events| - 1], events[|events| - 1];
      BatchIs(loaded, answers, front, t, m);
      assert events == front + [e];
      StepDesired(loaded, front, Run(Start(loaded, answers), front, t), e, t, m);
    }
  }

  /** A batched request is the last one about its model. */
  lemma {:induction false} BatchMember(loaded: map<string, Entry>, answers: map<nat, Code>, events: seq<Event>,
                                       t: Timing, m: string)
    requires Open(Run(Start(loaded, answers), events, t))
    requires m in Run(Start(loaded, answers), events, t).batch
    ensures var i := Last(events, m);
            && i >= 0 && events[i].req.kind.Load? && events[i].req.modelId == m
            && Run(Start(loaded, answers), events, t).batch[m] == events[i].req
  {
    BatchIs(loaded, answers, events, t, m);
  }

  /** The batch holds, under its own model id, the last load of each model. */
  ghost predicate BatchLinked(events: seq<Event>, g: Gather) {
    forall m | m in g.batch ::
      var i := Last(events, m);
      i >= 0 && events[i].req.kind.Load? && events[i].req.modelId == m && g.batch[m] == events[i].req
  }

  lemma {:induction false} BatchLinks(loaded: map<string, Entry>, answers: map<nat, Code>, events: seq<Event>,
                                      t: Timing)
    requires Open(Run(Start(loaded, answers), events, t))
    ensures BatchLinked(events, Run(Start(loaded, answers), events, t))
  {
    forall m | m in Run(Start(loaded, answers), events, t).batch {
      BatchMember(loaded, answers, events, t, m);
    }
  }

  /* ---------- every request is answered once, or is still in the batch ---------- */

  /** The event supersedes the batched request with this channel. */
  ghost predicate Supersedes(g: Gather, e: Event, id: nat) {
    exists m :: m in g.batch && Touches(e, m) && g.batch[m].id == id
  }

  /** What one step does to the answer of one channel. */
  lemma AnswerAt(g: Gather, e: Event, t: Timing, id: nat)
    requires Open(g) && Open(Step(g, e, t))
    ensures var a := Step(g, e, t).answers;
            if e.Receive? && e.req.id == id && !(e.ctx.Live? && e.req.kind.Load?) then
              id in a && a[id] == (if e.ctx.Live? then OK else ContextError(e.ctx))
            else if Supersedes(g, e, id) then id in a && a[id] == Aborted
            else (id in a <==> id in g.answers) && (id in a ==> a[id] == g.answers[id])
  {
    if e.Receive? && e.ctx.Live? && !e.req.kind.UnloadAll? {
      assert forall m | Touches(e, m) :: m == e.req.modelId;
      if e.req.modelId in g.batch && g.batch[e.req.modelId].id == id {
        assert Touches(e, e.req.modelId);
      }
    } else if e.Receive? && e.ctx.Live? {
      assert forall m :: Touches(e, m);
      assert (exists m | m in g.batch :: g.batch[m].id == id) <==> Supersedes(g, e, id);
    }
  }

  /** Of the batched requests only the k-th event's own one has its channel. */
  lemma {:induction false} BatchedOnce(events: seq<Event>, g: Gather, e: Event, k: nat, m: string)
    requires BatchLinked(events, g) && FreshIds(events + [e], map[])
    requires k < |events| && events[k].Receive? && m in g.batch && g.batch[m].id == events[k].req.id
    ensures Last(events, m) == k && m == events[k].req.modelId && events[k].ctx.Live? && events[k].req.kind.Load?
  {
    var all := events + [e];
    assert all[k] == events[k];
    assert all[Last(events, m)] == events[Last(events, m)];
  }

  lemma {:induction false} StepAnswer(events: seq<Event>, g: Gather, e: Event, t: Timing, k: nat)
    requires Open(g) && Open(Step(g, e, t)) && BatchLinked(events, g)
    requires FreshIds(events + [e], map[])
    requires k < |events| && events[k].Receive? && AnsweredRight(events, g, k)
    requires events[k].ctx.Live? && events[k].req.kind.Load? && Last(events, events[k].req.modelId) == k ==>
               events[k].req.modelId in g.batch && g.batch[events[k].req.modelId] == events[k].req
    ensures AnsweredRight(events + [e], Step(g, e, t), k)
  {
    var all := events + [e];
    var r := events[k].req;
    assert all[k] == events[k] && all[|events|] == e;
    LastAppend(events, e, r.modelId);
    assert e.Receive? ==> e.req.id != r.id;
    forall m | m in g.batch && g.batch[m].id == r.id
      ensures Last(events, m) == k && m == r.modelId && events[k].ctx.Live? && r.kind.Load?
    {
      BatchedOnce(events, g, e, k, m);
    }
    AnswerAt(g, e, t, r.id);
  }

  lemma StepAnswerNew(events: seq<Event>, g: Gather, e: Event, t: Timing)
    requires Open(g) && Open(Step(g, e, t)) && BatchLinked(events, g)
    requires FreshIds(events + [e], map[]) && e.Receive? && e.req.id !in g.answers
    ensures AnsweredRight(events + [e], Step(g, e, t), |events|)
  {
    var all := events + [e];
    assert all[|events|] == e;
    LastAppend(events, e, e.req.modelId);
    forall m | m in g.batch ensures g.batch[m].id != e.req.id {
      assert all[Last(events, m)] == events[Last(events, m)];
    }
    AnswerAt(g, e, t, e.req.id);
  }

  /** Nothing else is answered. */
  ghost predicate OnlyThese(answers: map<nat, Code>, events: seq<Event>, g: Gather) {
    && (forall id | id in answers :: id in g.answers && g.answers[id] == answers[id])
    && (forall id | id in g.answers && id !in answers ::
          exists k :: 0 <= k < |events| && events[k].Receive? && events[k].req.id == id)
  }

  lemma StepOnlyThese(answers: map<nat, Code>, events: seq<Event>, g: Gather, e: Event, t: Timing)
    requires Open(g) && Open(Step(g, e, t)) && BatchLinked(events, g) && OnlyThese(answers, events, g)
    requires FreshIds(events + [e], answers)
    ensures OnlyThese(answers, events + [e], Step(g, e, t))
  {
    var all, g' := events + [e], Step(g, e, t);
    assert all[|events|] == e;
    forall m | m in g.batch ensures g.batch[m].id !in answers {
      assert all[Last(events, m)].req == g.batch[m];
    }
    forall id | id in answers ensures id in g'.answers && g'.answers[id] == answers[id] {
      AnswerAt(g, e, t, id);
    }
    forall id | id in g'.answers && id !in answers
      ensures exists k :: 0 <= k < |all| && all[k].Receive? && all[k].req.id == id
    {
      AnswerAt(g, e, t, id);
      if id in g.answers {
        var k :| 0 <= k < |events| && events[k].Receive? && events[k].req.id == id;
        assert all[k] == events[k];
      } else if Supersedes(g, e, id) {
        var m :| m in g.batch && Touches(e, m) && g.batch[m].id == id;
        assert all[Last(events, m)].req.id == id;
      }
    }
  }

  /** The answers of a gather, request by request: an error of its context when it was dead on
      receipt, OK for an unload, Aborted for a load with a later request about its model, and
      none for a load that is still in the batch.  Other channels are left alone. */
  lemma {:induction false} AnswersAre(loaded: map<string, Entry>, answers: map<nat, Code>, events: seq<Event>,
                                      t: Timing)
    requires Open(Run(Start(loaded, answers), events, t)) && FreshIds(events, answers)
    ensures var g := Run(Start(loaded, answers), events, t);
            && (forall k: nat | k < |events| && events[k].Receive? :: AnsweredRight(events, g, k))
            && OnlyThese(answers, events, g)
    decreases |events|
  {
    if events != [] {
      var n := |events| - 1;
      var front, e := events[..n], events[n];
      var g := Run(Start(loaded, answers), front, t);
      assert events == front + [e];
      assert Open(g);
      AnswersAre(loaded, answers, front, t);
      BatchLinks(loaded, answers, front, t);
      StepOnlyThese(answers, front, g, e, t);
      var g' := Step(g, e, t);
      forall k: nat | k < |events| && events[k].Receive? ensures AnsweredRight(events, g', k) {
        if k < n {
          assert AnsweredRight(front, g, k);
          BatchIs(loaded, answers, front, t, front[k].req.modelId);
          StepAnswer(front, g, e, t, k);
        } else {
          NotYetAnswered(answers, front, g, e);
          StepAnswerNew(front, g, e, t);
        }
      }
    }
  }

  lemma NotYetAnswered(answers: map<nat, Code>, events: seq<Event>, g: Gather, e: Event)
    requires OnlyThese(answers, events, g) && FreshIds(events + [e], answers) && e.Receive?
    ensures e.req.id !in g.answers
  {
    var all := events + [e];
    assert all[|events|] == e;
    forall k | 0 <= k < |events| && events[k].Receive? ensures events[k].req.id != e.req.id {
      assert all[k] == events[k];
    }
  }

  /** Every request received is either in the batch or answered, and never both. */
  lemma {:induction false} PendingOrAnswered(loaded: map<string, Entry>, answers: map<nat, Code>,
                                             events: seq<Event>, t: Timing, k: nat)
    requires Open(Run(Start(loaded, answers), events, t)) && FreshIds(events, answers)
    requires k < |events| && events[k].Receive?
    ensures var g := Run(Start(loaded, answers), events, t);
            var r := events[k].req;
            r.id in g.answers <==> !(r.modelId in g.batch && g.batch[r.modelId] == r)
  {
    var g := Run(Start(loaded, answers), events, t);
    var r := events[k].req;
    AnswersAre(loaded, answers, events, t);
    assert AnsweredRight(events, g, k);
    BatchIs(loaded, answers, events, t, r.modelId);
    if r.modelId in g.batch && g.batch[r.modelId] == r {
      assert events[Last(events, r.modelId)].req.id == events[k].req.id;
    }
  }

  /** Model by model, without a word about batches: the last request about a model decides whether
      it is desired, where a request to unload all models is one about each, and one whose context
      was done on receipt is about none. */
  lemma {:induction false} LastRequestDecides(loaded: map<string, Entry>, answers: map<nat, Code>,
                                              events: seq<Event>, t: Timing, m: string)
    requires Open(Run(Start(loaded, answers), events, t))
    ensures var after := Run(Start(loaded, answers), events, t).loaded;
            && (forall i | 0 <= i < |events| && events[i].Receive? && events[i].ctx == Live
                           && (events[i].req.kind == UnloadAll || events[i].req.modelId == m)
                           && (forall j | i < j < |events| && events[j].Receive? && events[j].ctx == Live ::
                                 events[j].req.kind != UnloadAll && events[j].req.modelId != m) ::
                  if events[i].req.kind == Load then m in after && after[m] == Entry(m, events[i].req.basePath)
                  else m !in after)
            && ((forall j | 0 <= j < |events| && events[j].Receive? && events[j].ctx == Live ::
                   events[j].req.kind != UnloadAll && events[j].req.modelId != m) ==>
                  (m in after <==> m in loaded) && (m in after ==> after[m] == loaded[m]))
  {
    BatchIs(loaded, answers, events, t, m);
    forall i | 0 <= i < |events| && Touches(events[i], m) && (forall j | i < j < |events| :: !Touches(events[j], m))
      ensures Last(events, m) == i
    {
    }
  }

  /** Request by request, the answers of a gather that goes on. */
  lemma {:induction false} AnswersExactly(loaded: map<string, Entry>, answers: map<nat, Code>,
                                          events: seq<Event>, t: Timing, k: nat)
    requires Open(Run(Start(loaded, answers), events, t)) && FreshIds(events, answers)
    requires k < |events| && events[k].Receive?
    ensures var after, r := Run(Start(loaded, answers), events, t).answers, events[k].req;
            if events[k].ctx != Live then r.id in after && after[r.id] == ContextError(events[k].ctx)
            else if r.kind != Load then r.id in after && after[r.id] == OK
            else if exists j :: k < j < |events| && events[j].Receive? && events[j].ctx == Live
                                && (events[j].req.kind == UnloadAll || events[j].req.modelId == r.modelId)
            then r.id in after && after[r.id] == Aborted
            else r.id !in after
  {
    AnswersAre(loaded, answers, events, t);
    assert AnsweredRight(events, Run(Start(loaded, answers), events, t), k);
    var m := events[k].req.modelId;
    assert (exists j :: k < j < |events| && events[j].Receive? && events[j].ctx == Live
                        && (events[j].req.kind == UnloadAll || events[j].req.modelId == m))
      <==> exists j :: k < j < |events| && Touches(events[j], m);
  }

  /* ---------- the timer ---------- */

  lemma FirstAppend(events: seq<Event>, e: Event)
    ensures FirstLoad(events + [e]) ==
              (if FirstLoad(events) >= 0 then FirstLoad(events)
               else if Accepted(e) && e.req.kind.Load? then |events| else -1)
    ensures FirstAccepted(events + [e]) ==
              (if FirstAccepted(events) >= 0 then FirstAccepted(events)
               else if Accepted(e) then |events| else -1)
  {
    assert (events + [e])[..|events + [e]| - 1] == events;
  }

  /** The timer of line 351: Min after the first accepted load; before one comes, Max after the
      first accepted request; and with neither, none.  Something is batched only under the
      short timer. */
  predicate TimerRight(events: seq<Event>, g: Gather, t: Timing) {
    && g.deadline == DeadlineOf(events, t)
    && (g.short <==> FirstLoad(events) >= 0)
    && (g.batch != map[] ==> g.short)
  }

  /** The deadline that a sequence of requests sets. */
  function DeadlineOf(events: seq<Event>, t: Timing): Option<int> {
    if FirstLoad(events) >= 0 then Some(events[FirstLoad(events)].now + t.min)
    else if FirstAccepted(events) >= 0 then Some(events[FirstAccepted(events)].now + t.max)
    else None
  }

  lemma DeadlineMore(events: seq<Event>, e: Event, t: Timing)
    ensures FirstLoad(events + [e]) >= 0 <==> FirstLoad(events) >= 0 || (Accepted(e) && e.req.kind.Load?)
    ensures DeadlineOf(events + [e], t) ==
              if FirstLoad(events) >= 0 || !Accepted(e) then DeadlineOf(events, t)
              else if e.req.kind.Load? then Some(e.now + t.min)
              else if DeadlineOf(events, t).Some? then DeadlineOf(events, t) else Some(e.now + t.max)
  {
    FirstAppend(events, e);
    var all := events + [e];
    assert forall i | 0 <= i < |events| :: all[i] == events[i];
    assert all[|events|] == e;
  }

  lemma StepDeadline(g: Gather, e: Event, t: Timing)
    requires Open(g) && Open(Step(g, e, t)) && (g.short ==> g.deadline.Some?)
    ensures var g' := Step(g, e, t);
            if !Accepted(e) then g'.deadline == g.deadline && g'.short == g.short && g'.batch == g.batch
            else if e.req.kind.Load? then
              g'.short && g'.deadline == if g.short then g.deadline else Some(e.now + t.min)
            else
              && g'.short == g.short && (g'.batch != map[] ==> g.batch != map[])
              && g'.deadline == if g.deadline.Some? then g.deadline else Some(e.now + t.max)
  {
  }

  lemma StepTimer(events: seq<Event>, g: Gather, e: Event, t: Timing)
    requires Open(g) && Open(Step(g, e, t)) && TimerRight(events, g, t)
    ensures TimerRight(events + [e], Step(g, e, t), t)
  {
    DeadlineMore(events, e, t);
    StepDeadline(g, e, t);
  }

  lemma {:induction false} TimerIs(loaded: map<string, Entry>, answers: map<nat, Code>, events: seq<Event>, t: Timing)
    requires Open(Run(Start(loaded, answers), events, t))
    ensures TimerRight(events, Run(Start(loaded, answers), events, t), t)
    decreases |events|
  {
    if events != [] {
      var front, e := events[..|events| - 1], events[|events| - 1];
      assert events == front + [e];
      TimerIs(loaded, answers, front, t);
      StepTimer(front, Run(Start(loaded, answers), front, t), e, t);
    }
  }

  /** The timer fires at a look that comes no earlier than the deadline, and only then. */
  lemma StopsExactly(loaded: map<string, Entry>, answers: map<nat, Code>, events: seq<Event>, t: Timing, e: Event)
    requires Open(Run(Start(loaded, answers), events, t))
    ensures Run(Start(loaded, answers), events + [e], t).stopped <==>
              && e.Poll?
              && FirstAccepted(events) >= 0
              && e.now >= (if FirstLoad(events) >= 0 then events[FirstLoad(events)].now + t.min
                           else events[FirstAccepted(events)].now + t.max)
  {
    RunAppend(Start(loaded, answers), events, e, t);
    TimerIs(loaded, answers, events, t);
  }

  /* ---------- the log calls ---------- */

  /** The j-th event supersedes a batched load whose context is not done. */
  ghost predicate AsksForNoError(events: seq<Event>, j: nat)
    requires j < |events|
  {
    exists m :: Touches(events[j], m) &&
      var i := Last(events[..j], m);
      i >= 0 && events[i].req.kind.Load? && events[i].req.id !in events[j].done
  }

  lemma CrashStep(g: Gather, e: Event, t: Timing)
    requires Open(g)
    ensures Step(g, e, t).crashed <==> exists m :: m in g.batch && Touches(e, m) && g.batch[m].id !in e.done
  {
    if Accepted(e) && !e.req.kind.UnloadAll? {
      assert Touches(e, e.req.modelId);
    } else if Accepted(e) {
      assert forall m | m in g.batch :: Touches(e, m);
    }
  }

  lemma StepCrashes(loaded: map<string, Entry>, answers: map<nat, Code>, events: seq<Event>, t: Timing, e: Event)
    requires Open(Run(Start(loaded, answers), events, t))
    ensures Step(Run(Start(loaded, answers), events, t), e, t).crashed <==> AsksForNoError(events + [e], |events|)
  {
    var g := Run(Start(loaded, answers), events, t);
    var all := events + [e];
    assert all[..|events|] == events && all[|events|] == e;
    CrashStep(g, e, t);
    forall m: string | Touches(e, m)
      ensures (m in g.batch && g.batch[m].id !in e.done) <==>
              (Last(events, m) >= 0 && all[Last(events, m)].req.kind.Load? && all[Last(events, m)].req.id !in e.done)
    {
      BatchIs(loaded, answers, events, t, m);
      assert Last(events, m) >= 0 ==> events[Last(events, m)] == all[Last(events, m)];
    }
  }

  /** A gather that the timer has not ended crashes exactly when some request supersedes a
      batched load whose context is still live. */
  lemma {:induction false} CrashesExactly(loaded: map<string, Entry>, answers: map<nat, Code>, events: seq<Event>,
                                          t: Timing)
    requires !Run(Start(loaded, answers), events, t).stopped
    ensures Run(Start(loaded, answers), events, t).crashed <==>
              exists j: nat :: j < |events| && AsksForNoError(events, j)
    decreases |events|
  {
    if events != [] {
      var n := |events| - 1;
      var front, e := events[..n], events[n];
      assert events == front + [e];
      CrashesExactly(loaded, answers, front, t);
      forall j: nat | j < n ensures AsksForNoError(events, j) <==> AsksForNoError(front, j) {
        assert events[..j] == front[..j];
      }
      var g := Run(Start(loaded, answers), front, t);
      if Open(g) {
        StepCrashes(loaded, answers, front, t, e);
      }
    }
  }

  /** The same requests from callers that have all given up by the time they are superseded. */
  function Lenient(events: seq<Event>, ids: set<nat>): (r: seq<Event>)
    ensures |r| == |events|
  {
    seq(|events|, i requires 0 <= i < |events| =>
      if events[i].Poll? then events[i] else events[i].(done := ids))
  }

  /** The log calls are all that depends on the callers: the same requests never crash the actor
      when the superseded contexts are done, and otherwise do what they do unless they crash it.
      So what is proved of gathers that do not crash says what every sequence of requests is
      meant to do. */
  lemma {:induction false} OnlyTheLogCrashes(loaded: map<string, Entry>, answers: map<nat, Code>, events: seq<Event>,
                                             t: Timing, ids: set<nat>)
    requires forall i | 0 <= i < |events| && events[i].Receive? :: events[i].req.id in ids
    ensures var g, h := Run(Start(loaded, answers), events, t), Run(Start(loaded, answers), Lenient(events, ids), t);
            && !h.crashed && (forall m | m in h.batch :: h.batch[m].id in ids)
            && (!g.crashed ==> h == g)
    decreases |events|
  {
    if events != [] {
      var n := |events| - 1;
      var front, e := events[..n], events[n];
      OnlyTheLogCrashes(loaded, answers, front, t, ids);
      var lenient := Lenient(events, ids);
      assert lenient[..n] == Lenient(front, ids);
      var g, h := Run(Start(loaded, answers), front, t), Run(Start(loaded, answers), lenient[..n], t);
      if Open(h) {
        CrashStep(h, lenient[n], t);
        LenientStep(h, e, t, ids);
      }
    }
  }

  lemma LenientStep(g: Gather, e: Event, t: Timing, ids: set<nat>)
    requires Open(g) && (e.Receive? ==> e.req.id in ids) && forall m | m in g.batch :: g.batch[m].id in ids
    ensures var h := Step(g, if e.Poll? then e else e.(done := ids), t);
            && !h.crashed && (forall m | m in h.batch :: h.batch[m].id in ids)
            && (!Step(g, e, t).crashed ==> h == Step(g, e, t))
  {
  }

  /** Two loads of one model in a batch window, the first still waiting: the actor dies. */
  lemma CrashExample(t: Timing) returns (events: seq<Event>)
    ensures Run(Start(map[], map[]), events, t).crashed && FreshIds(events, map[])
  {
    var e0 := Receive(0, Request(0, Load, "m", "/a"), Live, {});
    var e1 := Receive(1, Request(1, Load, "m", "/b"), Live, {});
    events := [e0, e1];
    assert events == [] + [e0] + [e1];
    RunAppend(Start(map[], map[]), [], e0, t);
    RunAppend(Start(map[], map[]), [] + [e0], e1, t);
  }
}
