/** The turns of the OVMS actor on values: the accounts of its channels, how a batch ends, and what
    the models desired after any number of turns have to do with the requests. */
module OvmsTurns {
  import opened OvmsGather
  import opened OvmsConfig

  /** How one reload ends: the write of the config file, the contexts done before it, and what
      OVMS reported. */
  datatype Turn = Turn(expired: map<nat, Ctx>, write: Write, reload: Reload)

  function ReloadOf(turn: Turn): Reload {
    if turn.write.Done? then turn.reload else ReloadFailed
  }

  ghost function Ids(events: seq<Event>): set<nat> {
    set i | 0 <= i < |events| && events[i].Receive? :: events[i].req.id
  }

  ghost function PendingIds(batch: map<string, Request>): set<nat> {
    set m | m in batch :: batch[m].id
  }

  /** The channels that were answered or wait in the batch. */
  ghost function Handled(answers: map<nat, Code>, pending: map<string, Request>): set<nat> {
    answers.Keys + PendingIds(pending)
  }

  /** Requests of the batch are unanswered and have different channels. */
  ghost predicate Waiting(batch: map<string, Request>, answers: map<nat, Code>) {
    OwnIds(batch) && forall m | m in batch :: batch[m].id !in answers
  }

  /** Between two turns of the select nothing pending is answered, and the next request is new. */
  lemma GatherWaits(loaded: map<string, Entry>, before: map<nat, Code>, events: seq<Event>, i: nat, t: Timing)
    requires FreshIds(events, before) && i <= |events| && Open(Run(Start(loaded, before), events[..i], t))
    ensures var g := Run(Start(loaded, before), events[..i], t);
            && Waiting(g.batch, g.answers)
            && (i < |events| && events[i].Receive? ==>
                  events[i].req.id !in g.answers
                  && forall m | m in g.batch :: g.batch[m].id != events[i].req.id)
  {
    var front := events[..i];
    var g := Run(Start(loaded, before), front, t);
    AnswersAre(loaded, before, front, t);
    BatchLinks(loaded, before, front, t);
    forall m | m in g.batch
      ensures g.batch[m].id !in g.answers && g.batch[m] == events[Last(front, m)].req && g.batch[m].modelId == m
    {
      var k := Last(front, m);
      assert front[k] == events[k];
      assert AnsweredRight(front, g, k);
    }
    if i < |events| && events[i].Receive? {
      assert front + [events[i]] == events[..i + 1];
      NotYetAnswered(before, front, g, events[i]);
    }
  }

  /** After a gather the answered channels and the pending ones are those of its requests. */
  lemma {:induction false} GatherIds(loaded: map<string, Entry>, before: map<nat, Code>, events: seq<Event>, t: Timing)
    requires FreshIds(events, before) && Open(Run(Start(loaded, before), events, t))
    ensures var g := Run(Start(loaded, before), events, t);
            g.answers.Keys + PendingIds(g.batch) == before.Keys + Ids(events)
  {
    var g := Run(Start(loaded, before), events, t);
    AnswersAre(loaded, before, events, t);
    BatchLinks(loaded, before, events, t);
    forall k: nat | k < |events| && events[k].Receive?
      ensures events[k].req.id in g.answers.Keys + PendingIds(g.batch)
    {
      PendingOrAnswered(loaded, before, events, t, k);
    }
    forall m | m in g.batch ensures g.batch[m].id in Ids(events) {
      assert events[Last(events, m)].req == g.batch[m];
    }
  }

  lemma FreshFront(events: seq<Event>, answers: map<nat, Code>, n: nat)
    requires FreshIds(events, answers) && n <= |events|
    ensures FreshIds(events[..n], answers)
  {
  }

  lemma FreshTail(events: seq<Event>, before: map<nat, Code>, after: map<nat, Code>, n: nat)
    requires FreshIds(events, before) && n <= |events| && after.Keys <= before.Keys + Ids(events[..n])
    ensures FreshIds(events[n..], after)
  {
    var tail := events[n..];
    forall i | 0 <= i < |tail| && tail[i].Receive? ensures tail[i].req.id !in after {
      assert tail[i] == events[n + i];
      assert tail[i].req.id !in Ids(events[..n]);
    }
  }

  lemma IdsPoll(events: seq<Event>, n: nat)
    requires 0 < n <= |events| && events[n - 1].Poll?
    ensures Ids(events[..n]) == Ids(events[..n - 1])
  {
    var a, b := events[..n], events[..n - 1];
    forall id | id in Ids(a) ensures id in Ids(b) {
      var i :| 0 <= i < |a| && a[i].Receive? && a[i].req.id == id;
      assert b[i] == a[i];
    }
    forall id | id in Ids(b) ensures id in Ids(a) {
      var i :| 0 <= i < |b| && b[i].Receive? && b[i].req.id == id;
      assert b[i] == a[i];
    }
  }

  lemma NonePending(answers: map<nat, Code>)
    ensures Handled(answers, map[]) == answers.Keys
  {
    assert PendingIds(map[]) == {};
  }

  lemma SliceIds(events: seq<Event>, met: nat, n: nat)
    requires met + n <= |events|
    ensures events[met..][n..] == events[met + n..]
    ensures Ids(events[..met + n]) == Ids(events[..met]) + Ids(events[met..][..n])
  {
    var a, b, c := events[..met], events[met..][..n], events[..met + n];
    forall id | id in Ids(c) ensures id in Ids(a) + Ids(b) {
      var k :| 0 <= k < |c| && c[k].Receive? && c[k].req.id == id;
      if k < met { assert a[k] == c[k]; } else { assert b[k - met] == c[k]; }
    }
    forall id | id in Ids(a) + Ids(b) ensures id in Ids(c) {
      if id in Ids(a) {
        var k :| 0 <= k < |a| && a[k].Receive? && a[k].req.id == id;
        assert c[k] == a[k];
      } else {
        var k :| 0 <= k < |b| && b[k].Receive? && b[k].req.id == id;
        assert c[met + k] == b[k];
      }
    }
  }

  ghost predicate Accounted(events: seq<Event>, met: nat, first: set<nat>, now: set<nat>)
    requires met <= |events|
  {
    now == first + Ids(events[..met])
  }

  lemma MoreAccounted(events: seq<Event>, met: nat, n: nat, first: set<nat>, keys: set<nat>, now: set<nat>)
    requires met + n <= |events| && Accounted(events, met, first, keys)
    ensures now == keys + Ids(events[met..][..n]) ==> Accounted(events, met + n, first, now)
    ensures events[met..][n..] == events[met + n..]
  {
    SliceIds(events, met, n);
  }

  /** The last look at the timer changes nothing else. */
  lemma StopKeeps(g: Gather, e: Event, t: Timing)
    requires Open(g)
    ensures Step(g, e, t).stopped ==> Step(g, e, t) == g.(stopped := true) && e.Poll?
    ensures Step(g, e, t).crashed ==> !Step(g, e, t).stopped
  {
  }

  /** The loop of lines 276 to 285, with the models of `todo` still to look at. */
  ghost predicate Sweeping(batch: map<string, Request>, expired: map<nat, Ctx>, todo: set<string>, gone: set<string>,
                           rest: map<string, Request>, before: map<string, Entry>, loaded: map<string, Entry>)
  {
    && todo <= batch.Keys && gone == Swept(batch, expired) - todo
    && rest == batch - gone && loaded == before - gone
  }

  lemma SweepMore(batch: map<string, Request>, expired: map<nat, Ctx>, todo: set<string>, gone: set<string>,
                  rest: map<string, Request>, before: map<string, Entry>, loaded: map<string, Entry>, m: string)
    requires Sweeping(batch, expired, todo, gone, rest, before, loaded) && m in todo
    ensures m !in gone
    ensures if Expired(expired, batch[m].id)
            then Sweeping(batch, expired, todo - {m}, gone + {m}, rest - {m}, before, loaded - {m})
            else Sweeping(batch, expired, todo - {m}, gone, rest, before, loaded)
  {
  }

  lemma AnswerOne(before: map<nat, Code>, after: map<nat, Code>, batch: map<string, Request>,
                  models: set<string>, code: map<string, Code>, m: string)
    requires models <= batch.Keys && models <= code.Keys && Answered(before, after, batch, models, code)
    requires m in batch && m in code && m !in models && Waiting(batch, before)
    ensures batch[m].id !in after
    ensures Answered(before, after[batch[m].id := code[m]], batch, models + {m}, code)
  {
    assert forall k | k in models :: batch[k].id != batch[m].id;
    var a := after[batch[m].id := code[m]];
    forall id | id in a && id !in before ensures exists k :: k in models + {m} && batch[k].id == id {
      if id != batch[m].id {
        var k :| k in models && batch[k].id == id;
        assert k in models + {m};
      } else {
        assert m in models + {m};
      }
    }
  }

  lemma AnsweredTwice(a: map<nat, Code>, b: map<nat, Code>, c: map<nat, Code>, batch: map<string, Request>,
                      x: set<string>, y: set<string>, code: map<string, Code>)
    requires x <= batch.Keys && y <= batch.Keys && x <= code.Keys && y <= code.Keys && OwnIds(batch)
    requires Answered(a, b, batch, x, code) && Answered(b, c, batch, y, code)
    ensures Answered(a, c, batch, x + y, code)
  {
    forall id | id in c && id !in a ensures exists m :: m in x + y && batch[m].id == id {
      if id in b {
        var m :| m in x && batch[m].id == id;
        assert m in x + y;
      } else {
        var m :| m in y && batch[m].id == id;
        assert m in x + y;
      }
    }
  }

  lemma AllAborted(before: map<nat, Code>, after: map<nat, Code>, batch: map<string, Request>, code: map<string, Code>)
    requires code == map m | m in batch :: Aborted
    requires Answered(before, after, batch, batch.Keys, code)
    ensures after == before + map m | m in batch :: batch[m].id := Aborted
  {
    var b := map m | m in batch :: batch[m].id := Aborted;
    forall id ensures id in after <==> id in before || id in b {
      if id in after && id !in before {
        var m :| m in batch.Keys && batch[m].id == id;
      }
    }
  }

  lemma AnsweredKeys(batch: map<string, Request>, before: map<nat, Code>, after: map<nat, Code>,
                     code: map<string, Code>)
    requires code.Keys == batch.Keys && Answered(before, after, batch, batch.Keys, code)
    ensures after.Keys == before.Keys + PendingIds(batch)
  {
    forall id | id in after.Keys ensures id in before.Keys + PendingIds(batch) {
      if id !in before {
        var m :| m in batch.Keys && batch[m].id == id;
      }
    }
  }

  lemma BatchSettled(loaded: map<string, Entry>, after: map<string, Entry>, batch: map<string, Request>,
                     answers: map<nat, Code>, code: map<string, Code>)
    requires code.Keys == batch.Keys
    requires forall m | m in batch :: batch[m].id in answers && answers[batch[m].id] == code[m]
    requires forall m | m in batch :: m in loaded && loaded[m] == Entry(m, batch[m].basePath)
    requires after == loaded - (set m | m in batch && code[m] != OK)
    ensures Settled(loaded, after, batch, answers)
  {
  }

  /** Every batched load is desired, with its own path. */
  ghost predicate Filed(batch: map<string, Request>, loaded: map<string, Entry>) {
    forall m | m in batch :: m in loaded && loaded[m] == Entry(m, batch[m].basePath)
  }

  function Verdicts(batch: map<string, Request>, turn: Turn): map<string, Code>
    requires Reported(turn.reload)
  {
    map m | m in batch :: Verdict(m, batch[m].id, turn.expired, ReloadOf(turn))
  }

  /** A batch is over: each of its requests has the code its turn calls for, the desired models
      agree with the answers, and no other channel was touched. */
  ghost predicate Concluded(batch: map<string, Request>, turn: Turn,
                            loaded: map<string, Entry>, loaded': map<string, Entry>,
                            before: map<nat, Code>, after: map<nat, Code>)
    requires Reported(turn.reload)
  {
    && (forall m | m in batch :: batch[m].id in after && after[batch[m].id] == Verdicts(batch, turn)[m])
    && Settled(loaded, loaded', batch, after)
    && after.Keys == before.Keys + PendingIds(batch)
    && (forall id | id in before :: after[id] == before[id])
  }

  lemma RestWaits(batch: map<string, Request>, rest: map<string, Request>, turn: Turn,
                  before: map<nat, Code>, mid: map<nat, Code>, code: map<string, Code>)
    requires Waiting(batch, before) && code.Keys == batch.Keys
    requires rest == batch - Swept(batch, turn.expired)
    requires Answered(before, mid, batch, Swept(batch, turn.expired), code)
    ensures Waiting(rest, mid)
  {
  }

  /** The sweep and the completion of the rest together answer the whole batch. */
  lemma BothHalves(batch: map<string, Request>, rest: map<string, Request>, swept: set<string>,
                   before: map<nat, Code>, mid: map<nat, Code>, after: map<nat, Code>, code: map<string, Code>)
    requires OwnIds(batch) && swept <= batch.Keys && code.Keys == batch.Keys && rest == batch - swept
    requires Answered(before, mid, batch, swept, code)
    requires Answered(mid, after, rest, rest.Keys, code)
    ensures Answered(before, after, batch, batch.Keys, code)
  {
    assert forall m | m in rest :: rest[m] == batch[m];
    assert Answered(mid, after, batch, rest.Keys, code);
    AnsweredTwice(before, mid, after, batch, swept, rest.Keys, code);
    assert swept + rest.Keys == batch.Keys;
  }

  lemma LostOnce(batch: map<string, Request>, rest: map<string, Request>, turn: Turn, loaded: map<string, Entry>)
    requires Reported(turn.reload) && rest == batch - Swept(batch, turn.expired)
    ensures loaded - Swept(batch, turn.expired) - (set m | m in rest && Verdicts(batch, turn)[m] != OK)
         == loaded - (set m | m in batch && Verdicts(batch, turn)[m] != OK)
  {
  }

  lemma {:induction false} Conclude(batch: map<string, Request>, rest: map<string, Request>, turn: Turn,
                 loaded: map<string, Entry>, loaded': map<string, Entry>,
                 before: map<nat, Code>, mid: map<nat, Code>, after: map<nat, Code>)
    requires Reported(turn.reload) && Waiting(batch, before) && Filed(batch, loaded)
    requires rest == batch - Swept(batch, turn.expired)
    requires Answered(before, mid, batch, Swept(batch, turn.expired), Verdicts(batch, turn))
    requires Answered(mid, after, rest, rest.Keys, Verdicts(batch, turn))
    requires loaded' == loaded - Swept(batch, turn.expired)
                        - (set m | m in rest && Verdicts(batch, turn)[m] != OK)
    ensures Concluded(batch, turn, loaded, loaded', before, after)
  {
    var code, swept := Verdicts(batch, turn), Swept(batch, turn.expired);
    BothHalves(batch, rest, swept, before, mid, after, code);
    AnsweredKeys(batch, before, after, code);
    LostOnce(batch, rest, turn, loaded);
    BatchSettled(loaded, loaded', batch, after, code);
  }

  /** What each load of a batch is told, case by case, and which loads stay desired. */
  lemma {:induction false} CodesExactly(batch: map<string, Request>, turn: Turn,
                                        loaded: map<string, Entry>, loaded': map<string, Entry>,
                                        before: map<nat, Code>, after: map<nat, Code>)
    requires Reported(turn.reload) && Concluded(batch, turn, loaded, loaded', before, after)
    ensures forall m | m in batch :: batch[m].id in after && (m in loaded' <==> after[batch[m].id] == OK)
    ensures forall m | m in batch && batch[m].id in turn.expired &&
                       turn.expired[batch[m].id] in [Canceled, DeadlineExceeded] ::
              after[batch[m].id] == ContextError(turn.expired[batch[m].id])
    ensures forall m | m in batch && !(batch[m].id in turn.expired &&
                                       turn.expired[batch[m].id] in [Canceled, DeadlineExceeded]) ::
              var code := after[batch[m].id];
              && (code == OK <==>
                    && turn.write == Done && turn.reload.Reloaded?
                    && m in turn.reload.status && turn.reload.status[m][0] == "AVAILABLE")
              && (code == Unknown <==>
                    && turn.write == Done && turn.reload.Reloaded?
                    && m in turn.reload.status && turn.reload.status[m][0] != "AVAILABLE")
              && (code == Internal <==>
                    turn.write != Done || turn.reload.ReloadFailed? || m !in turn.reload.status)
  {
    forall m | m in batch
      ensures m in loaded' <==> after[batch[m].id] == OK
      ensures after[batch[m].id] == Verdict(m, batch[m].id, turn.expired, ReloadOf(turn))
    {
    }
  }

  /** What a sweep leaves: a load is gone, answered with its context's error, exactly when that
      context was canceled or had passed its deadline. */
  lemma {:induction false} SweptExactly(batch: map<string, Request>, expired: map<nat, Ctx>,
                                        loaded: map<string, Entry>, before: map<nat, Code>, after: map<nat, Code>,
                                        code: map<string, Code>, m: string)
    requires Waiting(batch, before) && code.Keys == batch.Keys && m in batch
    requires forall k | k in batch && Expired(expired, batch[k].id) :: code[k] == ContextError(expired[batch[k].id])
    requires Answered(before, after, batch, Swept(batch, expired), code)
    ensures var id := batch[m].id;
            if id in expired && expired[id] in [Canceled, DeadlineExceeded]
            then id in after && after[id] == ContextError(expired[id])
                 && m !in batch - Swept(batch, expired) && m !in loaded - Swept(batch, expired)
            else id !in after && m in batch - Swept(batch, expired)
                 && (m in loaded - Swept(batch, expired) <==> m in loaded)
  {
  }

  /** The file written after the sweep names a load of the batch exactly when the load was not
      swept, and with its own path. */
  lemma {:induction false} FileOfBatch(batch: map<string, Request>, expired: map<nat, Ctx>,
                                       loaded: map<string, Entry>, list: seq<Entry>)
    requires Filed(batch, loaded) && Lists(list, loaded - Swept(batch, expired))
    ensures forall m | m in batch ::
              if batch[m].id in expired && expired[batch[m].id] in [Canceled, DeadlineExceeded]
              then forall e | e in list :: e.name != m
              else Entry(m, batch[m].basePath) in list
  {
    forall m, e | m in batch && Expired(expired, batch[m].id) && e in list ensures e.name != m {
      var i :| 0 <= i < |list| && list[i] == e;
    }
    forall m | m in batch && !Expired(expired, batch[m].id) ensures Entry(m, batch[m].basePath) in list {
      assert (loaded - Swept(batch, expired))[m] == Entry(m, batch[m].basePath);
    }
  }

  /* ---------- the file and the desired models after a batch ---------- */

  /** The loads that were still wanted when the file was written, and refused later. */
  ghost function RefusedLater(batch: map<string, Request>, turn: Turn): set<string>
    requires Reported(turn.reload)
  {
    set m | m in batch && !Expired(turn.expired, batch[m].id) && Verdicts(batch, turn)[m] != OK
  }

  /** The file written before the reload has these loads more than the models desired after it:
      the two agree exactly when every load that had not expired is answered OK. */
  ghost predicate FileTells(batch: map<string, Request>, turn: Turn, file: map<string, Entry>,
                            after: map<string, Entry>)
    requires Reported(turn.reload)
  {
    && after == file - RefusedLater(batch, turn) && RefusedLater(batch, turn) <= file.Keys
    && (file == after <==>
          forall m | m in batch && !Expired(turn.expired, batch[m].id) :: Verdicts(batch, turn)[m] == OK)
  }

  lemma FileAgrees(batch: map<string, Request>, turn: Turn, loaded: map<string, Entry>, file: map<string, Entry>)
    requires Reported(turn.reload) && Filed(batch, loaded) && file == loaded - Swept(batch, turn.expired)
    ensures FileTells(batch, turn, file, loaded - (set m | m in batch && Verdicts(batch, turn)[m] != OK))
  {
    var after := loaded - (set m | m in batch && Verdicts(batch, turn)[m] != OK);
    var refused := RefusedLater(batch, turn);
    forall m ensures m in after <==> m in file && m !in refused {
    }
    if m :| m in refused {
      assert m in file && m !in after;
    } else {
      assert file.Keys == after.Keys;
      assert file == after;
      forall m | m in batch && !Expired(turn.expired, batch[m].id) ensures Verdicts(batch, turn)[m] == OK {
        assert m !in refused;
      }
    }
  }

  /** One load, written and reloaded, which OVMS does not report: the file lists the model, and it
      is desired no longer. */
  lemma FileExample(t: Timing)
    ensures var load := Receive(0, Request(0, Load, "m", "/a"), Live, {});
            var g := Run(Start(map[], map[]), [load, Poll(t.min)], t);
            var turn := Turn(map[], Done, Reloaded(map[]));
            && g.stopped && !g.crashed && Filed(g.batch, g.loaded)
            && Models(AfterWrite(Done, NoFile, [Entry("m", "/a")])) == g.loaded - Swept(g.batch, turn.expired)
            && Concluded(g.batch, turn, g.loaded, map[], g.answers, map[0 := Internal])
            && FileTells(g.batch, turn, g.loaded, map[]) && g.loaded == map["m" := Entry("m", "/a")]
  {
    var load := Receive(0, Request(0, Load, "m", "/a"), Live, {});
    var poll := Poll(t.min);
    var turn := Turn(map[], Done, Reloaded(map[]));
    RunAppend(Start(map[], map[]), [], load, t);
    RunAppend(Start(map[], map[]), [load], poll, t);
    assert [] + [load] == [load] && [load] + [poll] == [load, poll];
    var g := Run(Start(map[], map[]), [load, poll], t);
    assert g.batch == map["m" := load.req] && g.loaded == map["m" := Entry("m", "/a")];
    FromListAppend([], Entry("m", "/a"));
    assert [] + [Entry("m", "/a")] == [Entry("m", "/a")];
    assert Swept(g.batch, turn.expired) == {} && PendingIds(g.batch) == {0};
    assert "m" in RefusedLater(g.batch, turn);
    FileAgrees(g.batch, turn, g.loaded, g.loaded);
    assert g.loaded - (set m | m in g.batch && Verdicts(g.batch, turn)[m] != OK) == map[];
  }

  lemma SettledIs(loaded: map<string, Entry>, after: map<string, Entry>, batch: map<string, Request>, turn: Turn,
                  before: map<nat, Code>, answers: map<nat, Code>)
    requires Reported(turn.reload) && Concluded(batch, turn, loaded, after, before, answers) && Filed(batch, loaded)
    ensures after == loaded - (set m | m in batch && Verdicts(batch, turn)[m] != OK)
  {
    forall m ensures m in after <==> m in loaded && (m in batch ==> Verdicts(batch, turn)[m] == OK) {
    }
  }

  /* ---------- the models desired, over any number of turns ---------- */

  lemma {:induction false} LastJoin(a: seq<Event>, b: seq<Event>, m: string)
    ensures Last(a + b, m) == if Last(b, m) >= 0 then |a| + Last(b, m) else Last(a, m)
    decreases |b|
  {
    if b == [] {
      assert a + b == a;
    } else {
      var front, e := b[..|b| - 1], b[|b| - 1];
      assert a + b == (a + front) + [e] && b == front + [e];
      LastAppend(a + front, e, m);
      LastAppend(front, e, m);
      LastJoin(a, front, m);
    }
  }

  /** The last accepted request about a model decides: after a load the model is desired, with
      that load's path, unless the load was answered with an error; after an unload it is not;
      and where there was no request nothing changed. */
  ghost predicate Followed(first: map<string, Entry>, events: seq<Event>, loaded: map<string, Entry>,
                           answers: map<nat, Code>, m: string)
  {
    var i := Last(events, m);
    if i < 0 then (m in loaded <==> m in first) && (m in first ==> loaded[m] == first[m])
    else if events[i].req.kind.Load? then
      var r := events[i].req;
      && (m in loaded <==> (r.id in answers ==> answers[r.id] == OK))
      && (m in loaded ==> loaded[m] == Entry(m, r.basePath))
    else m !in loaded
  }

  ghost predicate AllFollowed(first: map<string, Entry>, events: seq<Event>, loaded: map<string, Entry>,
                              answers: map<nat, Code>)
  {
    forall m: string :: Followed(first, events, loaded, answers, m)
  }

  lemma NothingFollowed(first: map<string, Entry>, answers: map<nat, Code>)
    ensures AllFollowed(first, [], first, answers)
  {
  }

  /** What is known of a model's last request when no batch is under way. */
  ghost predicate LastKnown(events: seq<Event>, g: Gather, m: string) {
    var i := Last(events, m);
    if m in g.batch then i >= 0 && events[i].req == g.batch[m] && g.batch[m].kind.Load?
    else i >= 0 ==> events[i].req.id in g.answers
  }

  /** A gather goes on where the turns before it ended. */
  lemma GatherFollowed(first: map<string, Entry>, events: seq<Event>, loaded: map<string, Entry>,
                       answers: map<nat, Code>, more: seq<Event>, t: Timing, m: string)
    requires Followed(first, events, loaded, answers, m) && Ids(events) <= answers.Keys
    requires FreshIds(more, answers) && Open(Run(Start(loaded, answers), more, t))
    ensures var g := Run(Start(loaded, answers), more, t);
            Followed(first, events + more, g.loaded, g.answers, m) && LastKnown(events + more, g, m)
  {
    var g := Run(Start(loaded, answers), more, t);
    var i, k := Last(events, m), Last(more, m);
    LastJoin(events, more, m);
    BatchIs(loaded, answers, more, t, m);
    AnswersAre(loaded, answers, more, t);
    if k >= 0 {
      assert (events + more)[|events| + k] == more[k];
      assert AnsweredRight(more, g, k);
    } else if i >= 0 {
      assert (events + more)[i] == events[i];
      assert events[i].req.id in Ids(events);
    }
  }

  /** The end of a batch drops exactly the models whose loads it answers with an error. */
  lemma ConcludeFollowed(first: map<string, Entry>, events: seq<Event>, g: Gather, turn: Turn,
                         loaded: map<string, Entry>, answers: map<nat, Code>, m: string)
    requires Followed(first, events, g.loaded, g.answers, m) && LastKnown(events, g, m)
    requires Reported(turn.reload) && Concluded(g.batch, turn, g.loaded, loaded, g.answers, answers)
    ensures Followed(first, events, loaded, answers, m)
  {
  }

  lemma PollFollowed(first: map<string, Entry>, events: seq<Event>, poll: Event, loaded: map<string, Entry>,
                     answers: map<nat, Code>, m: string)
    requires Followed(first, events, loaded, answers, m) && poll.Poll?
    ensures Followed(first, events + [poll], loaded, answers, m)
  {
    LastAppend(events, poll, m);
    var i := Last(events, m);
    assert i >= 0 ==> (events + [poll])[i] == events[i];
  }

  /** A turn so far: a gather that goes on. */
  lemma GatherAllFollowed(first: map<string, Entry>, events: seq<Event>, loaded: map<string, Entry>,
                          answers: map<nat, Code>, more: seq<Event>, t: Timing)
    requires AllFollowed(first, events, loaded, answers) && Ids(events) <= answers.Keys
    requires FreshIds(more, answers) && Open(Run(Start(loaded, answers), more, t))
    ensures var g := Run(Start(loaded, answers), more, t); AllFollowed(first, events + more, g.loaded, g.answers)
  {
    var g := Run(Start(loaded, answers), more, t);
    forall m: string ensures Followed(first, events + more, g.loaded, g.answers, m) {
      GatherFollowed(first, events, loaded, answers, more, t, m);
    }
  }

  /** A whole turn, up to and with the look at the timer that ends its gather. */
  lemma TurnAllFollowed(first: map<string, Entry>, events: seq<Event>, loaded: map<string, Entry>,
                        answers: map<nat, Code>, more: seq<Event>, poll: Event, t: Timing, turn: Turn,
                        loaded': map<string, Entry>, answers': map<nat, Code>)
    requires AllFollowed(first, events, loaded, answers) && Ids(events) <= answers.Keys
    requires FreshIds(more, answers) && Open(Run(Start(loaded, answers), more, t)) && poll.Poll?
    requires Reported(turn.reload)
    requires var g := Run(Start(loaded, answers), more, t);
             Concluded(g.batch, turn, g.loaded, loaded', g.answers, answers')
    ensures AllFollowed(first, events + more + [poll], loaded', answers')
  {
    var g := Run(Start(loaded, answers), more, t);
    forall m: string ensures Followed(first, events + more + [poll], loaded', answers', m) {
      GatherFollowed(first, events, loaded, answers, more, t, m);
      ConcludeFollowed(first, events + more, g, turn, loaded', answers', m);
      PollFollowed(first, events + more, poll, loaded', answers', m);
    }
  }

  /** The same, for the part of a run's events that one turn met. */
  lemma NextFollowed(first: map<string, Entry>, events: seq<Event>, met: nat, n: nat, loaded: map<string, Entry>,
                     answers: map<nat, Code>, t: Timing, turn: Turn,
                     loaded': map<string, Entry>, answers': map<nat, Code>)
    requires 0 < n && met + n <= |events| && AllFollowed(first, events[..met], loaded, answers)
    requires Ids(events[..met]) <= answers.Keys && FreshIds(events[met..], answers)
    requires Reported(turn.reload) && events[met..][n - 1].Poll?
    requires var g := Run(Start(loaded, answers), events[met..][..n - 1], t);
             Open(g) && Concluded(g.batch, turn, g.loaded, loaded', g.answers, answers')
    ensures AllFollowed(first, events[..met + n], loaded', answers')
  {
    var more, poll := events[met..][..n - 1], events[met..][n - 1];
    FreshFront(events[met..], answers, n - 1);
    TurnAllFollowed(first, events[..met], loaded, answers, more, poll, t, turn, loaded', answers');
    assert events[..met + n] == events[..met] + more + [poll];
  }

  lemma GoesOnFollowed(first: map<string, Entry>, events: seq<Event>, met: nat, n: nat, loaded: map<string, Entry>,
                       answers: map<nat, Code>, t: Timing)
    requires met + n <= |events| && AllFollowed(first, events[..met], loaded, answers)
    requires Ids(events[..met]) <= answers.Keys && FreshIds(events[met..], answers)
    requires Open(Run(Start(loaded, answers), events[met..][..n], t))
    ensures var g := Run(Start(loaded, answers), events[met..][..n], t);
            AllFollowed(first, events[..met + n], g.loaded, g.answers)
  {
    FreshFront(events[met..], answers, n);
    GatherAllFollowed(first, events[..met], loaded, answers, events[met..][..n], t);
    assert events[..met + n] == events[..met] + events[met..][..n];
  }
}
