/** The OVMS model manager: the actor loop of model-mesh-ovms-adapter/server/modelmanager.go
    over its own fields.  What the outside world does is an argument: the requests and looks at
    the timer that each select meets, the contexts that are done by a given moment, and how the
    config write and the reload end. */
module OvmsManagers {
  import opened OvmsGather
  import opened OvmsConfig
  import opened OvmsTurns
  import opened Wrappers

  class OvmsModelManager {
    const timing: Timing
    var loadedModelsMap: map<string, Entry>
    var answers: map<nat, Code>          // what was sent on each request's channel of size one
    var list: array<Entry>               // modelRepositoryConfigList: backing array and length
    var listLen: nat
    var configFile: ConfigFile

    ghost predicate Valid()
      reads this, list
    {
      listLen <= list.Length && WellNamed(loadedModelsMap)
    }

    /** Lines 108 to 162: boot from the file of an earlier process, if there is one; a first file
        is written, and a failure to do so is only logged. */
    constructor (timing: Timing, file: ConfigFile, write: Write)
      ensures Valid() && answers == map[] && fresh(list) && this.timing == timing
      ensures loadedModelsMap == Models(file)
      ensures file.NoFile? || file.Unusable? ==> loadedModelsMap == map[]
      ensures file.Written? ==> loadedModelsMap == FromList(file.list) && configFile == file
      ensures !file.NoFile? || write == Refused ==> configFile == file
      ensures file.NoFile? && write == Done ==> configFile == Written([])
      ensures file.NoFile? && write == Torn ==> configFile == Unusable
    {
      this.timing := timing;
      loadedModelsMap := map[];
      answers := map[];
      list := new Entry[0];
      listLen := 0;
      configFile := file;
      new;
      if file.Written? {
        FromListNamed(file.list);
        ReadConfig(file.list);
        list := new Entry[|loadedModelsMap|];
      } else if file.NoFile? {
        WriteConfig(write);
      }
    }

    /** Lines 120 to 123. */
    method ReadConfig(file: seq<Entry>)
      modifies this`loadedModelsMap
      ensures loadedModelsMap == FromList(file)
    {
      loadedModelsMap := map[];
      var i := 0;
      while i < |file|
        invariant 0 <= i <= |file|
        invariant loadedModelsMap == FromList(file[..i])
      {
        FromListAppend(file[..i], file[i]);
        assert file[..i + 1] == file[..i] + [file[i]];
        loadedModelsMap := loadedModelsMap[file[i].name := file[i]];
        i := i + 1;
      }
      assert file[..|file|] == file;
    }

    /** Line 449.  The channel has room for one answer: a second send would block the actor. */
    method CompleteRequest(req: Request, code: Code)
      requires req.id !in answers
      modifies this`answers
      ensures answers == old(answers)[req.id := code]
    {
      answers := answers[req.id := code];
    }

    /** writeConfig, lines 494 to 518: the buffer is reused and only ever grows. */
    method WriteConfig(write: Write)
      requires Valid()
      modifies this`list, this`listLen, this`configFile, list
      ensures Valid() && (list == old(list) || fresh(list))
      ensures Lists(list[..listLen], loadedModelsMap)
      ensures write == Done ==> configFile == Written(list[..listLen])
      ensures write == Refused ==> configFile == old(configFile)
      ensures write == Torn ==> configFile == Unusable
      ensures FileIs(write, old(configFile), configFile, loadedModelsMap)
    {
      if list.Length < |loadedModelsMap| {
        list := new Entry[|loadedModelsMap|];
      }
      listLen := |loadedModelsMap|;
      FillList();
      match write {
        case Done => configFile := Written(list[..listLen]);
        case Refused =>
        case Torn => configFile := Unusable;
      }
      BootRebuilds(list[..listLen], loadedModelsMap);
    }

    /** Lines 502 to 506: one slot for each entry, in the order of the map iteration. */
    method FillList()
      requires listLen == |loadedModelsMap| <= list.Length && WellNamed(loadedModelsMap)
      modifies list
      ensures Lists(list[..listLen], loadedModelsMap)
    {
      var todo := loadedModelsMap.Keys;
      var listIndex := 0;
      while todo != {}
        invariant todo <= loadedModelsMap.Keys && listIndex + |todo| == listLen
        invariant PartlyListed(list[..listIndex], todo, loadedModelsMap)
        decreases todo
      {
        var m :| m in todo;
        assert |todo - {m}| == |todo| - 1;
        ListOneMore(list[..listIndex], todo, loadedModelsMap, m);
        list[listIndex] := loadedModelsMap[m];
        assert list[..listIndex + 1] == list[..listIndex] + [loadedModelsMap[m]];
        listIndex := listIndex + 1;
        todo := todo - {m};
      }
    }

    /** Lines 385 to 389: abort every pending load, in any order. */
    method AbortAll(requestMap: map<string, Request>, done: set<nat>) returns (crashed: bool)
      requires Waiting(requestMap, answers)
      modifies this`answers
      ensures crashed == exists m | m in requestMap :: requestMap[m].id !in done
      ensures !crashed ==> answers == old(answers) + map m | m in requestMap :: requestMap[m].id := Aborted
    {
      ghost var code := map m | m in requestMap :: Aborted;
      ghost var aborted: set<string> := {};
      var todo := requestMap.Keys;
      while todo != {}
        invariant todo + aborted == requestMap.Keys && todo !! aborted
        invariant forall m | m in aborted :: requestMap[m].id in done
        invariant Answered(old(answers), answers, requestMap, aborted, code)
        decreases todo
      {
        var m :| m in todo;
        if requestMap[m].id !in done {
          return true;
        }
        AnswerOne(old(answers), answers, requestMap, aborted, code, m);
        CompleteRequest(requestMap[m], Aborted);
        todo, aborted := todo - {m}, aborted + {m};
      }
      AllAborted(old(answers), answers, requestMap, code);
      return false;
    }

    /** Lines 381 to 402. */
    method ProcessUnloadAll(e: Event, requestMap: map<string, Request>) returns (crashed: bool)
      requires e.Receive? && Waiting(requestMap, answers)
      requires e.req.id !in answers && forall m | m in requestMap :: requestMap[m].id != e.req.id
      modifies this`answers, this`loadedModelsMap
      ensures crashed == exists m | m in requestMap :: requestMap[m].id !in e.done
      ensures !crashed ==> loadedModelsMap == map[]
      ensures !crashed ==>
                answers == (old(answers) + map m | m in requestMap :: requestMap[m].id := Aborted)[e.req.id := OK]
    {
      crashed := AbortAll(requestMap, e.done);
      if !crashed {
        CompleteRequest(e.req, OK);
        loadedModelsMap := map[];
      }
    }

    /** Lines 406 to 410 and 424 to 427: abort a pending load of the model. */
    method AbortPending(m: string, requestMap: map<string, Request>, done: set<nat>) returns (crashed: bool)
      requires Waiting(requestMap, answers)
      modifies this`answers
      ensures crashed == (m in requestMap && requestMap[m].id !in done)
      ensures answers == if m in requestMap && !crashed then old(answers)[requestMap[m].id := Aborted] else old(answers)
    {
      crashed := false;
      if m in requestMap {
        if requestMap[m].id !in done {
          crashed := true;
          return;
        }
        CompleteRequest(requestMap[m], Aborted);
      }
    }

    /** Lines 404 to 420. */
    method ProcessUnload(e: Event, requestMap: map<string, Request>) returns (crashed: bool)
      requires e.Receive? && Waiting(requestMap, answers)
      requires e.req.id !in answers && forall m | m in requestMap :: requestMap[m].id != e.req.id
      modifies this`answers, this`loadedModelsMap
      ensures crashed == (e.req.modelId in requestMap && requestMap[e.req.modelId].id !in e.done)
      ensures !crashed ==> loadedModelsMap == old(loadedModelsMap) - {e.req.modelId}
      ensures !crashed ==>
                answers == (if e.req.modelId in requestMap then old(answers)[requestMap[e.req.modelId].id := Aborted]
                            else old(answers))[e.req.id := OK]
    {
      crashed := AbortPending(e.req.modelId, requestMap, e.done);
      if !crashed {
        loadedModelsMap := loadedModelsMap - {e.req.modelId};
        CompleteRequest(e.req, OK);
      }
    }

    /** One turn of the select of line 361, with the locals of the loop as arguments. */
    method Select(e: Event, requestMap: map<string, Request>, stopChan: Option<int>, shortTimerSet: bool)
      returns (requestMap': map<string, Request>, stopChan': Option<int>, shortTimerSet': bool,
               stopped: bool, crashed: bool)
      requires Waiting(requestMap, answers)
      requires e.Receive? ==> e.req.id !in answers && forall m | m in requestMap :: requestMap[m].id != e.req.id
      modifies this`answers, this`loadedModelsMap
      ensures var g := Gather(old(loadedModelsMap), requestMap, stopChan, shortTimerSet, old(answers), false, false);
              && crashed == Step(g, e, timing).crashed
              && (!crashed ==>
                    Step(g, e, timing)
                    == Gather(loadedModelsMap, requestMap', stopChan', shortTimerSet', answers, stopped, false))
      ensures crashed ==> !stopped
      ensures WellNamed(old(loadedModelsMap)) && !crashed ==> WellNamed(loadedModelsMap)
    {
      requestMap', stopChan', shortTimerSet', stopped, crashed := requestMap, stopChan, shortTimerSet, false, false;
      match e
      case Poll(now) =>
        stopped := stopChan.Some? && stopChan.value <= now;
      case Receive(now, req, ctx, done) =>
        if !ctx.Live? {
          CompleteRequest(req, ContextError(ctx));
          return;
        }
        match req.kind
        case UnloadAll =>
          crashed := ProcessUnloadAll(e, requestMap);
          requestMap' := map[];
          if stopChan.None? {
            shortTimerSet' := false;
            stopChan' := Some(now + timing.max);
          }
        case Unload =>
          crashed := ProcessUnload(e, requestMap);
          requestMap' := requestMap - {req.modelId};
          if stopChan.None? {
            stopChan' := Some(now + timing.max);
          }
        case Load =>
          crashed := AbortPending(req.modelId, requestMap, done);
          if stopChan.None? || !shortTimerSet {
            shortTimerSet' := true;
            stopChan' := Some(now + timing.min);
          }
          requestMap' := requestMap[req.modelId := req];
          loadedModelsMap := loadedModelsMap[req.modelId := Entry(req.modelId, req.basePath)];
    }

    /** gatherLoadRequests: `n` events are met; without `stopped` or `crashed` the actor still
        waits in the select after all of them. */
    method GatherLoadRequests(events: seq<Event>)
      returns (n: nat, requestMap: map<string, Request>, stopped: bool, crashed: bool)
      requires FreshIds(events, answers) && WellNamed(loadedModelsMap)
      modifies this`answers, this`loadedModelsMap
      ensures (!crashed ==> WellNamed(loadedModelsMap)) && n <= |events|
      ensures (stopped || crashed || n == |events|) && !(stopped && crashed)
      ensures var g := Run(Start(old(loadedModelsMap), old(answers)), events[..n], timing);
              && crashed == g.crashed && stopped == g.stopped
              && (!crashed ==> loadedModelsMap == g.loaded && answers == g.answers && requestMap == g.batch)
      ensures stopped ==>
                && n > 0 && events[n - 1].Poll?
                && var g := Run(Start(old(loadedModelsMap), old(answers)), events[..n - 1], timing);
                   Open(g) && loadedModelsMap == g.loaded && answers == g.answers && requestMap == g.batch
    {
      requestMap := map[];
      stopped, crashed := false, false;
      n := 0;
      var stopChan: Option<int> := None;
      var shortTimerSet := false;
      ghost var g0 := Start(loadedModelsMap, answers);
      while n < |events| && !stopped && !crashed
        invariant 0 <= n <= |events| && (!crashed ==> WellNamed(loadedModelsMap))
        invariant Run(g0, events[..n], timing).crashed == crashed
        invariant Run(g0, events[..n], timing).stopped == stopped
        invariant !crashed ==>
                    Run(g0, events[..n], timing)
                    == Gather(loadedModelsMap, requestMap, stopChan, shortTimerSet, answers, stopped, false)
        invariant stopped ==>
                    && n > 0 && events[n - 1].Poll? && !crashed
                    && var g := Run(g0, events[..n - 1], timing);
                       Open(g) && loadedModelsMap == g.loaded && answers == g.answers && requestMap == g.batch
      {
        GatherWaits(old(loadedModelsMap), old(answers), events, n, timing);
        RunAppend(g0, events[..n], events[n], timing);
        assert events[..n + 1] == events[..n] + [events[n]];
        ghost var g := Run(g0, events[..n], timing);
        StopKeeps(g, events[n], timing);
        requestMap, stopChan, shortTimerSet, stopped, crashed :=
          Select(events[n], requestMap, stopChan, shortTimerSet);
        n := n + 1;
      }
    }

    /** Lines 276 to 285: answer the loads whose callers gave up, and drop their models. */
    method SweepExpired(batch: map<string, Request>, expired: map<nat, Ctx>, ghost code: map<string, Code>)
      returns (rest: map<string, Request>)
      requires Waiting(batch, answers) && code.Keys == batch.Keys
      requires forall m | m in batch && Expired(expired, batch[m].id) :: code[m] == ContextError(expired[batch[m].id])
      modifies this`answers, this`loadedModelsMap
      ensures rest == batch - Swept(batch, expired)
      ensures loadedModelsMap == old(loadedModelsMap) - Swept(batch, expired)
      ensures Answered(old(answers), answers, batch, Swept(batch, expired), code)
      ensures forall m | m in batch && batch[m].id in expired &&
                         expired[batch[m].id] in [Canceled, DeadlineExceeded] ::
                && m !in rest && m !in loadedModelsMap
                && batch[m].id in answers && answers[batch[m].id] == ContextError(expired[batch[m].id])
      ensures forall m | m in batch && !(batch[m].id in expired &&
                                         expired[batch[m].id] in [Canceled, DeadlineExceeded]) ::
                && m in rest && rest[m] == batch[m] && batch[m].id !in answers
                && (m in loadedModelsMap <==> m in old(loadedModelsMap))
    {
      rest := batch;
      ghost var gone: set<string> := {};
      var todo := batch.Keys;
      while todo != {}
        invariant Sweeping(batch, expired, todo, gone, rest, old(loadedModelsMap), loadedModelsMap)
        invariant Answered(old(answers), answers, batch, gone, code)
        decreases todo
      {
        var m :| m in todo;
        SweepMore(batch, expired, todo, gone, rest, old(loadedModelsMap), loadedModelsMap, m);
        if Expired(expired, batch[m].id) {
          AnswerOne(old(answers), answers, batch, gone, code, m);
          CompleteRequest(batch[m], ContextError(expired[batch[m].id]));
          loadedModelsMap := loadedModelsMap - {m};
          rest := rest - {m};
          gone := gone + {m};
        }
        todo := todo - {m};
      }
      forall m | m in batch {
        SweptExactly(batch, expired, old(loadedModelsMap), old(answers), answers, code, m);
      }
    }

    /** Lines 295 to 298: the reload was not confirmed, so every load failed. */
    method FailLoads(rest: map<string, Request>, ghost code: map<string, Code>)
      requires Waiting(rest, answers) && rest.Keys <= code.Keys
      requires forall m | m in rest :: code[m] == Internal
      modifies this`answers, this`loadedModelsMap
      ensures loadedModelsMap == old(loadedModelsMap) - rest.Keys
      ensures Answered(old(answers), answers, rest, rest.Keys, code)
    {
      ghost var gone: set<string> := {};
      var todo := rest.Keys;
      while todo != {}
        invariant todo + gone == rest.Keys && todo !! gone
        invariant loadedModelsMap == old(loadedModelsMap) - gone
        invariant Answered(old(answers), answers, rest, gone, code)
        decreases todo
      {
        var m :| m in todo;
        AnswerOne(old(answers), answers, rest, gone, code, m);
        CompleteRequest(rest[m], Internal);
        loadedModelsMap := loadedModelsMap - {m};
        todo, gone := todo - {m}, gone + {m};
      }
    }

    /** Lines 304 to 333: answer each load by the first version's state, and drop the failed. */
    method CompleteLoads(rest: map<string, Request>, status: map<string, seq<string>>, ghost code: map<string, Code>)
      requires Waiting(rest, answers) && rest.Keys <= code.Keys
      requires forall m | m in status :: status[m] != []
      requires forall m | m in rest ::
                 code[m] == if m !in status then Internal else if status[m][0] == "AVAILABLE" then OK else Unknown
      modifies this`answers, this`loadedModelsMap
      ensures loadedModelsMap == old(loadedModelsMap) - (set m | m in rest && code[m] != OK)
      ensures Answered(old(answers), answers, rest, rest.Keys, code)
    {
      ghost var seen: set<string> := {};
      var todo := rest.Keys;
      while todo != {}
        invariant todo + seen == rest.Keys && todo !! seen
        invariant loadedModelsMap == old(loadedModelsMap) - (set m | m in seen && code[m] != OK)
        invariant Answered(old(answers), answers, rest, seen, code)
        decreases todo
      {
        var m :| m in todo;
        var verdict := if m !in status then Internal
                       else if status[m][0] == "AVAILABLE" then OK else Unknown;
        AnswerOne(old(answers), answers, rest, seen, code, m);
        CompleteRequest(rest[m], verdict);
        if verdict != OK {
          loadedModelsMap := loadedModelsMap - {m};
        }
        todo, seen := todo - {m}, seen + {m};
      }
    }

    /** Lines 276 to 288 with the write of updateModelConfig: what is written has no expired load. */
    method SweepAndWrite(batch: map<string, Request>, turn: Turn, ghost code: map<string, Code>)
      returns (rest: map<string, Request>)
      requires Valid() && Waiting(batch, answers) && code.Keys == batch.Keys
      requires forall m | m in batch && Expired(turn.expired, batch[m].id) ::
                 code[m] == ContextError(turn.expired[batch[m].id])
      modifies this`answers, this`loadedModelsMap, this`list, this`listLen, this`configFile, list
      ensures Valid() && (list == old(list) || fresh(list))
      ensures rest == batch - Swept(batch, turn.expired)
      ensures loadedModelsMap == old(loadedModelsMap) - Swept(batch, turn.expired)
      ensures Answered(old(answers), answers, batch, Swept(batch, turn.expired), code)
      ensures FileIs(turn.write, old(configFile), configFile, old(loadedModelsMap) - Swept(batch, turn.expired))
    {
      rest := SweepExpired(batch, turn.expired, code);
      WriteConfig(turn.write);
    }

    /** Lines 288 to 333, after the sweep: with it every load of the batch is answered, and those
        refused are dropped. */
    method AnswerRest(batch: map<string, Request>, rest: map<string, Request>, turn: Turn,
                      ghost loaded: map<string, Entry>, ghost before: map<nat, Code>)
      requires Reported(turn.reload) && Waiting(batch, before) && Filed(batch, loaded)
      requires rest == batch - Swept(batch, turn.expired) && loadedModelsMap == loaded - Swept(batch, turn.expired)
      requires Answered(before, answers, batch, Swept(batch, turn.expired), Verdicts(batch, turn))
      modifies this`answers, this`loadedModelsMap
      ensures Concluded(batch, turn, loaded, loadedModelsMap, before, answers)
      ensures loadedModelsMap.Keys <= old(loadedModelsMap).Keys
      ensures forall m | m in loadedModelsMap :: loadedModelsMap[m] == old(loadedModelsMap)[m]
    {
      ghost var mid, code := answers, Verdicts(batch, turn);
      RestWaits(batch, rest, turn, before, mid, code);
      CompleteRest(rest, ReloadOf(turn), turn.expired, code);
      Conclude(batch, rest, turn, loaded, loadedModelsMap, before, mid, answers);
    }

    /** Lines 276 to 333: the batch is over, and this is what the file and the desired models then
        have in common. */
    method FinishBatch(batch: map<string, Request>, turn: Turn)
      requires Valid() && Waiting(batch, answers) && Reported(turn.reload)
      requires Filed(batch, loadedModelsMap)
      modifies this`answers, this`loadedModelsMap, this`list, this`listLen, this`configFile, list
      ensures Valid() && (list == old(list) || fresh(list))
      ensures Concluded(batch, turn, old(loadedModelsMap), loadedModelsMap, old(answers), answers)
      ensures FileIs(turn.write, old(configFile), configFile, old(loadedModelsMap) - Swept(batch, turn.expired))
      ensures turn.write.Done? ==> FileTells(batch, turn, Models(configFile), loadedModelsMap)
      ensures turn.write == Refused ==> configFile == old(configFile)
      ensures turn.write == Torn ==> configFile == Unusable
      ensures turn.write.Done? ==> configFile.Written? && forall m | m in batch ::
                if batch[m].id in turn.expired && turn.expired[batch[m].id] in [Canceled, DeadlineExceeded]
                then forall e | e in configFile.list :: e.name != m
                else Entry(m, batch[m].basePath) in configFile.list
    {
      ghost var loaded, before := loadedModelsMap, answers;
      var rest := SweepAndWrite(batch, turn, Verdicts(batch, turn));
      AnswerRest(batch, rest, turn, loaded, before);
      if turn.write.Done? {
        SettledIs(loaded, loadedModelsMap, batch, turn, before, answers);
        FileAgrees(batch, turn, loaded, Models(configFile));
        FileOfBatch(batch, turn.expired, loaded, configFile.list);
      }
    }

    /** One turn of the loop of line 270: when the gather ends, every request it met is answered. */
    method RunOnce(events: seq<Event>, turn: Turn)
      returns (n: nat, pending: map<string, Request>, stopped: bool, crashed: bool)
      requires Valid() && FreshIds(events, answers) && Reported(turn.reload)
      modifies this`answers, this`loadedModelsMap, this`list, this`listLen, this`configFile, list
      ensures n <= |events| && (list == old(list) || fresh(list)) && !(stopped && crashed)
      ensures !stopped && !crashed ==> n == |events|
      ensures !crashed ==> Valid() && FreshIds(events[n..], answers)
      ensures !crashed ==> Handled(answers, pending) == old(answers).Keys + Ids(events[..n])
      ensures !crashed ==> Waiting(pending, answers)
      ensures !crashed ==> forall id | id in old(answers) :: id in answers && answers[id] == old(answers)[id]
      ensures stopped ==> n > 0 && pending == map[]
      ensures stopped ==>
                var g := Run(Start(old(loadedModelsMap), old(answers)), events[..n - 1], timing);
                && Open(g) && events[n - 1].Poll?
                && Concluded(g.batch, turn, g.loaded, loadedModelsMap, g.answers, answers)
      ensures !stopped && !crashed ==>
                var g := Run(Start(old(loadedModelsMap), old(answers)), events[..n], timing);
                && Open(g) && loadedModelsMap == g.loaded && answers == g.answers && pending == g.batch
      ensures crashed <==> Run(Start(old(loadedModelsMap), old(answers)), events[..n], timing).crashed
    {
      ghost var loaded0, answers0 := loadedModelsMap, answers;
      n, pending, stopped, crashed := GatherLoadRequests(events);
      if crashed {
        return;
      }
      ghost var k: nat := if stopped then n - 1 else n;
      FreshFront(events, answers0, k);
      GatherWaits(loaded0, answers0, events, k, timing);
      GatherIds(loaded0, answers0, events[..k], timing);
      AnswersAre(loaded0, answers0, events[..k], timing);
      if stopped {
        forall m | m in pending ensures m in loadedModelsMap && loadedModelsMap[m] == Entry(m, pending[m].basePath) {
          BatchIs(loaded0, answers0, events[..k], timing, m);
        }
        FinishBatch(pending, turn);
        pending := map[];
        IdsPoll(events, n);
      }
      FreshTail(events, answers0, answers, n);
    }

    /** RunOnce, seen by the accounts of the whole run. */
    method RunNext(ghost events: seq<Event>, met: nat, rest: seq<Event>, turn: Turn,
                   ghost first: map<string, Entry>, ghost keys: set<nat>)
      returns (n: nat, pending: map<string, Request>, stopped: bool, crashed: bool)
      requires Valid() && FreshIds(rest, answers) && Reported(turn.reload)
      requires met <= |events| && rest == events[met..] && Accounted(events, met, keys, answers.Keys)
      requires AllFollowed(first, events[..met], loadedModelsMap, answers)
      modifies this`answers, this`loadedModelsMap, this`list, this`listLen, this`configFile, list
      ensures met + n <= |events| && (list == old(list) || fresh(list))
      ensures !stopped && !crashed ==> met + n == |events|
      ensures !crashed ==> Valid() && Waiting(pending, answers)
      ensures !crashed ==> Accounted(events, met + n, keys, Handled(answers, pending))
      ensures !crashed ==> AllFollowed(first, events[..met + n], loadedModelsMap, answers)
      ensures stopped ==> !crashed && n > 0 && pending == map[]
      ensures stopped ==> rest[n..] == events[met + n..] && FreshIds(rest[n..], answers)
      ensures stopped ==> Accounted(events, met + n, keys, answers.Keys)
    {
      ghost var loaded0, answers0 := loadedModelsMap, answers;
      n, pending, stopped, crashed := RunOnce(rest, turn);
      MoreAccounted(events, met, n, keys, answers0.Keys, Handled(answers, pending));
      NonePending(answers);
      if stopped {
        NextFollowed(first, events, met, n, loaded0, answers0, timing, turn, loadedModelsMap, answers);
      } else if !crashed {
        GoesOnFollowed(first, events, met, n, loaded0, answers0, timing);
      }
    }

    /** The actor over any run: of the requests received, each was answered once (a second answer
        would break the precondition of CompleteRequest) or waits in the batch of a gather that
        has not ended; after a whole number of turns none waits.  What is desired is what the last
        request about each model and its answer say. */
    method RunLoop(events: seq<Event>, turns: seq<Turn>)
      returns (met: nat, done: nat, pending: map<string, Request>, crashed: bool)
      requires Valid() && FreshIds(events, answers)
      requires forall i | 0 <= i < |turns| :: Reported(turns[i].reload)
      modifies this`answers, this`loadedModelsMap, this`list, this`listLen, this`configFile, list
      ensures met <= |events| && done <= |turns|
      ensures !crashed ==> Valid() && Waiting(pending, answers)
      ensures !crashed ==> Accounted(events, met, old(answers).Keys, Handled(answers, pending))
      ensures !crashed ==> AllFollowed(old(loadedModelsMap), events[..met], loadedModelsMap, answers)
      ensures !crashed && done == |turns| ==> pending == map[]
      ensures !crashed && done < |turns| ==> met == |events|
    {
      met, done, pending, crashed := 0, 0, map[], false;
      var rest := events;
      ghost var first, keys := loadedModelsMap, answers.Keys;
      assert Ids(events[..0]) == {} && events[..0] == [];
      NothingFollowed(first, answers);
      while done < |turns|
        invariant 0 <= met <= |events| && 0 <= done <= |turns| && rest == events[met..]
        invariant list == old(list) || fresh(list)
        invariant Valid() && FreshIds(rest, answers) && pending == map[] && !crashed
        invariant Accounted(events, met, keys, answers.Keys)
        invariant AllFollowed(first, events[..met], loadedModelsMap, answers)
      {
        var n, stopped;
        n, pending, stopped, crashed := RunNext(events, met, rest, turns[done], first, keys);
        met := met + n;
        if !stopped {
          return;
        }
        rest := rest[n..];
        done := done + 1;
      }
      NonePending(answers);
    }

    /** Lines 288 to 333. */
    method CompleteRest(rest: map<string, Request>, reload: Reload, expired: map<nat, Ctx>,
                        ghost code: map<string, Code>)
      requires Waiting(rest, answers) && rest.Keys <= code.Keys && Reported(reload)
      requires forall m | m in rest ::
                 !Expired(expired, rest[m].id) && code[m] == Verdict(m, rest[m].id, expired, reload)
      modifies this`answers, this`loadedModelsMap
      ensures loadedModelsMap == old(loadedModelsMap) - (set m | m in rest && code[m] != OK)
      ensures Answered(old(answers), answers, rest, rest.Keys, code)
    {
      match reload
      case ReloadFailed =>
        FailLoads(rest, code);
        assert (set m | m in rest && code[m] != OK) == rest.Keys;
      case Reloaded(status) => CompleteLoads(rest, status, code);
    }
  }

  /** A process that starts on the file another one left desires the models last written there. */
  method Restart(mm: OvmsModelManager, write: Write) returns (next: OvmsModelManager)
    ensures fresh(next) && next.Valid() && next.timing == mm.timing
    ensures next.loadedModelsMap == Models(mm.configFile) && next.answers == map[]
    ensures mm.configFile.Unusable? ==> next.loadedModelsMap == map[]
    ensures !mm.configFile.NoFile? ==> next.configFile == mm.configFile
    ensures mm.configFile.NoFile? ==> next.configFile == AfterWrite(write, NoFile, [])
  {
    next := new OvmsModelManager(mm.timing, mm.configFile, write);
  }
}
