/** The list of models that is written for OVMS and read back at boot, and how a batch ends. */
module OvmsConfig {
  import opened OvmsGather

  /** Every entry is filed under its own name. */
  predicate WellNamed(loaded: map<string, Entry>) {
    forall m | m in loaded :: loaded[m].name == m
  }

  /** The list holds each entry of the map once and nothing else. */
  ghost predicate Lists(list: seq<Entry>, loaded: map<string, Entry>) {
    && |list| == |loaded|
    && (forall i | 0 <= i < |list| :: list[i].name in loaded && loaded[list[i].name] == list[i])
    && (forall i, j | 0 <= i < j < |list| :: list[i].name != list[j].name)
    && (forall m | m in loaded :: loaded[m] in list)
  }

  /** The list holds each entry once whose name is not still to do. */
  ghost predicate PartlyListed(list: seq<Entry>, todo: set<string>, loaded: map<string, Entry>) {
    && (forall i | 0 <= i < |list| ::
          list[i].name in loaded && list[i].name !in todo && loaded[list[i].name] == list[i])
    && (forall i, j | 0 <= i < j < |list| :: list[i].name != list[j].name)
    && (forall m | m in loaded && m !in todo :: loaded[m] in list)
  }

  lemma ListOneMore(list: seq<Entry>, todo: set<string>, loaded: map<string, Entry>, m: string)
    requires WellNamed(loaded) && PartlyListed(list, todo, loaded) && m in todo && m in loaded
    ensures PartlyListed(list + [loaded[m]], todo - {m}, loaded)
  {
    forall k | k in loaded && k !in todo - {m} ensures loaded[k] in list + [loaded[m]] {
      if k == m {
        assert (list + [loaded[m]])[|list|] == loaded[m];
      }
    }
  }

  /** Lines 121 to 123: later entries of a name win. */
  function FromList(list: seq<Entry>): map<string, Entry> {
    if list == [] then map[]
    else FromList(list[..|list| - 1])[list[|list| - 1].name := list[|list| - 1]]
  }

  lemma FromListAppend(list: seq<Entry>, e: Entry)
    ensures FromList(list + [e]) == FromList(list)[e.name := e]
  {
    assert (list + [e])[..|list + [e]| - 1] == list;
  }

  /** Whatever the file holds, the last entry of each name is the one that counts. */
  lemma {:induction false} LastEntryWins(list: seq<Entry>, m: string)
    ensures m in FromList(list) <==> exists i :: 0 <= i < |list| && list[i].name == m
    ensures forall i | 0 <= i < |list| && list[i].name == m && (forall j | i < j < |list| :: list[j].name != m) ::
              FromList(list)[m] == list[i]
    decreases |list|
  {
    if list != [] {
      var front := list[..|list| - 1];
      LastEntryWins(front, m);
      assert forall i | 0 <= i < |front| :: front[i] == list[i];
      if m in FromList(front) {
        var i :| 0 <= i < |front| && front[i].name == m;
        assert list[i].name == m;
      }
    }
  }

  lemma {:induction false} FromListNamed(list: seq<Entry>)
    ensures WellNamed(FromList(list))
    decreases |list|
  {
    if list != [] {
      FromListNamed(list[..|list| - 1]);
    }
  }

  lemma {:induction false} FromListHolds(list: seq<Entry>)
    requires forall i, j | 0 <= i < j < |list| :: list[i].name != list[j].name
    ensures forall i | 0 <= i < |list| :: list[i].name in FromList(list) && FromList(list)[list[i].name] == list[i]
    ensures forall m | m in FromList(list) :: FromList(list)[m] in list && FromList(list)[m].name == m
    decreases |list|
  {
    if list != [] {
      var front := list[..|list| - 1];
      FromListHolds(front);
      forall m | m in FromList(list) ensures FromList(list)[m] in list && FromList(list)[m].name == m {
        if m != list[|list| - 1].name {
          assert FromList(front)[m] in front;
        }
      }
    }
  }

  /** Whatever order the map was walked in, reading the written list rebuilds the map. */
  lemma BootRebuilds(list: seq<Entry>, loaded: map<string, Entry>)
    requires WellNamed(loaded) && Lists(list, loaded)
    ensures FromList(list) == loaded
  {
    FromListHolds(list);
    forall m | m in loaded ensures m in FromList(list) && FromList(list)[m] == loaded[m] {
      var i :| 0 <= i < |list| && list[i] == loaded[m];
      assert list[i].name == m;
    }
    forall m | m in FromList(list) ensures m in loaded {
      var i :| 0 <= i < |list| && list[i] == FromList(list)[m];
      assert list[i].name in loaded;
    }
  }

  /* ---------- the file between two processes ---------- */

  /** The config file: none, one that cannot be read or parsed, or a list of models. */
  datatype ConfigFile = NoFile | Unusable | Written(list: seq<Entry>)

  /** How a write of it ends: done, refused before the file is touched, or broken off. */
  datatype Write = Done | Refused | Torn

  function AfterWrite(write: Write, file: ConfigFile, list: seq<Entry>): ConfigFile {
    match write
    case Done => Written(list)
    case Refused => file
    case Torn => Unusable
  }

  /** Lines 108 to 125: the models that the next process starts with. */
  function Models(file: ConfigFile): map<string, Entry> {
    if file.Written? then FromList(file.list) else map[]
  }

  /** A write of these models was tried: if it was done the file lists each once, and the next
      process starts with them. */
  ghost predicate FileIs(write: Write, before: ConfigFile, file: ConfigFile, models: map<string, Entry>) {
    if write.Done? then file.Written? && Lists(file.list, models) && Models(file) == models
    else file == AfterWrite(write, before, [])
  }

  /* ---------- how the loads of a batch end ---------- */

  /** What updateModelConfig learned: nothing, or the states of each model's versions. */
  datatype Reload = ReloadFailed | Reloaded(status: map<string, seq<string>>)

  /** The states that OVMS reports name at least one version of a model (line 311). */
  predicate Reported(reload: Reload) {
    reload.Reloaded? ==> forall m | m in reload.status :: reload.status[m] != []
  }

  predicate Expired(expired: map<nat, Ctx>, id: nat) {
    id in expired && !expired[id].Live?
  }

  /** The code a batched load is answered with. */
  function Verdict(m: string, id: nat, expired: map<nat, Ctx>, reload: Reload): Code
    requires Reported(reload)
  {
    if Expired(expired, id) then ContextError(expired[id])
    else match reload
      case ReloadFailed => Internal
      case Reloaded(status) =>
        if m !in status then Internal else if status[m][0] == "AVAILABLE" then OK else Unknown
  }

  /** Lines 276 to 285: the loads whose callers gave up before the reload. */
  function Swept(batch: map<string, Request>, expired: map<nat, Ctx>): set<string> {
    set m | m in batch && Expired(expired, batch[m].id)
  }

  ghost predicate OwnIds(batch: map<string, Request>) {
    forall m, k | m in batch && k in batch && batch[m].id == batch[k].id :: m == k
  }

  /** Of the given models of the batch, each request got its code, and no other channel anything. */
  ghost predicate Answered(before: map<nat, Code>, after: map<nat, Code>, batch: map<string, Request>,
                           models: set<string>, code: map<string, Code>)
    requires models <= batch.Keys && models <= code.Keys
  {
    && (forall m | m in models :: batch[m].id in after && after[batch[m].id] == code[m])
    && (forall id | id in before :: id in after && after[id] == before[id])
    && (forall id | id in after && id !in before :: exists m :: m in models && batch[m].id == id)
  }

  /** Answers agree with the models desired from then on: a load that was answered OK is there
      with its own path, any other load of the batch is not, and no other model changed. */
  ghost predicate Settled(before: map<string, Entry>, after: map<string, Entry>,
                          batch: map<string, Request>, answers: map<nat, Code>)
  {
    && (forall m | m in batch :: batch[m].id in answers)
    && (forall m | m in batch :: answers[batch[m].id] == OK <==> m in after)
    && (forall m | m in batch && m in after :: after[m] == Entry(m, batch[m].basePath))
    && (forall m | m !in batch :: (m in after <==> m in before) && (m in after ==> after[m] == before[m]))
  }
}
