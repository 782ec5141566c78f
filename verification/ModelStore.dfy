/** The TorchServe model store directory: links made, cleared and swept by the adapter. */
module ModelStores {
  import opened MarNames
  import opened Wrappers

  datatype File = Regular | Directory | Link(target: string)

  type Files = map<string, File>

  /** What os.Stat says of the model's path. */
  datatype Stat = Missing | IsDir | IsFile

  /** What os.ReadDir says of the directory. */
  datatype Listing = Entries(names: seq<string>) | NoDirectory | Unlistable

  /** What happens to the directory. */
  datatype Op = Linked(id: string, path: string) | Cleared(id: string) | Swept(names: set<string>)

  function Apply(files: Files, op: Op): Files {
    match op
    case Linked(id, path) => files[MarFileName(id) := Link(path)]
    case Cleared(id) => files - {MarFileName(id)}
    case Swept(names) => files - names
  }

  /** A sweep removes only entries that the startup filter lets through. */
  predicate Proper(op: Op) {
    op.Swept? ==> forall name | name in op.names :: HasSuffix(name, MAR_SUFFIX)
  }

  function Exec(files: Files, run: seq<Op>): Files
    decreases |run|
  {
    if run == [] then files else Apply(Exec(files, run[..|run| - 1]), run[|run| - 1])
  }

  /** The file that a model id is linked to. */
  function LinkOf(files: Files, id: string): Option<string> {
    if MarFileName(id) in files && files[MarFileName(id)].Link? then Some(files[MarFileName(id)].target) else None
  }

  /** What the last operation that names an id made of its link; `start` if there was none. */
  function LastLink(run: seq<Op>, id: string, start: Option<string>): Option<string>
    decreases |run|
  {
    if run == [] then start
    else match run[|run| - 1]
      case Linked(i, path) => if i == id then Some(path) else LastLink(run[..|run| - 1], id, start)
      case Cleared(i) => if i == id then None else LastLink(run[..|run| - 1], id, start)
      case Swept(names) =>
        if exists n | n in names :: IdOf(n) == Some(id) then None else LastLink(run[..|run| - 1], id, start)
  }

  /** Models do not interfere: each id has the link that the operations on this very id gave it. */
  lemma {:induction false} LinksApart(files: Files, run: seq<Op>, id: string)
    ensures LinkOf(Exec(files, run), id) == LastLink(run, id, LinkOf(files, id))
    decreases |run|
  {
    if run != [] {
      var op := run[|run| - 1];
      LinksApart(files, run[..|run| - 1], id);
      match op
      case Linked(i, _) => NameOfId(id, MarFileName(i)); NameOfId(i, MarFileName(i));
      case Cleared(i) => NameOfId(id, MarFileName(i)); NameOfId(i, MarFileName(i));
      case Swept(names) =>
        NameOfId(id, MarFileName(id));
        forall n | n in names ensures IdOf(n) == Some(id) <==> n == MarFileName(id) {
          NameOfId(id, n);
        }
    }
  }

  /** Nothing that does not end in .mar is ever touched, so the config file stays. */
  lemma {:induction false} OthersStay(files: Files, run: seq<Op>, name: string)
    requires !HasSuffix(name, MAR_SUFFIX) && forall op | op in run :: Proper(op)
    ensures name in Exec(files, run) <==> name in files
    ensures name in files ==> Exec(files, run)[name] == files[name]
    decreases |run|
  {
    if run != [] {
      OthersStay(files, run[..|run| - 1], name);
      var op := run[|run| - 1];
      assert op in run;
      if !op.Swept? {
        NameIsSafe(op.id);
      }
    }
  }

  /** Everything that passes the filter. */
  function MarFiles(files: Files): set<string> {
    set n | n in files && HasSuffix(n, MAR_SUFFIX)
  }

  /** The startup cleanup leaves no link that was ever made, and the config file. */
  lemma SweepTakesAllLinks(files: Files, id: string)
    ensures LinkOf(Apply(files, Swept(MarFiles(files))), id) == None
    ensures "mmconfig.properties" in files ==>
              var left := Apply(files, Swept(MarFiles(files)));
              "mmconfig.properties" in left && left["mmconfig.properties"] == files["mmconfig.properties"]
  {
    NameIsSafe(id);
  }

  class ModelStore {
    var files: Files

    constructor (files: Files)
      ensures this.files == files
    {
      this.files := files;
    }

    /** RemoveAll may fail; the failure is ignored. */
    method ClearModelLink(id: string, removed: bool)
      modifies this
      ensures files == if removed then Apply(old(files), Cleared(id)) else old(files)
    {
      if removed {
        files := files - {MarFileName(id)};
      }
    }

    /** The name, or None for an error.  Symlink refuses a name that is still there, and `linked`
        is false when it fails for a reason of its own. */
    method LinkModelFile(modelPath: string, stat: Stat, id: string, removed: bool, linked: bool)
      returns (r: Option<string>)
      modifies this
      ensures stat != IsFile ==> r == None && files == old(files)
      ensures stat == IsFile ==> (r.Some? <==> linked && (removed || MarFileName(id) !in old(files)))
      ensures r.Some? ==> r == Some(MarFileName(id)) && files == Apply(old(files), Linked(id, modelPath))
      ensures r == None && stat == IsFile ==> files == if removed then Apply(old(files), Cleared(id)) else old(files)
      ensures r.Some? ==> MarFileName(id) in files && files[MarFileName(id)] == Link(modelPath)
      ensures forall n | n != MarFileName(id) ::
                (n in files <==> n in old(files)) && (n in files ==> files[n] == old(files)[n])
      ensures LinkOf(files, id) ==
                if r.Some? then Some(modelPath)
                else if stat == IsFile && removed then None else old(LinkOf(files, id))
      ensures forall i | i != id :: LinkOf(files, i) == old(LinkOf(files, i))
    {
      forall i | i != id ensures MarFileName(i) != MarFileName(id) {
        if MarFileName(i) == MarFileName(id) {
          NamesDiffer(i, id);
        }
      }
      if stat != IsFile {
        return None;
      }
      var targetPath := MarFileName(id);
      ClearModelLink(id, removed);
      if !linked || targetPath in files {
        return None;
      }
      files := files[targetPath := Link(modelPath)];
      r := Some(targetPath);
    }

    /** The startup cleanup, in directory order, up to the first entry that cannot be removed.  A
        missing directory is fine, one that cannot be listed is an error. */
    method ClearMarFiles(dir: Listing, stuck: set<string>) returns (ok: bool)
      requires dir.Entries? ==> forall n :: n in dir.names <==> n in files
      requires dir.NoDirectory? ==> files == map[]
      modifies this
      ensures ok <==> !dir.Unlistable? && forall n | n in old(files) && HasSuffix(n, ".mar") :: n !in stuck
      ensures dir.Unlistable? ==> files == old(files)
      ensures ok ==> forall n :: n in files <==> n in old(files) && !HasSuffix(n, ".mar")
      ensures forall n | n in files :: n in old(files) && files[n] == old(files)[n]
      ensures forall n | n in old(files) && !HasSuffix(n, ".mar") :: n in files
      ensures exists names :: names <= MarFiles(old(files)) && files == Apply(old(files), Swept(names))
      ensures ok ==> forall id :: LinkOf(files, id) == None
      ensures "mmconfig.properties" in old(files) ==>
                "mmconfig.properties" in files && files["mmconfig.properties"] == old(files)["mmconfig.properties"]
    {
      NameIsSafe("");
      if !dir.Entries? {
        assert files == Apply(files, Swept({}));
        assert dir.NoDirectory? ==> MarFiles(files) == {};
        return dir.NoDirectory?;
      }
      var entries := dir.names;
      ghost var all := MarFiles(files);
      ghost var gone: set<string> := {};
      for i := 0 to |entries|
        invariant gone == (set n | n in entries[..i] && HasSuffix(n, MAR_SUFFIX))
        invariant gone <= all && gone !! stuck && files == old(files) - gone
      {
        var f := entries[i];
        if HasSuffix(f, MAR_SUFFIX) {
          assert f in all;
          if f in stuck {
            assert files == Apply(old(files), Swept(gone));
            return false;
          }
          files := files - {f};
          gone := gone + {f};
        }
      }
      assert entries[..|entries|] == entries && gone == all;
      assert files == Apply(old(files), Swept(gone));
      forall id ensures LinkOf(files, id) == None {
        SweepTakesAllLinks(old(files), id);
      }
      ok := true;
    }
  }
}
