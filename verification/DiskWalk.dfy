/** getModelDiskSize as it runs: the callback of filepath.Walk adds to a variable of the call
    that started the walk, and calls the whole again for a link. */
module DiskWalks {
  import opened DiskRoutes
  import opened DiskSizes
  import opened Wrappers

  class DiskWalk {
    const fs: FS
    /** The variable that the callback adds to. */
    var size: nat

    constructor (fs: FS)
      ensures this.fs == fs && size == 0
    {
      this.fs, size := fs, 0;
    }

    /** The callback; false for an error.  `n` bounds the calls that are still to come. */
    method Visit(path: Path, info: Info, ghost n: nat) returns (ok: bool)
      requires path in fs && fs[path] == info && !info.ClosedDir? && Walk(fs, path, size, n).Some?
      modifies this
      ensures !info.Dir? ==> Walk(fs, path, old(size), n) == Some(Outcome(ok, size))
      ensures info.Dir? ==> ok && size == old(size)
      decreases n, 0
    {
      match info {
        case Link(resolvedPath) =>
          var targetOk, targetSize := GetModelDiskSize(fs, resolvedPath, n - 1);
          if !targetOk {
            return false;
          }
          size := size + targetSize;
        case DeadLink =>
        case File(s) => size := size + s;
        case Dir(_) =>
      }
      ok := true;
    }

    /** filepath.Walk below a path that lstat has found or not. */
    method WalkTree(path: Path, ghost n: nat) returns (ok: bool)
      requires Walk(fs, path, size, n).Some?
      modifies this
      ensures Walk(fs, path, old(size), n) == Some(Outcome(ok, size))
      decreases n, 1
    {
      if path !in fs {
        return false;
      }
      var info := fs[path];
      if info.ClosedDir? {
        return false;
      }
      ok := Visit(path, info, n);
      if !info.Dir? {
        return;
      }
      var names := info.names;
      assert |Next(fs, path)| == |names|;
      for k := 0 to |names|
        invariant ok && WalkEach(fs, path, k, old(size), n) == Some(Outcome(true, size))
      {
        GoesOn(fs, path, k, |names|, old(size), n);
        ok := WalkTree(In(path, names[k]), n - 1);
        if !ok {
          StopsEarly(fs, path, k + 1, |names|, old(size), n);
          return;
        }
      }
    }
  }

  /** An entry that is come to is walked to its end. */
  lemma {:induction false} GoesOn(fs: FS, p: Path, i: nat, k: nat, size: nat, n: nat)
    requires n >= 1 && i < k <= |Next(fs, p)| && WalkEach(fs, p, k, size, n).Some?
    requires WalkEach(fs, p, i, size, n).Some? && WalkEach(fs, p, i, size, n).value.ok
    ensures n >= 2 && Walk(fs, Next(fs, p)[i], WalkEach(fs, p, i, size, n).value.size, n - 1).Some?
    decreases k
  {
    if i < k - 1 {
      GoesOn(fs, p, i, k - 1, size, n);
    }
  }

  /** After an error the other entries are not looked at. */
  lemma {:induction false} StopsEarly(fs: FS, p: Path, i: nat, k: nat, size: nat, n: nat)
    requires n >= 1 && i <= k <= |Next(fs, p)|
    requires WalkEach(fs, p, i, size, n).Some? && !WalkEach(fs, p, i, size, n).value.ok
    ensures WalkEach(fs, p, k, size, n) == WalkEach(fs, p, i, size, n)
    decreases k
  {
    if i < k {
      StopsEarly(fs, p, i, k - 1, size, n);
    }
  }

  method GetModelDiskSize(fs: FS, modelPath: Path, ghost n: nat) returns (ok: bool, size: nat)
    requires Walk(fs, modelPath, 0, n).Some?
    ensures Walk(fs, modelPath, 0, n) == Some(Outcome(ok, size))
    decreases n, 2
  {
    var walk := new DiskWalk(fs);
    ok := walk.WalkTree(modelPath, n);
    size := walk.size;
  }

  /** For every file system and every path from which the recursion ends. */
  method ModelSize(fs: FS, modelPath: Path) returns (ok: bool, size: nat)
    requires Halts(fs, modelPath)
    ensures ok <==>
              && Acyclic(fs, modelPath)
              && forall t | IsTrail(fs, t) && t.at == modelPath :: Last(t) in fs && !fs[Last(t)].ClosedDir?
    ensures ok && WellListed(fs) ==>
              exists routes ::
                && Distinct(routes)
                && (forall t :: t in routes <==>
                      IsTrail(fs, t) && t.at == modelPath && Last(t) in fs && fs[Last(t)].File?)
                && size == Total(fs, routes)
  {
    ghost var n: nat :| Walk(fs, modelPath, 0, n).Some?;
    ModelDiskSize(fs, modelPath, n);
    ok, size := GetModelDiskSize(fs, modelPath, n);
  }
}
