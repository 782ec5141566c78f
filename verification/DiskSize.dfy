/** getModelDiskSize of model-serving-puller/puller/puller.go on values: a walk over a file system
    that starts again at the target of every symbolic link it meets, and stops at the first error. */
module DiskSizes {
  import opened Wrappers

  datatype Path = Root | In(dir: Path, name: string)

  /** What lstat says of a path: a file, a link with its target, a link that cannot be read, a
      directory with its entries in the order they are listed, or one that cannot be listed. */
  datatype Info = File(size: nat) | Link(target: Path) | DeadLink | Dir(names: seq<string>) | ClosedDir

  /** Every path that lstat finds, also those that lead through linked directories. */
  type FS = map<Path, Info>

  /** Where the walk goes on to from a path. */
  function Next(fs: FS, p: Path): seq<Path> {
    if p !in fs then []
    else match fs[p]
      case Dir(names) => seq(|names|, i requires 0 <= i < |names| => In(p, names[i]))
      case Link(t) => [t]
      case _ => []
  }

  /** The walk goes on to a link's target, or to a directory's entries in the order listed, and
      from nothing else. */
  lemma NextIs(fs: FS, p: Path, q: Path)
    ensures q in Next(fs, p) <==>
              && p in fs
              && (fs[p] == Link(q) || (fs[p].Dir? && q.In? && q.dir == p && q.name in fs[p].names))
    ensures p in fs && fs[p].Dir? ==>
              && |Next(fs, p)| == |fs[p].names|
              && forall i | 0 <= i < |fs[p].names| :: Next(fs, p)[i] == In(p, fs[p].names[i])
  {
    if p in fs && fs[p].Dir? && q.In? && q.dir == p && q.name in fs[p].names {
      var i :| 0 <= i < |fs[p].names| && fs[p].names[i] == q.name;
      assert Next(fs, p)[i] == q;
    }
  }

  /** A path that ends the walk with an error. */
  predicate Broken(fs: FS, p: Path) {
    p !in fs || fs[p].ClosedDir?
  }

  /* ---------- the walk ---------- */

  datatype Outcome = Outcome(ok: bool, size: nat)

  /** A walk from a path that has already counted `size`, if it ends within `fuel` nested calls.  A
      link adds what a walk of its own from the target finds, but nothing when that walk fails. */
  function Walk(fs: FS, p: Path, size: nat, fuel: nat): Option<Outcome>
    decreases fuel, |Next(fs, p)| + 1
  {
    if fuel == 0 then None
    else if p !in fs then Some(Outcome(false, size))
    else match fs[p]
      case File(s) => Some(Outcome(true, size + s))
      case DeadLink => Some(Outcome(true, size))
      case Link(t) =>
        (match Walk(fs, t, 0, fuel - 1)
         case None => None
         case Some(o) => Some(if o.ok then Outcome(true, size + o.size) else Outcome(false, size)))
      case Dir(_) => WalkEach(fs, p, |Next(fs, p)|, size, fuel)
      case ClosedDir => Some(Outcome(false, size))
  }

  /** The first k entries of a directory, up to the first error. */
  function WalkEach(fs: FS, p: Path, k: nat, size: nat, fuel: nat): Option<Outcome>
    requires fuel >= 1 && k <= |Next(fs, p)|
    decreases fuel, k
  {
    if k == 0 then Some(Outcome(true, size))
    else match WalkEach(fs, p, k - 1, size, fuel)
      case None => None
      case Some(o) => if o.ok then Walk(fs, Next(fs, p)[k - 1], o.size, fuel - 1) else Some(o)
  }

  /** The recursion ends. */
  ghost predicate Halts(fs: FS, p: Path) {
    exists fuel: nat :: Walk(fs, p, 0, fuel).Some?
  }

  /* ---------- trails: no walk in sight ---------- */

  datatype Trail = End(at: Path) | Step(at: Path, rest: Trail)

  predicate IsTrail(fs: FS, t: Trail) {
    t.Step? ==> t.rest.at in Next(fs, t.at) && IsTrail(fs, t.rest)
  }

  function Last(t: Trail): Path {
    if t.End? then t.at else Last(t.rest)
  }

  predicate Passes(t: Trail, p: Path) {
    t.at == p || (t.Step? && Passes(t.rest, p))
  }

  predicate NoRepeat(t: Trail) {
    t.Step? ==> !Passes(t.rest, t.at) && NoRepeat(t.rest)
  }

  ghost predicate NoBrokenTrail(fs: FS, p: Path) {
    forall t | IsTrail(fs, t) && t.at == p :: !Broken(fs, Last(t))
  }

  /** No trail comes back to where it was. */
  ghost predicate Acyclic(fs: FS, p: Path) {
    forall t | IsTrail(fs, t) && t.at == p :: NoRepeat(t)
  }

  /** Nothing before the i-th entry keeps the walk from it. */
  ghost predicate Clear(fs: FS, p: Path, i: nat)
    requires i <= |Next(fs, p)|
  {
    forall j | 0 <= j < i :: Acyclic(fs, Next(fs, p)[j]) && NoBrokenTrail(fs, Next(fs, p)[j])
  }

  /** A trail that the walk goes along: at each step there is nothing in the way before it. */
  ghost predicate Reached(fs: FS, t: Trail) {
    t.Step? ==>
      && Reached(fs, t.rest)
      && exists i :: 0 <= i < |Next(fs, t.at)| && Next(fs, t.at)[i] == t.rest.at && Clear(fs, t.at, i)
  }

  /** No trail that the walk goes along comes back to where it was. */
  ghost predicate NoLoopReached(fs: FS, p: Path) {
    forall t | IsTrail(fs, t) && t.at == p && Reached(fs, t) :: NoRepeat(t)
  }

  /* ---------- fuel, level by level ---------- */

  /** The walk succeeds within n. */
  predicate Succeeds(fs: FS, p: Path, n: nat)
    decreases n, |Next(fs, p)| + 1
  {
    n >= 1 && !Broken(fs, p) && SucceedsVia(fs, p, |Next(fs, p)|, n)
  }

  predicate SucceedsVia(fs: FS, p: Path, k: nat, n: nat)
    requires n >= 1 && k <= |Next(fs, p)|
    decreases n, k
  {
    k == 0 || (SucceedsVia(fs, p, k - 1, n) && Succeeds(fs, Next(fs, p)[k - 1], n - 1))
  }

  /** The walk ends within n; an entry behind an error does not matter. */
  predicate Ends(fs: FS, p: Path, n: nat)
    decreases n, |Next(fs, p)| + 1
  {
    n >= 1 && EndsVia(fs, p, |Next(fs, p)|, n)
  }

  predicate EndsVia(fs: FS, p: Path, k: nat, n: nat)
    requires n >= 1 && k <= |Next(fs, p)|
    decreases n, k
  {
    k == 0 ||
    (EndsVia(fs, p, k - 1, n) && (SucceedsVia(fs, p, k - 1, n) ==> Ends(fs, Next(fs, p)[k - 1], n - 1)))
  }

  lemma {:induction false} WalkIs(fs: FS, p: Path, size: nat, n: nat)
    ensures Walk(fs, p, size, n).Some? <==> Ends(fs, p, n)
    ensures Walk(fs, p, size, n).Some? ==> (Walk(fs, p, size, n).value.ok <==> Succeeds(fs, p, n))
    decreases n, |Next(fs, p)| + 1
  {
    if n > 0 && p in fs {
      if fs[p].Link? {
        LinkVia(fs, p, fs[p].target, n);
        WalkIs(fs, fs[p].target, 0, n - 1);
      } else if fs[p].Dir? {
        EachIs(fs, p, |Next(fs, p)|, size, n);
      }
    }
  }

  lemma LinkVia(fs: FS, p: Path, t: Path, n: nat)
    requires n >= 1 && p in fs && fs[p] == Link(t)
    ensures Ends(fs, p, n) <==> Ends(fs, t, n - 1)
    ensures Succeeds(fs, p, n) <==> Succeeds(fs, t, n - 1)
  {
    assert Next(fs, p) == [t];
    assert SucceedsVia(fs, p, 0, n) && EndsVia(fs, p, 0, n);
    assert SucceedsVia(fs, p, 1, n) <==> Succeeds(fs, t, n - 1);
    assert EndsVia(fs, p, 1, n) <==> Ends(fs, t, n - 1);
  }

  lemma {:induction false} EachIs(fs: FS, p: Path, k: nat, size: nat, n: nat)
    requires n >= 1 && k <= |Next(fs, p)|
    ensures WalkEach(fs, p, k, size, n).Some? <==> EndsVia(fs, p, k, n)
    ensures WalkEach(fs, p, k, size, n).Some? ==>
              (WalkEach(fs, p, k, size, n).value.ok <==> SucceedsVia(fs, p, k, n))
    decreases n, k
  {
    if k > 0 {
      EachIs(fs, p, k - 1, size, n);
      var o := WalkEach(fs, p, k - 1, size, n);
      if o.Some? && o.value.ok {
        WalkIs(fs, Next(fs, p)[k - 1], o.value.size, n - 1);
      }
    }
  }

  /** More fuel changes nothing: the outcome of a walk that ends is one. */
  lemma {:induction false} MoreFuel(fs: FS, p: Path, size: nat, n: nat, m: nat)
    requires Walk(fs, p, size, n).Some? && n <= m
    ensures Walk(fs, p, size, m) == Walk(fs, p, size, n)
    decreases n, |Next(fs, p)| + 1
  {
    if p in fs {
      if fs[p].Link? {
        MoreFuel(fs, fs[p].target, 0, n - 1, m - 1);
      } else if fs[p].Dir? {
        MoreFuelEach(fs, p, |Next(fs, p)|, size, n, m);
      }
    }
  }

  lemma {:induction false} MoreFuelEach(fs: FS, p: Path, k: nat, size: nat, n: nat, m: nat)
    requires 1 <= n <= m && k <= |Next(fs, p)| && WalkEach(fs, p, k, size, n).Some?
    ensures WalkEach(fs, p, k, size, m) == WalkEach(fs, p, k, size, n)
    decreases n, k
  {
    if k > 0 {
      MoreFuelEach(fs, p, k - 1, size, n, m);
      var o := WalkEach(fs, p, k - 1, size, n).value;
      if o.ok {
        MoreFuel(fs, Next(fs, p)[k - 1], o.size, n - 1, m - 1);
      }
    }
  }

  /* ---------- success: every trail is walked ---------- */

  lemma {:induction false} SucceedsViaAt(fs: FS, p: Path, k: nat, i: nat, n: nat)
    requires n >= 1 && i < k <= |Next(fs, p)| && SucceedsVia(fs, p, k, n)
    ensures Succeeds(fs, Next(fs, p)[i], n - 1)
    decreases k
  {
    if i < k - 1 {
      SucceedsViaAt(fs, p, k - 1, i, n);
    }
  }

  lemma SucceedsNext(fs: FS, p: Path, q: Path, n: nat)
    requires Succeeds(fs, p, n) && q in Next(fs, p)
    ensures n >= 2 && Succeeds(fs, q, n - 1)
  {
    var i :| 0 <= i < |Next(fs, p)| && Next(fs, p)[i] == q;
    SucceedsViaAt(fs, p, |Next(fs, p)|, i, n);
  }

  lemma AcyclicNext(fs: FS, p: Path, q: Path)
    requires Acyclic(fs, p) && NoBrokenTrail(fs, p) && q in Next(fs, p)
    ensures Acyclic(fs, q) && NoBrokenTrail(fs, q)
  {
    forall t | IsTrail(fs, t) && t.at == q ensures NoRepeat(t) && !Broken(fs, Last(t)) {
      var u := Step(p, t);
      assert IsTrail(fs, u) && NoRepeat(u) && Last(u) == Last(t);
    }
  }

  /** Where nothing is wrong anywhere, a walk that ends succeeds. */
  lemma {:induction false} EndsSucceeds(fs: FS, p: Path, n: nat)
    requires Ends(fs, p, n) && Acyclic(fs, p) && NoBrokenTrail(fs, p)
    ensures Succeeds(fs, p, n)
    decreases n, |Next(fs, p)| + 1
  {
    assert IsTrail(fs, End(p)) && Last(End(p)) == p;
    forall i | 0 <= i < |Next(fs, p)| ensures Acyclic(fs, Next(fs, p)[i]) && NoBrokenTrail(fs, Next(fs, p)[i]) {
      AcyclicNext(fs, p, Next(fs, p)[i]);
    }
    ClearSucceeds(fs, p, |Next(fs, p)|, n);
  }

  lemma {:induction false} ClearSucceeds(fs: FS, p: Path, k: nat, n: nat)
    requires Ends(fs, p, n) && k <= |Next(fs, p)| && Clear(fs, p, k)
    ensures SucceedsVia(fs, p, k, n)
    decreases n, k
  {
    if k > 0 {
      ClearSucceeds(fs, p, k - 1, n);
      EndsViaAt(fs, p, |Next(fs, p)|, k - 1, n);
      EndsSucceeds(fs, Next(fs, p)[k - 1], n - 1);
    }
  }

  lemma {:induction false} EndsViaAt(fs: FS, p: Path, k: nat, i: nat, n: nat)
    requires n >= 1 && i < k <= |Next(fs, p)| && EndsVia(fs, p, k, n) && SucceedsVia(fs, p, i, n)
    ensures Ends(fs, Next(fs, p)[i], n - 1)
    decreases k
  {
    if i < k - 1 {
      EndsViaAt(fs, p, k - 1, i, n);
    }
  }

  /* ---------- a trail that comes back needs fuel without end ---------- */

  function Steps(t: Trail): nat {
    if t.End? then 0 else 1 + Steps(t.rest)
  }

  /** Trails of two kinds: all those of a walk that succeeds, and those reached by one that ends. */
  ghost predicate Goes(fs: FS, t: Trail, all: bool) {
    IsTrail(fs, t) && (all || Reached(fs, t))
  }

  predicate Lasts(fs: FS, p: Path, n: nat, all: bool) {
    if all then Succeeds(fs, p, n) else Ends(fs, p, n)
  }

  lemma LastsNext(fs: FS, t: Trail, n: nat, all: bool)
    requires Goes(fs, t, all) && t.Step? && Lasts(fs, t.at, n, all)
    ensures Goes(fs, t.rest, all) && n >= 2 && Lasts(fs, t.rest.at, n - 1, all)
  {
    if all {
      SucceedsNext(fs, t.at, t.rest.at, n);
    } else {
      var i :| 0 <= i < |Next(fs, t.at)| && Next(fs, t.at)[i] == t.rest.at && Clear(fs, t.at, i);
      ClearSucceeds(fs, t.at, i, n);
      EndsViaAt(fs, t.at, |Next(fs, t.at)|, i, n);
    }
  }

  lemma {:induction false} LastsAlong(fs: FS, t: Trail, n: nat, all: bool)
    requires Goes(fs, t, all) && Lasts(fs, t.at, n, all)
    ensures Steps(t) < n && Lasts(fs, Last(t), n - Steps(t), all)
    decreases t
  {
    if t.Step? {
      LastsNext(fs, t, n, all);
      LastsAlong(fs, t.rest, n - 1, all);
    }
  }

  lemma {:induction false} NoLoop(fs: FS, t: Trail, n: nat, all: bool)
    requires Goes(fs, t, all) && t.Step? && Lasts(fs, t.at, n, all)
    ensures Last(t) != t.at
    decreases n
  {
    if Last(t) == t.at {
      LastsAlong(fs, t, n, all);
      NoLoop(fs, t, n - Steps(t), all);
    }
  }

  function Cut(t: Trail, p: Path): Trail
    requires Passes(t, p)
  {
    if t.at == p then End(p) else Step(t.at, Cut(t.rest, p))
  }

  lemma {:induction false} CutGoes(fs: FS, t: Trail, p: Path, all: bool)
    requires Passes(t, p) && Goes(fs, t, all)
    ensures Goes(fs, Cut(t, p), all) && Cut(t, p).at == t.at && Last(Cut(t, p)) == p
    decreases t
  {
    if t.at != p {
      CutGoes(fs, t.rest, p, all);
    }
  }

  lemma {:induction false} LastsNoRepeat(fs: FS, t: Trail, n: nat, all: bool)
    requires Goes(fs, t, all) && Lasts(fs, t.at, n, all)
    ensures NoRepeat(t)
    decreases t
  {
    if t.Step? {
      LastsNext(fs, t, n, all);
      LastsNoRepeat(fs, t.rest, n - 1, all);
      if Passes(t.rest, t.at) {
        CutGoes(fs, t.rest, t.at, all);
        NoLoop(fs, Step(t.at, Cut(t.rest, t.at)), n, all);
      }
    }
  }

  /** Success, without the walk: there is neither a cycle nor an error anywhere. */
  lemma SucceedsMeans(fs: FS, p: Path, n: nat)
    requires Succeeds(fs, p, n)
    ensures Acyclic(fs, p) && NoBrokenTrail(fs, p)
  {
    forall t | IsTrail(fs, t) && t.at == p ensures NoRepeat(t) && !Broken(fs, Last(t)) {
      LastsNoRepeat(fs, t, n, true);
      LastsAlong(fs, t, n, true);
    }
  }

  /* ---------- where no such trail comes back, each level uses up a path ---------- */

  lemma {:induction false} PassesLast(t: Trail)
    ensures Passes(t, Last(t))
    decreases t
  {
    if t.Step? {
      PassesLast(t.rest);
    }
  }

  lemma {:induction false} ViaClear(fs: FS, p: Path, i: nat, n: nat)
    requires n >= 1 && i <= |Next(fs, p)| && SucceedsVia(fs, p, i, n)
    ensures Clear(fs, p, i)
  {
    forall j | 0 <= j < i ensures Acyclic(fs, Next(fs, p)[j]) && NoBrokenTrail(fs, Next(fs, p)[j]) {
      SucceedsViaAt(fs, p, i, j, n);
      SucceedsMeans(fs, Next(fs, p)[j], n - 1);
    }
  }

  lemma {:induction false} EndsViaAll(fs: FS, p: Path, k: nat, n: nat)
    requires n >= 1 && k <= |Next(fs, p)|
    requires forall i | 0 <= i < |Next(fs, p)| && SucceedsVia(fs, p, i, n) :: Ends(fs, Next(fs, p)[i], n - 1)
    ensures EndsVia(fs, p, k, n)
    decreases k
  {
    if k > 0 {
      EndsViaAll(fs, p, k - 1, n);
    }
  }

  /** The trails that go on through the i-th entry. */
  lemma ReachedThrough(fs: FS, p: Path, i: nat, t: Trail)
    requires i < |Next(fs, p)| && Clear(fs, p, i) && t.at == Next(fs, p)[i]
    requires IsTrail(fs, t) && Reached(fs, t)
    ensures IsTrail(fs, Step(p, t)) && Reached(fs, Step(p, t)) && Last(Step(p, t)) == Last(t)
  {
  }

  lemma {:induction false} NoLoopEnds(fs: FS, p: Path, left: set<Path>)
    requires left <= fs.Keys && NoLoopReached(fs, p)
    requires forall t | IsTrail(fs, t) && t.at == p && Reached(fs, t) && Last(t) in fs :: Last(t) in left
    ensures Ends(fs, p, |left| + 1)
    decreases |left|
  {
    if p in fs {
      assert IsTrail(fs, End(p)) && Reached(fs, End(p)) && Last(End(p)) in left;
      assert |left - {p}| == |left| - 1;
      forall i | 0 <= i < |Next(fs, p)| && SucceedsVia(fs, p, i, |left| + 1)
        ensures Ends(fs, Next(fs, p)[i], |left|)
      {
        ViaClear(fs, p, i, |left| + 1);
        forall t | IsTrail(fs, t) && t.at == Next(fs, p)[i] && Reached(fs, t)
          ensures NoRepeat(t) && (Last(t) in fs ==> Last(t) in left - {p})
        {
          ReachedThrough(fs, p, i, t);
          assert NoRepeat(Step(p, t));
          PassesLast(t);
        }
        NoLoopEnds(fs, Next(fs, p)[i], left - {p});
      }
      EndsViaAll(fs, p, |Next(fs, p)|, |left| + 1);
    }
  }

  /* ---------- main results ---------- */

  /** The recursion ends exactly when no trail that the walk goes along comes back to where it was;
      it is then no deeper than there are paths, and one. */
  lemma HaltsExactly(fs: FS, p: Path)
    ensures Halts(fs, p) <==> NoLoopReached(fs, p)
    ensures Halts(fs, p) <==> Walk(fs, p, 0, |fs| + 1).Some?
  {
    if Halts(fs, p) {
      var n: nat :| Walk(fs, p, 0, n).Some?;
      WalkIs(fs, p, 0, n);
      forall t | IsTrail(fs, t) && t.at == p && Reached(fs, t) ensures NoRepeat(t) {
        LastsNoRepeat(fs, t, n, false);
      }
    }
    if NoLoopReached(fs, p) {
      NoLoopEnds(fs, p, fs.Keys);
      assert |fs.Keys| == |fs|;
      WalkIs(fs, p, 0, |fs| + 1);
    }
  }

  /** Where no trail at all comes back, it ends. */
  lemma AcyclicHalts(fs: FS, p: Path)
    requires Acyclic(fs, p)
    ensures Halts(fs, p)
  {
    HaltsExactly(fs, p);
  }

  /** A walk that ends succeeds exactly when there is neither a cycle nor an error anywhere. */
  lemma SuccessExactly(fs: FS, p: Path, size: nat, n: nat)
    requires Walk(fs, p, size, n).Some?
    ensures Walk(fs, p, size, n).value.ok <==> Succeeds(fs, p, n)
    ensures Walk(fs, p, size, n).value.ok <==> Acyclic(fs, p) && NoBrokenTrail(fs, p)
  {
    WalkIs(fs, p, size, n);
    if Succeeds(fs, p, n) {
      SucceedsMeans(fs, p, n);
    } else if Acyclic(fs, p) && NoBrokenTrail(fs, p) {
      EndsSucceeds(fs, p, n);
    }
  }

  /** A directory with a dangling link and a link back to itself, in either order. */
  function Tangled(first: Path, second: Path): FS {
    map[Root := Dir(["a", "b"]), In(Root, "a") := Link(first), In(Root, "b") := Link(second)]
  }

  const GONE := In(Root, "gone")

  lemma {:induction false} ErrorFirst(fs: FS, a: Path)
    requires Root in fs && fs[Root].Dir? && |Next(fs, Root)| == 2 && Next(fs, Root)[0] == a
    requires a in fs && fs[a] == Link(GONE) && GONE !in fs
    ensures Walk(fs, Root, 0, 3) == Some(Outcome(false, 0))
  {
    assert Walk(fs, GONE, 0, 1) == Some(Outcome(false, 0));
    assert Walk(fs, a, 0, 2) == Some(Outcome(false, 0));
    assert WalkEach(fs, Root, 0, 0, 3) == Some(Outcome(true, 0));
    assert WalkEach(fs, Root, 1, 0, 3) == Some(Outcome(false, 0));
    assert WalkEach(fs, Root, 2, 0, 3) == Some(Outcome(false, 0));
  }

  lemma {:induction false} LoopTrail(fs: FS, q: Path) returns (t: Trail)
    requires q in Next(fs, Root) && Root in Next(fs, q)
    ensures t == Step(Root, Step(q, End(Root))) && IsTrail(fs, t) && !NoRepeat(t)
  {
    t := Step(Root, Step(q, End(Root)));
    assert Passes(t.rest.rest, Root) && Passes(t.rest, Root);
  }

  /** The dangling link is listed first: the cycle behind it does not matter, the walk ends with an
      error. */
  lemma {:induction false} ErrorBeforeLoop()
    ensures var fs := Tangled(GONE, Root);
            !Acyclic(fs, Root) && Halts(fs, Root) && Walk(fs, Root, 0, 3) == Some(Outcome(false, 0))
  {
    var fs := Tangled(GONE, Root);
    var a, b := In(Root, "a"), In(Root, "b");
    assert Next(fs, Root) == [a, b] && Next(fs, b) == [Root];
    ErrorFirst(fs, a);
    var t := LoopTrail(fs, b);
  }

  /** The same links the other way round: the recursion does not end. */
  lemma {:induction false} LoopBeforeError()
    ensures !Halts(Tangled(Root, GONE), Root)
  {
    var fs := Tangled(Root, GONE);
    var a, b := In(Root, "a"), In(Root, "b");
    assert Next(fs, Root) == [a, b] && Next(fs, a) == [Root];
    var t := LoopTrail(fs, a);
    assert Next(fs, Root)[0] == a && Clear(fs, Root, 0) && Next(fs, a)[0] == Root && Clear(fs, a, 0);
    assert Reached(fs, t.rest.rest) && Reached(fs, t.rest) && Reached(fs, t);
    HaltsExactly(fs, Root);
  }
}
