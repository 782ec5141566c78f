/** What getModelDiskSize counts: the regular files, once for every way to reach them. */
module DiskRoutes {
  import opened DiskSizes
  import opened Wrappers

  predicate Distinct<T(==)>(s: seq<T>) {
    forall i, j | 0 <= i < j < |s| :: s[i] != s[j]
  }

  /** A directory lists no name twice. */
  ghost predicate WellListed(fs: FS) {
    forall p | p in fs && fs[p].Dir? :: Distinct(fs[p].names)
  }

  /** One way to reach a regular file. */
  predicate IsRoute(fs: FS, t: Trail, p: Path) {
    IsTrail(fs, t) && t.at == p && Last(t) in fs && fs[Last(t)].File?
  }

  /* ---------- all routes ---------- */

  /** Every route from a path, listed. */
  ghost function Routes(fs: FS, p: Path, n: nat): seq<Trail>
    requires Succeeds(fs, p, n)
    decreases n, |Next(fs, p)| + 1
  {
    if p in fs && fs[p].File? then [End(p)] else RoutesVia(fs, p, |Next(fs, p)|, n)
  }

  ghost function RoutesVia(fs: FS, p: Path, k: nat, n: nat): seq<Trail>
    requires Succeeds(fs, p, n) && k <= |Next(fs, p)|
    decreases n, k
  {
    if k == 0 then []
    else
      SucceedsNext(fs, p, Next(fs, p)[k - 1], n);
      RoutesVia(fs, p, k - 1, n) + Via(p, Routes(fs, Next(fs, p)[k - 1], n - 1))
  }

  function Via(p: Path, rs: seq<Trail>): (r: seq<Trail>)
    ensures |r| == |rs|
  {
    seq(|rs|, i requires 0 <= i < |rs| => Step(p, rs[i]))
  }

  lemma InVia(p: Path, rs: seq<Trail>, t: Trail)
    ensures t in Via(p, rs) <==> t.Step? && t.at == p && t.rest in rs
  {
    if t.Step? && t.at == p && t.rest in rs {
      var i :| 0 <= i < |rs| && rs[i] == t.rest;
      assert Via(p, rs)[i] == t;
    }
  }

  lemma InPrefix<T>(s: seq<T>, k: nat, x: T)
    requires 1 <= k <= |s|
    ensures x in s[..k] <==> x in s[..k - 1] || x == s[k - 1]
  {
    assert s[..k] == s[..k - 1] + [s[k - 1]];
  }

  /** The list has every route in it. */
  lemma {:induction false} RoutesAre(fs: FS, p: Path, n: nat, t: Trail)
    requires Succeeds(fs, p, n)
    ensures t in Routes(fs, p, n) <==> IsRoute(fs, t, p)
    decreases n, |Next(fs, p)| + 1
  {
    if !(p in fs && fs[p].File?) {
      RoutesViaAre(fs, p, |Next(fs, p)|, n, t);
      assert Next(fs, p)[..|Next(fs, p)|] == Next(fs, p);
    }
  }

  /** A route through one of the first k entries. */
  predicate RouteBy(fs: FS, p: Path, k: nat, t: Trail)
    requires k <= |Next(fs, p)|
  {
    t.Step? && t.at == p && t.rest.at in Next(fs, p)[..k] && IsRoute(fs, t.rest, t.rest.at)
  }

  lemma RouteByOne(fs: FS, p: Path, k: nat, t: Trail)
    requires 1 <= k <= |Next(fs, p)|
    ensures RouteBy(fs, p, k, t) <==>
              RouteBy(fs, p, k - 1, t) || (t.Step? && t.at == p && IsRoute(fs, t.rest, Next(fs, p)[k - 1]))
  {
    if t.Step? {
      InPrefix(Next(fs, p), k, t.rest.at);
    }
  }

  lemma {:induction false} RoutesViaAre(fs: FS, p: Path, k: nat, n: nat, t: Trail)
    requires Succeeds(fs, p, n) && k <= |Next(fs, p)|
    ensures t in RoutesVia(fs, p, k, n) <==> RouteBy(fs, p, k, t)
    decreases n, k
  {
    if k > 0 {
      var q := Next(fs, p)[k - 1];
      SucceedsNext(fs, p, q, n);
      RoutesViaAre(fs, p, k - 1, n, t);
      InVia(p, Routes(fs, q, n - 1), t);
      RouteByOne(fs, p, k, t);
      if t.Step? {
        RoutesAre(fs, q, n - 1, t.rest);
      }
    }
  }

  /** No route is listed twice. */
  lemma {:induction false} RoutesDistinct(fs: FS, p: Path, n: nat)
    requires Succeeds(fs, p, n) && WellListed(fs)
    ensures Distinct(Routes(fs, p, n))
    decreases n, |Next(fs, p)| + 1
  {
    if !(p in fs && fs[p].File?) {
      RoutesViaDistinct(fs, p, |Next(fs, p)|, n);
    }
  }

  lemma {:induction false} RoutesViaDistinct(fs: FS, p: Path, k: nat, n: nat)
    requires Succeeds(fs, p, n) && WellListed(fs) && k <= |Next(fs, p)|
    ensures Distinct(RoutesVia(fs, p, k, n))
    decreases n, k
  {
    if k > 0 {
      var q := Next(fs, p)[k - 1];
      SucceedsNext(fs, p, q, n);
      RoutesViaDistinct(fs, p, k - 1, n);
      RoutesDistinct(fs, q, n - 1);
      EntryIsNew(fs, p, k);
      var a, b := RoutesVia(fs, p, k - 1, n), Routes(fs, q, n - 1);
      forall t | t in a ensures t !in Via(p, b) {
        RouteViaApart(fs, p, k, n, t);
      }
      DistinctJoin(a, p, b);
    }
  }

  /** Routes through different entries differ. */
  lemma RouteViaApart(fs: FS, p: Path, k: nat, n: nat, t: Trail)
    requires Succeeds(fs, p, n) && 1 <= k <= |Next(fs, p)| && Next(fs, p)[k - 1] !in Next(fs, p)[..k - 1]
    requires t in RoutesVia(fs, p, k - 1, n)
    ensures n >= 2 && Succeeds(fs, Next(fs, p)[k - 1], n - 1)
    ensures t !in Via(p, Routes(fs, Next(fs, p)[k - 1], n - 1))
  {
    var q := Next(fs, p)[k - 1];
    SucceedsNext(fs, p, q, n);
    RouteViaStart(fs, p, k - 1, n, t);
    InVia(p, Routes(fs, q, n - 1), t);
    RouteStart(fs, q, n - 1, t.rest);
  }

  lemma RouteStart(fs: FS, p: Path, n: nat, t: Trail)
    requires Succeeds(fs, p, n)
    ensures t in Routes(fs, p, n) ==> t.at == p
  {
    RoutesAre(fs, p, n, t);
  }

  lemma RouteViaStart(fs: FS, p: Path, k: nat, n: nat, t: Trail)
    requires Succeeds(fs, p, n) && k <= |Next(fs, p)| && t in RoutesVia(fs, p, k, n)
    ensures t.Step? && t.rest.at in Next(fs, p)[..k]
  {
    RoutesViaAre(fs, p, k, n, t);
  }

  lemma EntryIsNew(fs: FS, p: Path, k: nat)
    requires WellListed(fs) && 1 <= k <= |Next(fs, p)|
    ensures Next(fs, p)[k - 1] !in Next(fs, p)[..k - 1]
  {
    var next := Next(fs, p);
    forall i | 0 <= i < k - 1 ensures next[i] != next[k - 1] {
    }
  }

  lemma DistinctJoin(a: seq<Trail>, p: Path, b: seq<Trail>)
    requires Distinct(a) && Distinct(b) && forall t | t in a :: t !in Via(p, b)
    ensures Distinct(a + Via(p, b))
  {
    var c := a + Via(p, b);
    forall i, j | 0 <= i < j < |c| ensures c[i] != c[j] {
      if i < |a| {
        assert a[i] in a;
      } else {
        assert c[i].rest == b[i - |a|] && c[j].rest == b[j - |a|];
      }
    }
  }

  /** The size of the file at the end of a route. */
  function EndSize(fs: FS, t: Trail): nat {
    if Last(t) in fs && fs[Last(t)].File? then fs[Last(t)].size else 0
  }

  function Total(fs: FS, rs: seq<Trail>): nat {
    if rs == [] then 0 else Total(fs, rs[..|rs| - 1]) + EndSize(fs, rs[|rs| - 1])
  }

  lemma {:induction false} TotalJoin(fs: FS, a: seq<Trail>, b: seq<Trail>)
    ensures Total(fs, a + b) == Total(fs, a) + Total(fs, b)
    decreases |b|
  {
    if b == [] {
      assert a + b == a;
    } else {
      assert (a + b)[..|a + b| - 1] == a + b[..|b| - 1];
      TotalJoin(fs, a, b[..|b| - 1]);
    }
  }

  /** A total adds up the sizes of the files that the routes end at, in any order and split. */
  lemma {:induction false} TotalIs(fs: FS, routes: seq<Trail>, i: nat)
    requires i < |routes| && Last(routes[i]) in fs && fs[Last(routes[i])].File?
    ensures Total(fs, []) == 0
    ensures Total(fs, routes) == Total(fs, routes[..i]) + fs[Last(routes[i])].size + Total(fs, routes[i + 1..])
  {
    var front := routes[..i + 1];
    assert routes == front + routes[i + 1..] && front[..|front| - 1] == routes[..i];
    TotalJoin(fs, front, routes[i + 1..]);
  }

  lemma {:induction false} TotalVia(fs: FS, p: Path, rs: seq<Trail>)
    ensures Total(fs, Via(p, rs)) == Total(fs, rs)
    decreases |rs|
  {
    if rs != [] {
      var front := rs[..|rs| - 1];
      TotalVia(fs, p, front);
      assert Via(p, rs)[..|rs| - 1] == Via(p, front);
    }
  }

  /* ---------- the walk against the routes ---------- */

  /** A walk that succeeds has counted the file at the end of every route. */
  lemma {:induction false} WalkCounts(fs: FS, p: Path, size: nat, n: nat)
    requires Walk(fs, p, size, n).Some? && Walk(fs, p, size, n).value.ok
    ensures Succeeds(fs, p, n)
    ensures Walk(fs, p, size, n).value.size == size + Total(fs, Routes(fs, p, n))
    decreases n, |Next(fs, p)| + 1
  {
    WalkIs(fs, p, size, n);
    match fs[p] {
      case File(_) =>
        assert Total(fs, [End(p)]) == Total(fs, []) + EndSize(fs, End(p));
      case Link(t) =>
        LinkRoutes(fs, p, t, n);
        WalkCounts(fs, t, 0, n - 1);
      case Dir(_) =>
        EachCounts(fs, p, |Next(fs, p)|, size, n);
      case DeadLink =>
    }
  }

  lemma LinkRoutes(fs: FS, p: Path, t: Path, n: nat)
    requires Succeeds(fs, p, n) && p in fs && fs[p] == Link(t)
    ensures n >= 2 && Succeeds(fs, t, n - 1) && Total(fs, Routes(fs, p, n)) == Total(fs, Routes(fs, t, n - 1))
  {
    assert Next(fs, p) == [t];
    SucceedsNext(fs, p, t, n);
    var rs := Routes(fs, t, n - 1);
    assert RoutesVia(fs, p, 0, n) + Via(p, rs) == Via(p, rs);
    TotalVia(fs, p, rs);
  }

  lemma {:induction false} EachCounts(fs: FS, p: Path, k: nat, size: nat, n: nat)
    requires Succeeds(fs, p, n) && k <= |Next(fs, p)|
    requires WalkEach(fs, p, k, size, n).Some? && WalkEach(fs, p, k, size, n).value.ok
    ensures WalkEach(fs, p, k, size, n).value.size == size + Total(fs, RoutesVia(fs, p, k, n))
    decreases n, k
  {
    if k > 0 {
      var q := Next(fs, p)[k - 1];
      SucceedsNext(fs, p, q, n);
      EachCounts(fs, p, k - 1, size, n);
      WalkCounts(fs, q, WalkEach(fs, p, k - 1, size, n).value.size, n - 1);
      OneMoreEntry(fs, p, k, n);
    }
  }

  lemma OneMoreEntry(fs: FS, p: Path, k: nat, n: nat)
    requires Succeeds(fs, p, n) && 1 <= k <= |Next(fs, p)| && n >= 2 && Succeeds(fs, Next(fs, p)[k - 1], n - 1)
    ensures Total(fs, RoutesVia(fs, p, k, n)) ==
              Total(fs, RoutesVia(fs, p, k - 1, n)) + Total(fs, Routes(fs, Next(fs, p)[k - 1], n - 1))
  {
    var rs := Routes(fs, Next(fs, p)[k - 1], n - 1);
    TotalJoin(fs, RoutesVia(fs, p, k - 1, n), Via(p, rs));
    TotalVia(fs, p, rs);
  }

  /** The disk size of a model, whenever the recursion ends: an error exactly when some trail comes
      back to where it was or ends in a path that is missing or cannot be listed; otherwise the
      size of a regular file is counted once for every route that leads to it. */
  lemma ModelDiskSize(fs: FS, p: Path, n: nat)
    requires Walk(fs, p, 0, n).Some?
    ensures var o := Walk(fs, p, 0, n).value;
            && (o.ok <==>
                  && Acyclic(fs, p)
                  && forall t | IsTrail(fs, t) && t.at == p :: Last(t) in fs && !fs[Last(t)].ClosedDir?)
            && (o.ok && WellListed(fs) ==>
                  exists routes ::
                    && Distinct(routes)
                    && (forall t :: t in routes <==>
                          IsTrail(fs, t) && t.at == p && Last(t) in fs && fs[Last(t)].File?)
                    && o.size == Total(fs, routes))
  {
    SuccessExactly(fs, p, 0, n);
    if Walk(fs, p, 0, n).value.ok && WellListed(fs) {
      WalkCounts(fs, p, 0, n);
      RoutesDistinct(fs, p, n);
      forall t ensures t in Routes(fs, p, n) <==> IsRoute(fs, t, p) {
        RoutesAre(fs, p, n, t);
      }
    }
  }
}
