/** ApplyParameterOverrides walks a Go map, in any order.  Success, failure and the resulting
    tree are the same for every order. */
module DotpathOrder {
  import opened Dotpath
  import opened Wrappers

  datatype Override = Override(path: seq<string>, value: string)

  predicate Proper(order: seq<Override>) {
    forall o | o in order :: |o.path| >= 1
  }

  /** The overrides applied one after the other; None as soon as one is refused. */
  function ApplyAll(t: Tree, order: seq<Override>): Option<Tree>
    requires Proper(order)
    decreases |order|
  {
    if order == [] then Some(t)
    else match Set(t, order[0].path, order[0].value)
      case None => None
      case Some(u) => ApplyAll(u, order[1..])
  }

  function Two(t: Tree, a: Override, b: Override): Option<Tree>
    requires |a.path| >= 1 && |b.path| >= 1
  {
    match Set(t, a.path, a.value)
    case None => None
    case Some(u) => Set(u, b.path, b.value)
  }

  function Below(o: Override): Override
    requires |o.path| >= 2
  {
    Override(o.path[1..], o.value)
  }

  /** Two overrides below one field act on that field's object. */
  lemma TwoBelow(t: Tree, a: Override, b: Override)
    requires |a.path| >= 2 && |b.path| >= 2 && a.path[0] == b.path[0]
    ensures var f := a.path[0];
            Two(t, a, b) ==
              if f in t && !t[f].Obj? then None
              else match Two(if f in t then t[f].fields else map[], Below(a), Below(b))
                case None => None
                case Some(u) => Some(t[f := Obj(u)])
  {
    var f := a.path[0];
    if f !in t {
      FreshIsSet(a.path[1..], a.value);
      var u := Fresh(a.path[1..], a.value);
      assert forall v :: t[f := Obj(u)][f := Obj(v)] == t[f := Obj(v)];
    } else if t[f].Obj? {
      match Set(t[f].fields, a.path[1..], a.value)
      case None =>
      case Some(u) => assert forall v :: t[f := Obj(u)][f := Obj(v)] == t[f := Obj(v)];
    }
  }

  /** Overrides of different paths commute, failures included. */
  lemma {:induction false} Commute(t: Tree, a: Override, b: Override)
    requires |a.path| >= 1 && |b.path| >= 1 && a.path != b.path
    ensures Two(t, a, b) == Two(t, b, a)
    decreases |a.path|
  {
    var f := a.path[0];
    if f != b.path[0] {
      CommuteApart(t, a, b);
    } else if |a.path| >= 2 && |b.path| >= 2 {
      assert a.path == [f] + a.path[1..] && b.path == [f] + b.path[1..];
      Commute(if f in t && t[f].Obj? then t[f].fields else map[], Below(a), Below(b));
      TwoBelow(t, a, b);
      TwoBelow(t, b, a);
    } else {
      assert |a.path| == 1 && |b.path| == 1 ==> a.path == [f] && b.path == [f];
    }
  }

  lemma Swap(t: Tree, f: string, x: Json, g: string, y: Json)
    requires f != g
    ensures t[f := x][g := y] == t[g := y][f := x]
  {
  }

  lemma CommuteApart(t: Tree, a: Override, b: Override)
    requires |a.path| >= 1 && |b.path| >= 1 && a.path[0] != b.path[0]
    ensures Two(t, a, b) == Two(t, b, a)
  {
    var f, g := a.path[0], b.path[0];
    var u, v := Set(t, a.path, a.value), Set(t, b.path, b.value);
    if u.Some? && v.Some? {
      assert u.value == t[f := u.value[f]] && v.value == t[g := v.value[g]];
      Swap(t, f, u.value[f], g, v.value[g]);
      assert Set(u.value, b.path, b.value) == Some(u.value[g := v.value[g]]);
      assert Set(v.value, a.path, a.value) == Some(v.value[f := u.value[f]]);
    }
  }

  /** Both of two overrides succeed exactly when each does alone and neither path leads through
      the other's value. */
  lemma {:induction false} TwoSucceed(t: Tree, a: Override, b: Override)
    requires |a.path| >= 1 && |b.path| >= 1 && a.path != b.path
    ensures Two(t, a, b).Some? <==>
              && Set(t, a.path, a.value).Some? && Set(t, b.path, b.value).Some?
              && !ProperPrefix(a.path, b.path) && !ProperPrefix(b.path, a.path)
    decreases |a.path|
  {
    var f := a.path[0];
    if f != b.path[0] {
    } else if |a.path| >= 2 && |b.path| >= 2 {
      assert a.path == [f] + a.path[1..] && b.path == [f] + b.path[1..];
      var u := if f in t && t[f].Obj? then t[f].fields else map[];
      TwoSucceed(u, Below(a), Below(b));
      TwoBelow(t, a, b);
      if f !in t {
        FreshIsSet(a.path[1..], a.value);
        FreshIsSet(b.path[1..], b.value);
      }
    } else {
      assert a.path[..1] == [f] && b.path[..1] == [f];
    }
  }

  predicate DistinctPaths(order: seq<Override>) {
    forall i, j | 0 <= i < j < |order| :: order[i].path != order[j].path
  }

  function Without(order: seq<Override>, i: nat): seq<Override>
    requires i < |order|
  {
    order[..i] + order[i + 1..]
  }

  /** Any override can be applied first. */
  lemma {:induction false} MoveToFront(t: Tree, order: seq<Override>, i: nat)
    requires Proper(order) && DistinctPaths(order) && i < |order|
    ensures Proper([order[i]] + Without(order, i))
    ensures ApplyAll(t, order) == ApplyAll(t, [order[i]] + Without(order, i))
    decreases |order|
  {
    var a, b, rest := order[0], order[i], order[1..];
    if i == 0 {
      assert [a] + Without(order, 0) == order;
    } else {
      var tail := Without(rest, i - 1);
      assert Without(order, i) == [a] + tail;
      assert ([b] + ([a] + tail))[1..] == [a] + tail;
      assert ([a] + tail)[1..] == tail;
      assert ([b] + tail)[1..] == tail;
      Commute(t, a, b);
      if Set(t, a.path, a.value).Some? {
        MoveToFront(Set(t, a.path, a.value).value, rest, i - 1);
      }
    }
  }

  /** The same overrides in another order. */
  ghost predicate Reordered(p: seq<Override>, q: seq<Override>) {
    DistinctPaths(p) && DistinctPaths(q) && forall o :: o in p <==> o in q
  }

  lemma {:induction false} SameLengthRest(p: seq<Override>, q: seq<Override>, i: nat)
    requires Reordered(p, q) && p != [] && i < |q| && q[i] == p[0]
    ensures Reordered(p[1..], Without(q, i))
  {
    var r := Without(q, i);
    forall j, k | 0 <= j < k < |r| ensures r[j].path != r[k].path {
      assert r[j] == q[if j < i then j else j + 1] && r[k] == q[if k < i then k else k + 1];
    }
    forall o ensures o in p[1..] <==> o in r {
      if o in p[1..] {
        var j :| 1 <= j < |p| && p[j] == o;
        assert o in q && o != p[0];
        var k :| 0 <= k < |q| && q[k] == o;
        assert r[if k < i then k else k - 1] == o;
      }
      if o in r {
        var k :| 0 <= k < |r| && r[k] == o;
        assert q[if k < i then k else k + 1] == o;
        assert o in p && o.path != q[i].path;
      }
    }
  }

  /** Every order of the overrides gives the same success or failure and the same tree. */
  lemma {:induction false} OrderIrrelevant(t: Tree, p: seq<Override>, q: seq<Override>)
    requires Proper(p) && Proper(q) && Reordered(p, q)
    ensures ApplyAll(t, p) == ApplyAll(t, q)
    decreases |p|
  {
    if p == [] {
      if q != [] { assert q[0] in q; }
    } else {
      assert p[0] in q;
      var i :| 0 <= i < |q| && q[i] == p[0];
      MoveToFront(t, q, i);
      SameLengthRest(p, q, i);
      var r := [q[i]] + Without(q, i);
      assert r[1..] == Without(q, i);
      if Set(t, p[0].path, p[0].value).Some? {
        OrderIrrelevant(Set(t, p[0].path, p[0].value).value, p[1..], Without(q, i));
      }
    }
  }

  /** No override leads through the value of another, and each is settable at the start. */
  ghost predicate Compatible(t: Tree, order: seq<Override>)
    requires Proper(order)
  {
    && (forall o | o in order :: Settable(t, o.path))
    && (forall a, b | a in order && b in order :: !ProperPrefix(a.path, b.path))
  }

  lemma CompatibleStep(t: Tree, order: seq<Override>, u: Tree)
    requires Proper(order) && DistinctPaths(order) && order != []
    requires Set(t, order[0].path, order[0].value) == Some(u)
    ensures Compatible(u, order[1..]) <==> Compatible(t, order)
  {
    var a, rest := order[0], order[1..];
    SetSucceeds(t, a.path, a.value);
    forall b | b in rest
      ensures Settable(u, b.path) <==>
                Settable(t, b.path) && !ProperPrefix(a.path, b.path) && !ProperPrefix(b.path, a.path)
    {
      var i :| 0 <= i < |rest| && rest[i] == b;
      assert order[i + 1] == b;
      TwoSucceed(t, a, b);
      SetSucceeds(t, b.path, b.value);
      SetSucceeds(u, b.path, b.value);
    }
    assert forall o | o in order :: o == a || o in rest;
  }

  /** The overrides all succeed exactly when they are compatible: something a caller can check
      before any of them is applied. */
  lemma {:induction false} SucceedsExactly(t: Tree, order: seq<Override>)
    requires Proper(order) && DistinctPaths(order)
    ensures ApplyAll(t, order).Some? <==> Compatible(t, order)
    decreases |order|
  {
    if order != [] {
      SetSucceeds(t, order[0].path, order[0].value);
      if Set(t, order[0].path, order[0].value).Some? {
        var u := Set(t, order[0].path, order[0].value).value;
        SucceedsExactly(u, order[1..]);
        CompatibleStep(t, order, u);
      } else {
        assert order[0] in order;
      }
    }
  }

  /** Afterwards every override is in place, and what no override touches is where it was. */
  lemma {:induction false} AppliedGet(t: Tree, order: seq<Override>, q: seq<string>)
    requires Proper(order) && DistinctPaths(order) && ApplyAll(t, order).Some?
    ensures forall o | o in order :: Get(ApplyAll(t, order).value, o.path) == Some(Str(o.value))
    ensures (forall o | o in order :: !(o.path <= q) && !(q <= o.path)) ==>
              Get(ApplyAll(t, order).value, q) == Get(t, q)
    decreases |order|
  {
    if order != [] {
      var a, rest := order[0], order[1..];
      var u := Set(t, a.path, a.value).value;
      SucceedsExactly(t, order);
      SetGet(t, a.path, a.value, q);
      AppliedGet(u, rest, q);
      forall b | b in rest ensures !(b.path <= a.path) && !(a.path <= b.path) {
        var i :| 0 <= i < |rest| && rest[i] == b;
        assert order[i + 1] == b && a in order;
      }
      AppliedGet(u, rest, a.path);
    }
  }

  /* ---------- a Go map of overrides ---------- */

  function Overrides(keys: seq<string>, overrides: map<string, string>): (r: seq<Override>)
    requires forall k | k in keys :: k in overrides
    ensures |r| == |keys| && Proper(r)
  {
    seq(|keys|, i requires 0 <= i < |keys| => Override(Split(keys[i]), overrides[keys[i]]))
  }

  /** One iteration over the map: each key once, in some order. */
  ghost predicate Iterates(keys: seq<string>, overrides: map<string, string>) {
    && (forall i, j | 0 <= i < j < |keys| :: keys[i] != keys[j])
    && (forall k :: k in keys <==> k in overrides)
  }

  lemma {:induction false} IterationExists(overrides: map<string, string>)
    ensures exists k :: Iterates(k, overrides)
    decreases |overrides|
  {
    if overrides == map[] {
      assert Iterates([], overrides);
    } else {
      var d :| d in overrides;
      var rest := overrides - {d};
      assert overrides.Keys == rest.Keys + {d};
      IterationExists(rest);
      var k :| Iterates(k, rest);
      assert Iterates(k + [d], overrides);
    }
  }

  lemma KeysDistinct(keys: seq<string>, overrides: map<string, string>)
    requires forall k | k in keys :: k in overrides
    requires forall i, j | 0 <= i < j < |keys| :: keys[i] != keys[j]
    ensures DistinctPaths(Overrides(keys, overrides))
  {
    var r := Overrides(keys, overrides);
    forall i, j | 0 <= i < j < |r| ensures r[i].path != r[j].path {
      if r[i].path == r[j].path {
        SplitInjective(keys[i], keys[j]);
      }
    }
  }

  /** Whatever order Go iterates the override map in, the outcome is the same. */
  lemma IterationIrrelevant(t: Tree, overrides: map<string, string>, k1: seq<string>, k2: seq<string>)
    requires Iterates(k1, overrides) && Iterates(k2, overrides)
    ensures ApplyAll(t, Overrides(k1, overrides)) == ApplyAll(t, Overrides(k2, overrides))
  {
    KeysDistinct(k1, overrides);
    KeysDistinct(k2, overrides);
    var p, q := Overrides(k1, overrides), Overrides(k2, overrides);
    forall o ensures o in p <==> o in q {
      if o in p {
        var i :| 0 <= i < |p| && p[i] == o;
        assert k1[i] in k2;
        var j :| 0 <= j < |k2| && k2[j] == k1[i];
        assert q[j] == o;
      }
      if o in q {
        var i :| 0 <= i < |q| && q[i] == o;
        assert k2[i] in k1;
        var j :| 0 <= j < |k1| && k1[j] == k2[i];
        assert p[j] == o;
      }
    }
    OrderIrrelevant(t, p, q);
  }
}
