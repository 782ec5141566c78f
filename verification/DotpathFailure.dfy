/** What ApplyParameterOverrides leaves behind.  It stops at the first override that is refused,
    and those before it stay: whether anything changes depends on the order, with an exact
    condition for when it does not. */
module DotpathFailures {
  import opened Dotpath
  import opened DotpathOrder
  import opened Wrappers

  /** The tree after the overrides up to the first that is refused. */
  function Left(t: Tree, order: seq<Override>): Tree
    requires Proper(order)
    decreases |order|
  {
    if order == [] then t
    else match Set(t, order[0].path, order[0].value)
      case None => t
      case Some(u) => Left(u, order[1..])
  }

  /** Where n overrides are applied and the next, if there is one, is refused. */
  lemma {:induction false} LeftIs(t: Tree, order: seq<Override>, n: nat)
    requires Proper(order) && n <= |order| && ApplyAll(t, order[..n]).Some?
    requires n < |order| ==> Set(ApplyAll(t, order[..n]).value, order[n].path, order[n].value).None?
    ensures Left(t, order) == ApplyAll(t, order[..n]).value
    decreases |order|
  {
    if n > 0 {
      assert order[..n][1..] == order[1..][..n - 1];
      LeftIs(Set(t, order[0].path, order[0].value).value, order[1..], n - 1);
    }
  }

  /* ---------- a value once set stays ---------- */

  /** On the way to something there are only objects. */
  lemma {:induction false} GetAbove(t: Tree, p: seq<string>, q: seq<string>)
    requires ProperPrefix(p, q) && Get(t, q).Some?
    ensures Get(t, p).Some? && Get(t, p).value.Obj?
    decreases |p|
  {
    if |p| == 1 {
      assert q[0] == p[0];
    } else if p != [] {
      assert q[0] == p[0] && p[1..] < q[1..];
      GetAbove(t[p[0]].fields, p[1..], q[1..]);
    }
  }

  lemma {:induction false} SetSame(t: Tree, path: seq<string>, value: string)
    requires |path| >= 1 && Get(t, path) == Some(Str(value))
    ensures Set(t, path, value) == Some(t)
    decreases |path|
  {
    if |path| > 1 {
      SetSame(t[path[0]].fields, path[1..], value);
    }
    assert t[path[0] := t[path[0]]] == t;
  }

  /** A path that can be set does not lead through a string. */
  lemma NotThrough(t: Tree, p: seq<string>, q: seq<string>, value: string)
    requires |q| >= 1 && Settable(t, q) && Get(t, p) == Some(Str(value))
    ensures !ProperPrefix(p, q)
  {
    assert p <= q ==> q[..|p|] == p;
  }

  /** An override of another path either fails or leaves a string where it is. */
  lemma SetKeepsValue(t: Tree, o: Override, p: seq<string>, value: string)
    requires |o.path| >= 1 && o.path != p && Set(t, o.path, o.value).Some? && Get(t, p) == Some(Str(value))
    ensures Get(Set(t, o.path, o.value).value, p) == Some(Str(value))
  {
    SetSucceeds(t, o.path, o.value);
    NotThrough(t, p, o.path, value);
    if ProperPrefix(o.path, p) {
      GetAbove(t, o.path, p);
    } else {
      SetGet(t, o.path, o.value, p);
    }
  }

  lemma {:induction false} LeftKeepsValue(t: Tree, order: seq<Override>, p: seq<string>, value: string)
    requires Proper(order) && Get(t, p) == Some(Str(value)) && forall o | o in order :: o.path != p
    ensures Get(Left(t, order), p) == Some(Str(value))
    decreases |order|
  {
    if order != [] && Set(t, order[0].path, order[0].value).Some? {
      SetKeepsValue(t, order[0], p, value);
      LeftKeepsValue(Set(t, order[0].path, order[0].value).value, order[1..], p, value);
    }
  }

  /** Whatever fails later, an override that is tried first and can be set is there at the end. */
  lemma FirstStays(t: Tree, order: seq<Override>)
    requires Proper(order) && DistinctPaths(order) && order != [] && Settable(t, order[0].path)
    ensures Get(Left(t, order), order[0].path) == Some(Str(order[0].value))
  {
    var a, rest := order[0], order[1..];
    SetSucceeds(t, a.path, a.value);
    SetGet(t, a.path, a.value, []);
    forall o | o in rest ensures o.path != a.path {
      var i :| 0 <= i < |rest| && rest[i] == o;
      assert order[i + 1] == o;
    }
    LeftKeepsValue(Set(t, a.path, a.value).value, rest, a.path, a.value);
  }

  /* ---------- the overrides as a Go map ---------- */

  /** Each override can be set in the parameters, and none leads through the value of another. */
  ghost predicate Agreeable(t: Tree, overrides: map<string, string>) {
    && (forall d | d in overrides :: Settable(t, Split(d)))
    && (forall a, b | a in overrides && b in overrides :: !ProperPrefix(Split(a), Split(b)))
  }

  lemma OverrideOf(overrides: map<string, string>, k: seq<string>, d: string)
    requires Iterates(k, overrides) && d in overrides
    ensures Override(Split(d), overrides[d]) in Overrides(k, overrides)
  {
    var i :| 0 <= i < |k| && k[i] == d;
    assert Overrides(k, overrides)[i] == Override(Split(d), overrides[d]);
  }

  lemma KeyOf(overrides: map<string, string>, k: seq<string>, o: Override) returns (d: string)
    requires Iterates(k, overrides) && o in Overrides(k, overrides)
    ensures d in overrides && Split(d) == o.path
  {
    var i :| 0 <= i < |k| && Overrides(k, overrides)[i] == o;
    d := k[i];
    assert d in k;
  }

  lemma AgreeableCompatible(t: Tree, overrides: map<string, string>, k: seq<string>)
    requires Iterates(k, overrides)
    ensures Agreeable(t, overrides) <==> Compatible(t, Overrides(k, overrides))
  {
    var order := Overrides(k, overrides);
    if Compatible(t, order) {
      forall d | d in overrides ensures Settable(t, Split(d)) {
        OverrideOf(overrides, k, d);
      }
      forall a, b | a in overrides && b in overrides ensures !ProperPrefix(Split(a), Split(b)) {
        OverrideOf(overrides, k, a);
        OverrideOf(overrides, k, b);
      }
    }
    if Agreeable(t, overrides) {
      forall o | o in order ensures Settable(t, o.path) {
        var d := KeyOf(overrides, k, o);
      }
      forall a, b | a in order && b in order ensures !ProperPrefix(a.path, b.path) {
        var d := KeyOf(overrides, k, a);
        var e := KeyOf(overrides, k, b);
      }
    }
  }

  lemma AgreeableIs(t: Tree, overrides: map<string, string>, k: seq<string>)
    requires Iterates(k, overrides)
    ensures Agreeable(t, overrides) <==> ApplyAll(t, Overrides(k, overrides)).Some?
  {
    AgreeableCompatible(t, overrides, k);
    KeysDistinct(k, overrides);
    SucceedsExactly(t, Overrides(k, overrides));
  }

  /** What can be set is set already. */
  ghost predicate InPlace(t: Tree, overrides: map<string, string>) {
    forall d | d in overrides && Settable(t, Split(d)) :: Get(t, Split(d)) == Some(Str(overrides[d]))
  }

  lemma {:induction false} InPlaceLeavesAlone(t: Tree, overrides: map<string, string>, k: seq<string>)
    requires InPlace(t, overrides) && forall d | d in k :: d in overrides
    ensures Left(t, Overrides(k, overrides)) == t
    decreases |k|
  {
    if k != [] {
      var a := Overrides(k, overrides)[0];
      assert k[0] in overrides;
      SetSucceeds(t, a.path, a.value);
      if Settable(t, a.path) {
        SetSame(t, a.path, a.value);
        assert Overrides(k, overrides)[1..] == Overrides(k[1..], overrides);
        InPlaceLeavesAlone(t, overrides, k[1..]);
      }
    }
  }

  /** Go may try any key first. */
  lemma IterationFrom(overrides: map<string, string>, d: string) returns (k: seq<string>)
    requires d in overrides
    ensures Iterates(k, overrides) && k[0] == d
  {
    var rest := overrides - {d};
    IterationExists(rest);
    var r :| Iterates(r, rest);
    assert forall i | 0 <= i < |r| :: r[i] in rest;
    k := [d] + r;
  }

  lemma TriedFirst(t: Tree, overrides: map<string, string>, d: string) returns (k: seq<string>)
    requires d in overrides
    ensures Iterates(k, overrides)
    ensures var left := Left(t, Overrides(k, overrides));
            if Settable(t, Split(d)) then Get(left, Split(d)) == Some(Str(overrides[d])) else left == t
  {
    k := IterationFrom(overrides, d);
    var order := Overrides(k, overrides);
    KeysDistinct(k, overrides);
    SetSucceeds(t, order[0].path, order[0].value);
    if Settable(t, Split(d)) {
      FirstStays(t, order);
    }
  }

  /** Overrides leave the parameters alone, in every order, exactly when those that can be set are
      in place already.  For overrides that fail this is when they change all or nothing. */
  lemma UnchangedExactly(t: Tree, overrides: map<string, string>)
    ensures (forall k | Iterates(k, overrides) :: Left(t, Overrides(k, overrides)) == t) <==> InPlace(t, overrides)
  {
    if InPlace(t, overrides) {
      forall k | Iterates(k, overrides) ensures Left(t, Overrides(k, overrides)) == t {
        InPlaceLeavesAlone(t, overrides, k);
      }
    } else {
      var d :| d in overrides && Settable(t, Split(d)) && Get(t, Split(d)) != Some(Str(overrides[d]));
      var k := TriedFirst(t, overrides, d);
      assert Left(t, Overrides(k, overrides)) != t;
    }
  }

  /** After a failure the tree depends on the order of the map iteration, unless it is the old one. */
  lemma SameTreeExactly(t: Tree, overrides: map<string, string>)
    requires !Agreeable(t, overrides)
    ensures (forall k1, k2 | Iterates(k1, overrides) && Iterates(k2, overrides) ::
               Left(t, Overrides(k1, overrides)) == Left(t, Overrides(k2, overrides)))
            <==> InPlace(t, overrides)
  {
    UnchangedExactly(t, overrides);
    if d :| d in overrides && !Settable(t, Split(d)) {
      var k := TriedFirst(t, overrides, d);
      assert Left(t, Overrides(k, overrides)) == t;
    } else {
      var a, b :| a in overrides && b in overrides && ProperPrefix(Split(a), Split(b));
      var k1 := TriedFirst(t, overrides, a);
      var k2 := TriedFirst(t, overrides, b);
      GetAbove(Left(t, Overrides(k2, overrides)), Split(a), Split(b));
      assert Left(t, Overrides(k1, overrides)) != Left(t, Overrides(k2, overrides));
    }
  }

  lemma SplitHead(c: char, s: string)
    ensures Split([c] + s) == if c == '.' then [""] + Split(s) else [[c] + Split(s)[0]] + Split(s)[1..]
  {
    assert ([c] + s)[1..] == s;
  }

  lemma SplitExamples()
    ensures Split("b") == ["b"] && Split("a.c") == ["a", "c"]
  {
    SplitHead('b', "");
    assert ['b'] + "" == "b";
    SplitHead('c', "");
    assert ['c'] + "" == "c" && Split("c") == ["c"];
    SplitHead('.', "c");
    assert ['.'] + "c" == ".c" && Split(".c") == ["", "c"];
    SplitHead('a', ".c");
    assert ['a'] + ".c" == "a.c";
    assert ['a'] + "" == "a" && ["", "c"][1..] == ["c"] && ["a"] + ["c"] == ["a", "c"];
  }

  lemma LeftOfTwo(t: Tree, a: Override, b: Override)
    requires Proper([a, b])
    ensures Left(t, [a, b]) ==
              match Set(t, a.path, a.value)
              case None => t
              case Some(u) => (match Set(u, b.path, b.value) case None => u case Some(w) => w)
  {
    assert [a, b][1..] == [b] && [b][1..] == [];
    match Set(t, a.path, a.value)
    case None =>
    case Some(u) => assert Left(u, [b]) == match Set(u, b.path, b.value) case None => u case Some(w) => w;
  }

  /** One override into a number and one new field: the new field is there after the error, or
      not, as the iteration goes. */
  lemma FailureExample()
    ensures var t: Tree := map["a" := Other(1)];
            var overrides := map["b" := "x", "a.c" := "y"];
            && Iterates(["b", "a.c"], overrides) && Iterates(["a.c", "b"], overrides) && !Agreeable(t, overrides)
            && Left(t, Overrides(["b", "a.c"], overrides)) == map["a" := Other(1), "b" := Str("x")]
            && Left(t, Overrides(["a.c", "b"], overrides)) == t
  {
    var t: Tree := map["a" := Other(1)];
    var overrides := map["b" := "x", "a.c" := "y"];
    SplitExamples();
    var one, two := Override(["b"], "x"), Override(["a", "c"], "y");
    assert Overrides(["b", "a.c"], overrides) == [one, two];
    assert Overrides(["a.c", "b"], overrides) == [two, one];
    LeftOfTwo(t, one, two);
    LeftOfTwo(t, two, one);
    assert Set(t, ["b"], "x") == Some(t["b" := Str("x")]);
    assert Iterates(["b", "a.c"], overrides);
    AgreeableIs(t, overrides, ["b", "a.c"]);
    assert [one, two][1..] == [two];
  }
}
