/** The dotpath overrides of model-serving-puller/puller/dotpath.go on values: what `set` does
    to a tree of JSON objects, and why the order of the overrides does not matter. */
module Dotpath {
  import opened Wrappers

  /** A decoded JSON value; numbers, booleans, nulls and arrays are told apart by a tag. */
  datatype Json = Str(s: string) | Other(tag: int) | Obj(fields: map<string, Json>)

  type Tree = map<string, Json>

  /* ---------- splitting a dotpath into fields ---------- */

  /** strings.Split(dotpath, ".") */
  function Split(s: string): (r: seq<string>)
    ensures |r| >= 1
    ensures forall i | 0 <= i < |r| :: '.' !in r[i]
  {
    if s == "" then [""]
    else
      var r := Split(s[1..]);
      if s[0] == '.' then [""] + r else [[s[0]] + r[0]] + r[1..]
  }

  /** strings.Join(fields, ".") */
  function Join(r: seq<string>): string
    requires |r| >= 1
  {
    if |r| == 1 then r[0] else r[0] + "." + Join(r[1..])
  }

  lemma {:induction false} JoinSplit(s: string)
    ensures Join(Split(s)) == s
    decreases |s|
  {
    if s != "" {
      JoinSplit(s[1..]);
      var r := Split(s[1..]);
      if s[0] == '.' {
        assert ([""] + r)[1..] == r;
        assert s == "." + s[1..];
      } else {
        var q := [[s[0]] + r[0]] + r[1..];
        assert q[1..] == r[1..];
        assert s == [s[0]] + s[1..];
      }
    }
  }

  /** Distinct dotpaths have distinct field lists. */
  lemma SplitInjective(a: string, b: string)
    requires Split(a) == Split(b)
    ensures a == b
  {
    JoinSplit(a);
    JoinSplit(b);
  }

  /* ---------- set ---------- */

  /** The tree after setting a value, or None where `set` returns an error. */
  function Set(t: Tree, path: seq<string>, value: string): Option<Tree>
    requires |path| >= 1
    decreases |path|
  {
    var f := path[0];
    if |path| == 1 then
      if f in t && !t[f].Str? then None else Some(t[f := Str(value)])
    else if f !in t then
      Some(t[f := Obj(Fresh(path[1..], value))])
    else if t[f].Obj? then
      match Set(t[f].fields, path[1..], value)
      case None => None
      case Some(u) => Some(t[f := Obj(u)])
    else None
  }

  /** The levels that `set` creates below a missing field. */
  function Fresh(path: seq<string>, value: string): Tree
    requires |path| >= 1
    decreases |path|
  {
    if |path| == 1 then map[path[0] := Str(value)] else map[path[0] := Obj(Fresh(path[1..], value))]
  }

  lemma {:induction false} FreshIsSet(path: seq<string>, value: string)
    requires |path| >= 1
    ensures Set(map[], path, value) == Some(Fresh(path, value))
  {
  }

  /** What a path leads to. */
  function Get(t: Tree, path: seq<string>): Option<Json>
    decreases |path|
  {
    if path == [] then Some(Obj(t))
    else if path[0] !in t then None
    else if |path| == 1 then Some(t[path[0]])
    else if t[path[0]].Obj? then Get(t[path[0]].fields, path[1..])
    else None
  }

  /** One field more leads to that field of the object that the path leads to. */
  lemma {:induction false} GetField(t: Tree, path: seq<string>, f: string)
    ensures Get(t, []) == Some(Obj(t))
    ensures Get(t, path + [f]) ==
              match Get(t, path)
              case Some(Obj(fields)) => if f in fields then Some(fields[f]) else None
              case _ => None
    decreases |path|
  {
    if path != [] {
      assert (path + [f])[1..] == path[1..] + [f];
      if path[0] in t && t[path[0]].Obj? {
        GetField(t[path[0]].fields, path[1..], f);
      }
      assert |path| == 1 ==> path[1..] == [];
    }
  }

  /** A path can be set exactly when what is there already, on the way and at the end, allows it. */
  predicate Settable(t: Tree, path: seq<string>)
    requires |path| >= 1
  {
    && (forall i | 1 <= i < |path| :: Get(t, path[..i]).Some? ==> Get(t, path[..i]).value.Obj?)
    && (Get(t, path).Some? ==> Get(t, path).value.Str?)
  }

  predicate ProperPrefix(p: seq<string>, q: seq<string>) {
    p < q
  }

  lemma GetBelow(t: Tree, path: seq<string>)
    requires |path| >= 2 && path[0] in t && t[path[0]].Obj?
    ensures forall i | 2 <= i <= |path| :: Get(t, path[..i]) == Get(t[path[0]].fields, path[1..][..i - 1])
    ensures Get(t, path) == Get(t[path[0]].fields, path[1..])
  {
    forall i | 2 <= i <= |path| ensures Get(t, path[..i]) == Get(t[path[0]].fields, path[1..][..i - 1]) {
      assert path[..i][1..] == path[1..][..i - 1];
    }
  }

  /** `set` succeeds exactly on settable paths. */
  lemma {:induction false} SetSucceeds(t: Tree, path: seq<string>, value: string)
    requires |path| >= 1
    ensures Set(t, path, value).Some? <==> Settable(t, path)
    ensures Set(t, path, value).None? <==>
              exists i :: 1 <= i <= |path| && Get(t, path[..i]).Some? &&
                          var j := Get(t, path[..i]).value; if i == |path| then !j.Str? else !j.Obj?
    decreases |path|
  {
    var f := path[0];
    if |path| == 1 {
      assert path[..1] == path;
    } else if f !in t {
      forall i | 1 <= i <= |path| ensures Get(t, path[..i]).None? {
        assert path[..i][0] == f;
      }
      assert path[..|path|] == path;
    } else if t[f].Obj? {
      var u, rest := t[f].fields, path[1..];
      SetSucceeds(u, rest, value);
      GetBelow(t, path);
      assert path[..1] == [f];
      if Settable(t, path) {
        forall i | 1 <= i < |rest| ensures Get(u, rest[..i]).Some? ==> Get(u, rest[..i]).value.Obj? {
          assert Get(t, path[..i + 1]) == Get(u, rest[..i]);
        }
      }
      if Settable(u, rest) {
        forall i | 1 <= i < |path| ensures Get(t, path[..i]).Some? ==> Get(t, path[..i]).value.Obj? {
          if i > 1 {
            assert Get(t, path[..i]) == Get(u, rest[..i - 1]);
          }
        }
      }
    } else {
      assert path[..1] == [f];
      assert Get(t, path[..1]) == Some(t[f]);
    }
  }

  /** After a `set` the path leads to the value, and a path that neither leads through the new
      value nor to one of the objects above it leads where it led. */
  lemma {:induction false} SetGet(t: Tree, path: seq<string>, value: string, q: seq<string>)
    requires |path| >= 1 && Set(t, path, value).Some?
    ensures Get(Set(t, path, value).value, path) == Some(Str(value))
    ensures !(q <= path) && !(path <= q) ==> Get(Set(t, path, value).value, q) == Get(t, q)
    decreases |path|
  {
    var f := path[0];
    if |path| > 1 {
      var u := if f in t then t[f].fields else map[];
      var rest := path[1..];
      FreshIsSet(rest, value);
      var qrest := if q == [] then [] else q[1..];
      SetGet(u, rest, value, qrest);
      assert path == [f] + rest;
      if q != [] && q[0] == f && |q| > 1 {
        assert q == [f] + qrest;
        if !(q <= path) && !(path <= q) {
          assert !(qrest <= rest) && !(rest <= qrest);
          if f !in t {
            EmptyGet(qrest);
          }
        }
      } else if q != [] && q[0] == f {
        assert q == [f] && q <= path;
      }
    } else {
      assert path == [f];
      if q != [] && q[0] == f {
        assert path <= q;
      }
    }
  }

  /** A value that was set can be set again, and the last one stays. */
  lemma {:induction false} SetAgain(t: Tree, path: seq<string>, value: string, last: string)
    requires |path| >= 1 && Set(t, path, value).Some?
    ensures Set(Set(t, path, value).value, path, last) == Set(t, path, last)
    ensures Set(t, path, last).Some?
    decreases |path|
  {
    var f := path[0];
    if |path| == 1 {
      assert t[f := Str(value)][f := Str(last)] == t[f := Str(last)];
    } else {
      var u := if f in t then t[f].fields else map[];
      FreshIsSet(path[1..], value);
      FreshIsSet(path[1..], last);
      SetAgain(u, path[1..], value, last);
      var v, w := Set(u, path[1..], value).value, Set(u, path[1..], last).value;
      assert t[f := Obj(v)][f := Obj(w)] == t[f := Obj(w)];
    }
  }

  lemma EmptyGet(q: seq<string>)
    requires q != []
    ensures Get(map[], q) == None
  {
  }

  /* ---------- `set` as a walk: what one level contributes ---------- */

  /** The tree with one field replaced in the object that the path leads to. */
  function Graft(t: Tree, path: seq<string>, f: string, j: Json): Tree
    requires Get(t, path).Some? && Get(t, path).value.Obj?
    decreases |path|
  {
    if path == [] then t[f := j]
    else t[path[0] := Obj(Graft(t[path[0]].fields, path[1..], f, j))]
  }

  /** Creating a missing level on the way does not change what `set` does. */
  lemma {:induction false} LevelCreated(t: Tree, path: seq<string>, f: string, more: seq<string>, value: string)
    requires more != [] && Get(t, path).Some? && Get(t, path).value.Obj? && f !in Get(t, path).value.fields
    ensures Set(Graft(t, path, f, Obj(map[])), path + [f] + more, value) == Set(t, path + [f] + more, value)
    decreases |path|
  {
    var all := path + [f] + more;
    if path == [] {
      assert all[1..] == more;
      FreshIsSet(more, value);
      assert t[f := Obj(map[])][f := Obj(Fresh(more, value))] == t[f := Obj(Fresh(more, value))];
    } else {
      var g := path[0];
      assert all[1..] == path[1..] + [f] + more;
      LevelCreated(t[g].fields, path[1..], f, more, value);
      var u := Graft(t[g].fields, path[1..], f, Obj(map[]));
      match Set(u, all[1..], value)
      case None =>
      case Some(v) => assert t[g := Obj(u)][g := Obj(v)] == t[g := Obj(v)];
    }
  }

  /** At the last field a missing value is created and a string is overwritten. */
  lemma {:induction false} LastField(t: Tree, path: seq<string>, f: string, value: string)
    requires Get(t, path).Some? && Get(t, path).value.Obj?
    requires f in Get(t, path).value.fields ==> Get(t, path).value.fields[f].Str?
    ensures Set(t, path + [f], value) == Some(Graft(t, path, f, Str(value)))
    decreases |path|
  {
    if path != [] {
      assert (path + [f])[1..] == path[1..] + [f];
      LastField(t[path[0]].fields, path[1..], f, value);
    }
  }

  /** Anything but an object on the way, and anything but a string at the end, is an error. */
  lemma {:induction false} FieldRefused(t: Tree, path: seq<string>, f: string, more: seq<string>, value: string)
    requires Get(t, path).Some? && Get(t, path).value.Obj? && f in Get(t, path).value.fields
    requires if more == [] then !Get(t, path).value.fields[f].Str? else !Get(t, path).value.fields[f].Obj?
    ensures Set(t, path + [f] + more, value) == None
    decreases |path|
  {
    var all := path + [f] + more;
    if path == [] {
      assert all[1..] == more;
    } else {
      assert all[1..] == path[1..] + [f] + more;
      FieldRefused(t[path[0]].fields, path[1..], f, more, value);
    }
  }
}
