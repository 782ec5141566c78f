/** `set` and ApplyParameterOverrides as they run: in place, on nested maps reached through a
    moving pointer.  A ghost tree records which map is where. */
module DotpathHeap {
  import opened Dotpath
  import opened DotpathFailures
  import opened DotpathOrder
  import opened Wrappers

  /** A Go map[string]interface{}. */
  class Node {
    var fields: map<string, Value>

    constructor ()
      ensures fields == map[]
    {
      fields := map[];
    }
  }

  datatype Value = Text(s: string) | Opaque(tag: int) | Map(node: Node)

  /** A tree of maps with their places in the heap. */
  datatype Located =
    | LText(s: string)
    | LOpaque(tag: int)
    | LMap(node: Node, kids: map<string, Located>)

  ghost function Top(l: Located): Value {
    match l
    case LText(s) => Text(s)
    case LOpaque(tag) => Opaque(tag)
    case LMap(node, _) => Map(node)
  }

  ghost function Shallow(kids: map<string, Located>): map<string, Value> {
    map k | k in kids :: Top(kids[k])
  }

  /** The JSON value, without the places. */
  ghost function Erase(l: Located): Json {
    match l
    case LText(s) => Str(s)
    case LOpaque(tag) => Other(tag)
    case LMap(_, kids) => Obj(map k | k in kids :: Erase(kids[k]))
  }

  ghost function TreeOf(kids: map<string, Located>): Tree {
    map k | k in kids :: Erase(kids[k])
  }

  /** What a path leads to. */
  ghost function At(l: Located, path: seq<string>): Option<Located>
    decreases |path|
  {
    if path == [] then Some(l)
    else if l.LMap? && path[0] in l.kids then At(l.kids[path[0]], path[1..])
    else None
  }

  predicate IsMap(o: Option<Located>) {
    o.Some? && o.value.LMap?
  }

  /** What each map holds. */
  type Heap = map<Node, map<string, Value>>

  ghost function Contents(nodes: set<Node>): Heap
    reads nodes
  {
    map n | n in nodes :: n.fields
  }

  /** Each map has the fields the tree says, and no map is in two places. */
  ghost predicate Placed(l: Located, heap: Heap) {
    && l.LMap?
    && (forall p | IsMap(At(l, p)) :: At(l, p).value.node in heap)
    && (forall p | IsMap(At(l, p)) :: heap[At(l, p).value.node] == Shallow(At(l, p).value.kids))
    && (forall p, q | IsMap(At(l, p)) && IsMap(At(l, q)) && At(l, p).value.node == At(l, q).value.node :: p == q)
  }

  ghost predicate Holds(l: Located, nodes: set<Node>)
    reads nodes
  {
    Placed(l, Contents(nodes))
  }

  lemma Here(l: Located, nodes: set<Node>, path: seq<string>)
    requires Holds(l, nodes) && IsMap(At(l, path))
    ensures At(l, path).value.node in nodes
    ensures At(l, path).value.node.fields == Shallow(At(l, path).value.kids)
  {
  }

  /** The tree with one field of the map at a path replaced. */
  ghost function Put(l: Located, path: seq<string>, f: string, leaf: Located): Located
    requires IsMap(At(l, path))
    decreases |path|
  {
    if path == [] then LMap(l.node, l.kids[f := leaf])
    else LMap(l.node, l.kids[path[0] := Put(l.kids[path[0]], path[1..], f, leaf)])
  }

  /** The change at the path itself, and below the new field. */
  lemma {:induction false} PutThere(l: Located, path: seq<string>, f: string, leaf: Located)
    requires IsMap(At(l, path))
    ensures var x := At(l, path).value; At(Put(l, path, f, leaf), path) == Some(LMap(x.node, x.kids[f := leaf]))
    decreases |path|
  {
    if path != [] {
      PutThere(l.kids[path[0]], path[1..], f, leaf);
    }
  }

  lemma {:induction false} PutBelow(l: Located, path: seq<string>, f: string, leaf: Located, q: seq<string>)
    requires IsMap(At(l, path))
    ensures At(Put(l, path, f, leaf), path + [f] + q) == At(leaf, q)
    decreases |path|
  {
    var all := path + [f] + q;
    if path == [] {
      assert all[1..] == q;
    } else {
      assert all[1..] == path[1..] + [f] + q;
      PutBelow(l.kids[path[0]], path[1..], f, leaf, q);
    }
  }

  /** Every other map stays in its place with the same fields. */
  lemma {:induction false} PutElsewhere(l: Located, path: seq<string>, f: string, leaf: Located, q: seq<string>)
    requires IsMap(At(l, path)) && q != path && !(path + [f] <= q)
    ensures IsMap(At(Put(l, path, f, leaf), q)) <==> IsMap(At(l, q))
    ensures IsMap(At(l, q)) ==>
              var x, y := At(l, q).value, At(Put(l, path, f, leaf), q).value;
              x.node == y.node && Shallow(x.kids) == Shallow(y.kids)
    decreases |path|
  {
    if path == [] {
      assert q != [] && (q[0] == f ==> [f] <= q);
    } else if q != [] && q[0] == path[0] {
      assert path == [path[0]] + path[1..] && q == [q[0]] + q[1..];
      assert path + [f] == [path[0]] + (path[1..] + [f]);
      PutElsewhere(l.kids[path[0]], path[1..], f, leaf, q[1..]);
    } else if q == [] {
      var kid := l.kids[path[0]];
      assert Top(Put(kid, path[1..], f, leaf)) == Top(kid);
      assert Shallow(l.kids[path[0] := Put(kid, path[1..], f, leaf)]) == Shallow(l.kids);
    }
  }

  /** The places forgotten, Put is Graft. */
  lemma {:induction false} GetErase(l: Located, path: seq<string>)
    requires l.LMap?
    ensures Get(TreeOf(l.kids), path) == (match At(l, path) case None => None case Some(x) => Some(Erase(x)))
    decreases |path|
  {
    if path != [] && path[0] in l.kids {
      var kid := l.kids[path[0]];
      if kid.LMap? {
        GetErase(kid, path[1..]);
      }
      assert |path| == 1 ==> path[1..] == [];
    }
  }

  lemma TreeUpdate(kids: map<string, Located>, k: string, x: Located)
    ensures TreeOf(kids[k := x]) == TreeOf(kids)[k := Erase(x)]
  {
  }

  lemma {:induction false} PutErase(l: Located, path: seq<string>, f: string, leaf: Located)
    requires IsMap(At(l, path))
    ensures Get(TreeOf(l.kids), path).Some? && Get(TreeOf(l.kids), path).value.Obj?
    ensures TreeOf(Put(l, path, f, leaf).kids) == Graft(TreeOf(l.kids), path, f, Erase(leaf))
    decreases |path|
  {
    GetErase(l, path);
    if path == [] {
      TreeUpdate(l.kids, f, leaf);
    } else {
      var kid := l.kids[path[0]];
      var kid' := Put(kid, path[1..], f, leaf);
      PutErase(kid, path[1..], f, leaf);
      TreeUpdate(l.kids, path[0], kid');
      assert Erase(kid') == Obj(TreeOf(kid'.kids)) && Erase(kid) == Obj(TreeOf(kid.kids));
    }
  }

  /** The heap after one write to the map at a path, in which no map is lost. */
  ghost predicate Written(l: Located, heap: Heap, path: seq<string>, f: string, leaf: Located, heap': Heap) {
    && IsMap(At(l, path))
    && var x := At(l, path).value;
    && (f in x.kids ==> !x.kids[f].LMap?)
    && (forall n | n in heap :: n in heap' && heap'[n] == if n == x.node then heap[n][f := Top(leaf)] else heap[n])
    && (leaf.LMap? ==> leaf.kids == map[] && leaf.node !in heap && leaf.node in heap' && heap'[leaf.node] == map[])
  }

  lemma PlaceAfter(l: Located, heap: Heap, path: seq<string>, f: string, leaf: Located, heap': Heap, q: seq<string>)
    requires Placed(l, heap) && Written(l, heap, path, f, leaf, heap') && IsMap(At(Put(l, path, f, leaf), q))
    ensures var y := At(Put(l, path, f, leaf), q).value;
            && y.node in heap' && heap'[y.node] == Shallow(y.kids)
            && (path + [f] <= q ==> q == path + [f] && leaf.LMap? && y.node == leaf.node)
            && (!(path + [f] <= q) ==> IsMap(At(l, q)) && At(l, q).value.node == y.node)
  {
    var x := At(l, path).value;
    if path + [f] <= q {
      var r := q[|path| + 1..];
      assert q == path + [f] + r;
      PutBelow(l, path, f, leaf, r);
      assert r == [];
    } else if q != path {
      PutElsewhere(l, path, f, leaf, q);
      assert At(l, q).value.node != x.node;
    } else {
      PutThere(l, path, f, leaf);
      assert Shallow(x.kids)[f := Top(leaf)] == Shallow(x.kids[f := leaf]);
    }
  }

  /** Such a write keeps the heap a tree. */
  lemma WritePlaced(l: Located, heap: Heap, path: seq<string>, f: string, leaf: Located, heap': Heap)
    requires Placed(l, heap) && Written(l, heap, path, f, leaf, heap')
    ensures Placed(Put(l, path, f, leaf), heap')
  {
    var l' := Put(l, path, f, leaf);
    forall p | IsMap(At(l', p))
      ensures At(l', p).value.node in heap' && heap'[At(l', p).value.node] == Shallow(At(l', p).value.kids)
    {
      PlaceAfter(l, heap, path, f, leaf, heap', p);
    }
    forall p, q | IsMap(At(l', p)) && IsMap(At(l', q)) && At(l', p).value.node == At(l', q).value.node ensures p == q {
      PlaceAfter(l, heap, path, f, leaf, heap', p);
      PlaceAfter(l, heap, path, f, leaf, heap', q);
    }
  }

  /* ---------- one turn of the walk, on values ---------- */

  lemma {:induction false} AtBelow(l: Located, path: seq<string>, f: string)
    requires IsMap(At(l, path)) && f in At(l, path).value.kids
    ensures At(l, path + [f]) == Some(At(l, path).value.kids[f])
    decreases |path|
  {
    if path == [] {
      assert (path + [f])[1..] == [];
    } else {
      assert (path + [f])[1..] == path[1..] + [f];
      AtBelow(l.kids[path[0]], path[1..], f);
    }
  }

  lemma AtNext(l: Located, fields: seq<string>, i: nat)
    requires i < |fields| && IsMap(At(l, fields[..i])) && fields[i] in At(l, fields[..i]).value.kids
    ensures At(l, fields[..i + 1]) == Some(At(l, fields[..i]).value.kids[fields[i]])
  {
    assert fields[..i] + [fields[i]] == fields[..i + 1];
    AtBelow(l, fields[..i], fields[i]);
  }

  /** The level that the walk creates, and the work left to do in it. */
  lemma LevelPut(l: Located, fields: seq<string>, i: nat, next: Node, value: string)
    requires i + 1 < |fields| && IsMap(At(l, fields[..i])) && fields[i] !in At(l, fields[..i]).value.kids
    ensures var l' := Put(l, fields[..i], fields[i], LMap(next, map[]));
            && l'.LMap? && l'.node == l.node
            && At(l', fields[..i + 1]) == Some(LMap(next, map[]))
            && Set(TreeOf(l'.kids), fields, value) == Set(TreeOf(l.kids), fields, value)
  {
    var path, f, more := fields[..i], fields[i], fields[i + 1..];
    assert path + [f] + [] == fields[..i + 1] && path + [f] + more == fields;
    PutBelow(l, path, f, LMap(next, map[]), []);
    PutErase(l, path, f, LMap(next, map[]));
    GetErase(l, path);
    LevelCreated(TreeOf(l.kids), path, f, more, value);
  }

  /** An error on the way or at the end is an error of the whole. */
  lemma FieldIsRefused(l: Located, fields: seq<string>, i: nat, value: string)
    requires i < |fields| && IsMap(At(l, fields[..i])) && fields[i] in At(l, fields[..i]).value.kids
    requires var x := At(l, fields[..i]).value.kids[fields[i]];
             if i + 1 == |fields| then !x.LText? else !x.LMap?
    ensures Set(TreeOf(l.kids), fields, value) == None
  {
    var path, f, more := fields[..i], fields[i], fields[i + 1..];
    assert path + [f] + more == fields;
    GetErase(l, path);
    FieldRefused(TreeOf(l.kids), path, f, more, value);
  }

  lemma LastPut(l: Located, fields: seq<string>, i: nat, value: string)
    requires i + 1 == |fields| && IsMap(At(l, fields[..i]))
    requires var kids := At(l, fields[..i]).value.kids; fields[i] in kids ==> kids[fields[i]].LText?
    ensures var l' := Put(l, fields[..i], fields[i], LText(value));
            && l'.LMap? && l'.node == l.node
            && Set(TreeOf(l.kids), fields, value) == Some(TreeOf(l'.kids))
  {
    var path, f := fields[..i], fields[i];
    assert path + [f] == fields;
    PutErase(l, path, f, LText(value));
    GetErase(l, path);
    LastField(TreeOf(l.kids), path, f, value);
  }

  /* ---------- set ---------- */

  /** params[field] = value */
  method Write(params: Node, field: string, value: Value, ghost l: Located, ghost nodes: set<Node>,
               ghost path: seq<string>, ghost leaf: Located, ghost nodes': set<Node>)
    requires Holds(l, nodes) && IsMap(At(l, path)) && At(l, path).value.node == params && params in nodes
    requires var kids := At(l, path).value.kids; field in kids ==> !kids[field].LMap?
    requires Top(leaf) == value
    requires leaf.LMap? ==> leaf.kids == map[] && leaf.node.fields == map[] && leaf.node !in nodes
    requires nodes' == if leaf.LMap? then nodes + {leaf.node} else nodes
    modifies params
    ensures Holds(Put(l, path, field, leaf), nodes')
    ensures params.fields == old(params.fields)[field := value]
  {
    ghost var before := Contents(nodes);
    params.fields := params.fields[field := value];
    WritePlaced(l, before, path, field, leaf, Contents(nodes'));
  }

  /** A missing level is created and the walk moves into it. */
  method CreateLevel(params: Node, fields: seq<string>, i: nat, ghost value: string, ghost l: Located,
                     ghost nodes: set<Node>)
    returns (next: Node, ghost l': Located, ghost nodes': set<Node>)
    requires Holds(l, nodes) && params in nodes && i + 1 < |fields|
    requires IsMap(At(l, fields[..i])) && At(l, fields[..i]).value.node == params && fields[i] !in params.fields
    modifies params
    ensures Holds(l', nodes') && nodes' == nodes + {next} && fresh(next)
    ensures l'.node == l.node && At(l', fields[..i + 1]) == Some(LMap(next, map[]))
    ensures Set(TreeOf(l'.kids), fields, value) == Set(TreeOf(l.kids), fields, value)
  {
    next := new Node();
    ghost var leaf := LMap(next, map[]);
    nodes' := nodes + {next};
    assert params.fields == Shallow(At(l, fields[..i]).value.kids);
    LevelPut(l, fields, i, next, value);
    Write(params, fields[i], Map(next), l, nodes, fields[..i], leaf, nodes');
    l' := Put(l, fields[..i], fields[i], leaf);
  }

  /** The value is written at the last field. */
  method WriteLast(params: Node, fields: seq<string>, i: nat, value: string, ghost l: Located, ghost nodes: set<Node>)
    returns (ghost l': Located)
    requires Holds(l, nodes) && params in nodes && i + 1 == |fields|
    requires IsMap(At(l, fields[..i])) && At(l, fields[..i]).value.node == params
    requires var kids := At(l, fields[..i]).value.kids; fields[i] in kids ==> kids[fields[i]].LText?
    modifies params
    ensures Holds(l', nodes) && l'.node == l.node
    ensures Set(TreeOf(l.kids), fields, value) == Some(TreeOf(l'.kids))
  {
    LastPut(l, fields, i, value);
    Write(params, fields[i], Text(value), l, nodes, fields[..i], LText(value), nodes);
    l' := Put(l, fields[..i], fields[i], LText(value));
  }

  /** On an error nothing has changed, even though levels are created on the way. */
  method SetInPlace(params: Node?, dotpath: string, value: string, ghost l: Located, ghost nodes: set<Node>)
    returns (ok: bool, ghost l': Located, ghost nodes': set<Node>)
    requires params != null ==> Holds(l, nodes) && l.node == params
    modifies nodes
    ensures params == null ==> !ok
    ensures params != null ==>
              && Holds(l', nodes') && l'.node == params && nodes <= nodes' && fresh(nodes' - nodes)
              && (ok <==> Set(TreeOf(l.kids), Split(dotpath), value).Some?)
              && (ok ==> Set(TreeOf(l.kids), Split(dotpath), value) == Some(TreeOf(l'.kids)))
    ensures !ok ==> l' == l && nodes' == nodes && forall n | n in nodes :: n.fields == old(n.fields)
  {
    l', nodes' := l, nodes;
    if params == null {
      return false, l, nodes;
    }
    var fields := Split(dotpath);
    var cur: Node, i := params, 0;
    ghost var kids, created := l.kids, false;
    assert fields[..0] == [];
    while i < |fields| - 1
      invariant 0 <= i <= |fields| - 1
      invariant Holds(l', nodes') && l'.node == params && nodes <= nodes' && fresh(nodes' - nodes)
      invariant At(l', fields[..i]) == Some(LMap(cur, kids))
      invariant Set(TreeOf(l'.kids), fields, value) == Set(TreeOf(l.kids), fields, value)
      invariant created ==> kids == map[]
      invariant !created ==> l' == l && nodes' == nodes && forall n | n in nodes :: n.fields == old(n.fields)
    {
      var field := fields[i];
      Here(l', nodes', fields[..i]);
      if field !in cur.fields {
        cur, l', nodes' := CreateLevel(cur, fields, i, value, l', nodes');
        kids, created := map[], true;
      } else {
        if !cur.fields[field].Map? {
          FieldIsRefused(l', fields, i, value);
          return false, l', nodes';
        }
        AtNext(l', fields, i);
        cur, kids := cur.fields[field].node, kids[field].kids;
      }
      i := i + 1;
    }
    var lastField := fields[|fields| - 1];
    Here(l', nodes', fields[..i]);
    if lastField in cur.fields {
      if !cur.fields[lastField].Text? {
        FieldIsRefused(l', fields, i, value);
        return false, l', nodes';
      }
    }
    l' := WriteLast(cur, fields, i, value, l', nodes');
    ok := true;
  }

  /* ---------- ApplyParameterOverrides ---------- */

  /** One more override. */
  lemma {:induction false} ApplyOneMore(t: Tree, order: seq<Override>, o: Override)
    requires Proper(order + [o]) && Proper(order)
    ensures ApplyAll(t, order + [o]) ==
              match ApplyAll(t, order)
              case None => None
              case Some(u) => Set(u, o.path, o.value)
    decreases |order|
  {
    if order == [] {
      assert (order + [o])[1..] == [];
    } else {
      assert (order + [o])[1..] == order[1..] + [o];
      if Set(t, order[0].path, order[0].value).Some? {
        ApplyOneMore(Set(t, order[0].path, order[0].value).value, order[1..], o);
      }
    }
  }

  lemma OneMoreKey(t: Tree, overrides: map<string, string>, keys: seq<string>, dotpath: string)
    requires dotpath in overrides && forall x | x in keys :: x in overrides
    ensures ApplyAll(t, Overrides(keys + [dotpath], overrides)) ==
              match ApplyAll(t, Overrides(keys, overrides))
              case None => None
              case Some(u) => Set(u, Split(dotpath), overrides[dotpath])
  {
    var o := Override(Split(dotpath), overrides[dotpath]);
    assert Overrides(keys + [dotpath], overrides) == Overrides(keys, overrides) + [o];
    ApplyOneMore(t, Overrides(keys, overrides), o);
  }

  lemma {:induction false} Enumerate(s: set<string>) returns (r: seq<string>)
    ensures forall i, j | 0 <= i < j < |r| :: r[i] != r[j]
    ensures forall x :: x in r <==> x in s
    decreases |s|
  {
    if s == {} {
      r := [];
    } else {
      var x :| x in s;
      var front := Enumerate(s - {x});
      assert forall i | 0 <= i < |front| :: front[i] in s - {x};
      r := front + [x];
    }
  }

  /** The keys are split into those done, each once, and those left. */
  ghost predicate Parted(done: seq<string>, left: set<string>, overrides: map<string, string>) {
    && (forall i, j | 0 <= i < j < |done| :: done[i] != done[j])
    && (forall x :: x in overrides <==> x in done || x in left)
    && (forall x | x in done :: x !in left)
  }

  lemma PartedMore(done: seq<string>, left: set<string>, overrides: map<string, string>, dotpath: string)
    requires Parted(done, left, overrides) && dotpath in left
    ensures Parted(done + [dotpath], left - {dotpath}, overrides)
  {
  }

  /** What is done so far and what is left, in some order. */
  lemma CompleteOrder(done: seq<string>, left: set<string>, overrides: map<string, string>) returns (order: seq<string>)
    requires Parted(done, left, overrides)
    ensures Iterates(order, overrides) && done <= order
  {
    var rest := Enumerate(left);
    order := done + rest;
    forall i, j | 0 <= i < j < |order| ensures order[i] != order[j] {
      if i < |done| {
        assert done[i] in done;
        assert |done| <= j ==> order[j] == rest[j - |done|] && order[j] in rest;
      }
    }
  }

  /** After all overrides each is in place, and what none of them touches is where it was. */
  lemma AllInPlace(t: Tree, overrides: map<string, string>, keys: seq<string>, u: Tree)
    requires Iterates(keys, overrides) && ApplyAll(t, Overrides(keys, overrides)) == Some(u)
    ensures forall d | d in overrides :: Get(u, Split(d)) == Some(Str(overrides[d]))
    ensures forall q | (forall d | d in overrides :: !(Split(d) <= q) && !(q <= Split(d))) :: Get(u, q) == Get(t, q)
  {
    var all := Overrides(keys, overrides);
    KeysDistinct(keys, overrides);
    forall d | d in overrides ensures Get(u, Split(d)) == Some(Str(overrides[d])) {
      OverrideOf(overrides, keys, d);
      AppliedGet(t, all, []);
    }
    forall q | (forall d | d in overrides :: !(Split(d) <= q) && !(q <= Split(d))) ensures Get(u, q) == Get(t, q) {
      forall o | o in all ensures !(o.path <= q) && !(q <= o.path) {
        var i :| 0 <= i < |all| && all[i] == o;
        assert keys[i] in keys && o.path == Split(keys[i]);
      }
      AppliedGet(t, all, q);
    }
  }

  /** On success the tree is what any order makes of it, with every override in place. */
  lemma Success(t: Tree, overrides: map<string, string>, keys: seq<string>, u: Tree)
    requires Iterates(keys, overrides) && ApplyAll(t, Overrides(keys, overrides)) == Some(u)
    ensures Left(t, Overrides(keys, overrides)) == u && Agreeable(t, overrides)
    ensures forall k | Iterates(k, overrides) :: ApplyAll(t, Overrides(k, overrides)) == Some(u)
    ensures forall d | d in overrides :: Get(u, Split(d)) == Some(Str(overrides[d]))
  {
    forall k | Iterates(k, overrides) ensures ApplyAll(t, Overrides(k, overrides)) == Some(u) {
      IterationIrrelevant(t, overrides, keys, k);
    }
    AllInPlace(t, overrides, keys, u);
    Outcome(t, overrides, keys, keys, u, true);
  }

  /** The outcome for a whole order, from the overrides applied. */
  lemma Outcome(t: Tree, overrides: map<string, string>, order: seq<string>, done: seq<string>, u: Tree, ok: bool)
    requires Iterates(order, overrides) && done <= order && forall x | x in done :: x in overrides
    requires ApplyAll(t, Overrides(done, overrides)) == Some(u)
    requires if ok then done == order
             else |done| < |order| && Set(u, Split(order[|done|]), overrides[order[|done|]]).None?
    ensures Left(t, Overrides(order, overrides)) == u
    ensures ok <==> Agreeable(t, overrides)
  {
    var all, n := Overrides(order, overrides), |done|;
    assert all[..n] == Overrides(done, overrides);
    LeftIs(t, all, n);
    AgreeableIs(t, overrides, order);
    if !ok {
      assert all[n] == Override(Split(order[n]), overrides[order[n]]);
      assert all[..n] + [all[n]] + all[n + 1..] == all;
      ApplyOneMore(t, all[..n], all[n]);
      ApplyAllFront(t, all[..n] + [all[n]], all[n + 1..]);
    }
  }

  /** What fails fails with anything behind it. */
  lemma {:induction false} ApplyAllFront(t: Tree, a: seq<Override>, b: seq<Override>)
    requires Proper(a + b) && Proper(a) && ApplyAll(t, a).None?
    ensures ApplyAll(t, a + b).None?
    decreases |a|
  {
    assert a != [] ==> (a + b)[1..] == a[1..] + b;
    if a != [] && Set(t, a[0].path, a[0].value).Some? {
      ApplyAllFront(Set(t, a[0].path, a[0].value).value, a[1..], b);
    }
  }

  /** The overrides done so far, and the tree they made. */
  ghost predicate SoFar(t: Tree, overrides: map<string, string>, done: seq<string>, left: set<string>, u: Tree) {
    Parted(done, left, overrides) && ApplyAll(t, Overrides(done, overrides)) == Some(u)
  }

  lemma SoFarMore(t: Tree, overrides: map<string, string>, done: seq<string>, left: set<string>, u: Tree, v: Tree,
                  dotpath: string)
    requires SoFar(t, overrides, done, left, u) && dotpath in left
    requires Set(u, Split(dotpath), overrides[dotpath]) == Some(v)
    ensures SoFar(t, overrides, done + [dotpath], left - {dotpath}, v)
  {
    PartedMore(done, left, overrides, dotpath);
    OneMoreKey(t, overrides, done, dotpath);
  }

  lemma Refused(t: Tree, overrides: map<string, string>, done: seq<string>, left: set<string>, u: Tree, dotpath: string)
    returns (order: seq<string>)
    requires SoFar(t, overrides, done, left, u) && dotpath in left
    requires Set(u, Split(dotpath), overrides[dotpath]) == None
    ensures Iterates(order, overrides) && done <= order && |done| < |order| && order[|done|] == dotpath
    ensures Left(t, Overrides(order, overrides)) == u && !Agreeable(t, overrides)
  {
    PartedMore(done, left, overrides, dotpath);
    order := CompleteOrder(done + [dotpath], left - {dotpath}, overrides);
    Outcome(t, overrides, order, done, u, false);
  }

  /** The overrides are applied in whatever order the map yields them, up to the first error.
      The order shows neither in the success nor, on success, in the tree; after an error the
      tree is what the order before the refused override made of it. */
  method ApplyParameterOverrides(params: Node?, overrides: map<string, string>, ghost l: Located,
                                 ghost nodes: set<Node>)
    returns (ok: bool, ghost l': Located, ghost nodes': set<Node>, ghost order: seq<string>, ghost done: seq<string>)
    requires params != null ==> Holds(l, nodes) && l.node == params
    modifies nodes
    ensures params == null ==> (ok <==> overrides == map[])
    ensures nodes <= nodes' && fresh(nodes' - nodes)
    ensures params != null ==>
              && Holds(l', nodes') && l'.node == params
              && (ok <==> && (forall d | d in overrides :: Settable(TreeOf(l.kids), Split(d)))
                          && forall a, b | a in overrides && b in overrides :: !(Split(a) < Split(b)))
              && Iterates(order, overrides) && done <= order
              && TreeOf(l'.kids) == Left(TreeOf(l.kids), Overrides(order, overrides))
              && ApplyAll(TreeOf(l.kids), Overrides(done, overrides)) == Some(TreeOf(l'.kids))
              && (ok ==> done == order)
              && (!ok ==> |done| < |order|
                          && Set(TreeOf(l'.kids), Split(order[|done|]), overrides[order[|done|]]) == None)
    ensures params != null && ok ==> forall d | d in overrides ::
              Get(TreeOf(l'.kids), Split(d)) == Some(Str(overrides[d]))
    ensures params != null && ok ==> forall k | Iterates(k, overrides) ::
              ApplyAll(TreeOf(l.kids), Overrides(k, overrides)) == Some(TreeOf(l'.kids))
  {
    l', nodes', order, done := l, nodes, [], [];
    ghost var t := if params != null then TreeOf(l.kids) else map[];
    var left := overrides.Keys;
    while left != {}
      invariant params == null ==> left == overrides.Keys
      invariant nodes <= nodes' && fresh(nodes' - nodes)
      invariant params != null ==> Holds(l', nodes') && l'.node == params
      invariant params != null ==> SoFar(t, overrides, done, left, TreeOf(l'.kids))
      decreases |left|
    {
      var dotpath :| dotpath in left;
      ghost var u := if params != null then TreeOf(l'.kids) else map[];
      ok, l', nodes' := SetInPlace(params, dotpath, overrides[dotpath], l', nodes');
      if !ok {
        if params != null {
          order := Refused(t, overrides, done, left, u, dotpath);
        }
        return;
      }
      assert params != null;
      SoFarMore(t, overrides, done, left, u, TreeOf(l'.kids), dotpath);
      done := done + [dotpath];
      left := left - {dotpath};
    }
    ok, order := true, done;
    if params != null {
      Success(t, overrides, done, TreeOf(l'.kids));
    }
  }
}
