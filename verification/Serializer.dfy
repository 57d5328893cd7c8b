/**
 The typed serializer pair of the JSON library: `OutSerializer` appends values to a tree of
 mutable arrays through a moving cursor, `InSerializer` replays such a tree at given types.

 C++ overload resolution is replaced by an explicit match on the value (writer) or on the
 static type (reader).
 */
module Serializer {
  import opened Wrappers

  /** A C++ `long`: what a JSON integer node stores. */
  type long = n: int | -0x8000_0000_0000_0000 <= n < 0x8000_0000_0000_0000

  /** Static types. A user class is a name whose field types a `Schema` lists, so classes may be recursive. */
  datatype Type =
    | TInt
    | TLong
    | TBool
    | TString
    | TDouble
    | TList(elem: Type)
    | TPair(fst: Type, snd: Type)
    | TMap(key: Type, val: Type)
    | TClass(name: string)

  /** Values. The entries of a `std::map` are the `VPair`s an iteration meets, in iteration order. */
  datatype Value =
    | VInt(n: long)
    | VBool(b: bool)
    | VString(s: string)
    | VDouble(r: real)
    | VList(elems: seq<Value>)
    | VPair(fst: Value, snd: Value)
    | VMap(entries: seq<Value>)
    | VObject(fields: seq<Value>)

  /** The user's program: the members each class serializes, in order, and the key order of its maps. */
  datatype Schema = Schema(classes: map<string, seq<Type>>, less: (Value, Value) -> bool)

  function FieldTypes(sc: Schema, name: string): seq<Type> {
    if name in sc.classes then sc.classes[name] else []
  }

  predicate IsInt(n: int) {
    -0x8000_0000 <= n < 0x8000_0000
  }

  /** Conversion of a `long` to an `int`. */
  function WrapInt(n: long): (r: long)
    ensures IsInt(r) && (n - r) % 0x1_0000_0000 == 0
    ensures IsInt(n) ==> r == n
  {
    (n + 0x8000_0000) % 0x1_0000_0000 - 0x8000_0000
  }

  ghost predicate Transitive(less: (Value, Value) -> bool) {
    forall a, b, c :: less(a, b) && less(b, c) ==> less(a, c)
  }

  predicate KeysIncrease(less: (Value, Value) -> bool, entries: seq<Value>) {
    && (forall e <- entries :: e.VPair?)
    && (forall i, j :: 0 <= i < j < |entries| ==> less(entries[i].fst, entries[j].fst))
  }

  predicate HasType(sc: Schema, v: Value, ty: Type)
    decreases v
  {
    match ty
    case TInt => v.VInt? && IsInt(v.n)
    case TLong => v.VInt?
    case TBool => v.VBool?
    case TString => v.VString?
    case TDouble => v.VDouble?
    case TList(elem) => v.VList? && forall x <- v.elems :: HasType(sc, x, elem)
    case TPair(fst, snd) => v.VPair? && HasType(sc, v.fst, fst) && HasType(sc, v.snd, snd)
    case TMap(key, val) =>
      v.VMap? && KeysIncrease(sc.less, v.entries) && forall e <- v.entries :: HasType(sc, e, TPair(key, val))
    case TClass(name) =>
      && v.VObject?
      && |v.fields| == |FieldTypes(sc, name)|
      && forall i :: 0 <= i < |v.fields| ==> HasType(sc, v.fields[i], FieldTypes(sc, name)[i])
  }

  ghost predicate HasTypes(sc: Schema, vs: seq<Value>, tys: seq<Type>) {
    |vs| == |tys| && forall i :: 0 <= i < |vs| ==> HasType(sc, vs[i], tys[i])
  }

  // ---------------------------------------------------------------------------------------------
  // What the tree means
  // ---------------------------------------------------------------------------------------------

  /** A JSON tree as a value. */
  datatype Tree =
    | Int(n: long)
    | True
    | False
    | String(s: string)
    | Real(r: real)
    | Array(kids: seq<Tree>)

  /** The tree a value is written as: one node per value, scalars as leaves. */
  function Encode(v: Value): Tree {
    match v
    case VInt(n) => Int(n)
    case VBool(b) => if b then True else False
    case VString(s) => String(s)
    case VDouble(r) => Real(r)
    case VList(elems) => Array(seq(|elems|, i requires 0 <= i < |elems| => Encode(elems[i])))
    case VPair(fst, snd) => Array([Encode(fst), Encode(snd)])
    case VMap(entries) => Array(seq(|entries|, i requires 0 <= i < |entries| => Encode(entries[i])))
    case VObject(fields) => Array(seq(|fields|, i requires 0 <= i < |fields| => Encode(fields[i])))
  }

  function EncodeEach(vs: seq<Value>): (ts: seq<Tree>)
    ensures |ts| == |vs|
  {
    seq(|vs|, i requires 0 <= i < |vs| => Encode(vs[i]))
  }

  /**
   `Exhausted` is SerializeFailException, thrown by `_check`. `WrongNode` stands for the undefined
   behaviour of using a node as a kind it is not.
   */
  datatype Error = Exhausted | WrongNode

  /** The types read, in order, from an array node of `size` children to rebuild a value of type ty. */
  function Layout(sc: Schema, ty: Type, size: nat): seq<Type> {
    match ty
    case TList(elem) => seq(size, _ => elem)
    case TPair(fst, snd) => [fst, snd]
    case TMap(key, val) => seq(size, _ => TPair(key, val))
    case TClass(name) => FieldTypes(sc, name)
    case _ => []
  }

  /** `std::map::insert`: an entry whose key is already present is dropped. */
  function MapInsert(less: (Value, Value) -> bool, m: seq<Value>, e: Value): seq<Value> {
    if m == [] then [e]
    else if m[0].VPair? && e.VPair? && less(m[0].fst, e.fst) then [m[0]] + MapInsert(less, m[1..], e)
    else if m[0].VPair? && e.VPair? && !less(e.fst, m[0].fst) then m
    else [e] + m
  }

  function InsertAll(less: (Value, Value) -> bool, es: seq<Value>): seq<Value> {
    if es == [] then [] else MapInsert(less, InsertAll(less, es[..|es| - 1]), es[|es| - 1])
  }

  /** The value of type ty assembled from the parts its `Layout` reads. */
  function Assemble(sc: Schema, ty: Type, parts: seq<Value>): Result<Value, Error> {
    match ty
    case TList(_) => Success(VList(parts))
    case TPair(_, _) => if |parts| == 2 then Success(VPair(parts[0], parts[1])) else Failure(WrongNode)
    case TMap(_, _) => Success(VMap(InsertAll(sc.less, parts)))
    case TClass(_) => Success(VObject(parts))
    case _ => Failure(WrongNode)
  }

  /** What reading one node at type ty gives. A bool is true exactly on a `True` node, whatever else it finds. */
  function Decode(sc: Schema, ty: Type, t: Tree): Result<Value, Error>
    decreases t, 1
  {
    match ty
    case TInt => if t.Int? then Success(VInt(WrapInt(t.n))) else Failure(WrongNode)
    case TLong => if t.Int? then Success(VInt(t.n)) else Failure(WrongNode)
    case TBool => Success(VBool(t.True?))
    case TString => if t.String? then Success(VString(t.s)) else Failure(WrongNode)
    case TDouble => if t.Real? then Success(VDouble(t.r)) else Failure(WrongNode)
    case _ =>
      if !t.Array? then Failure(WrongNode)
      else
        var parts :- DecodeEach(sc, Layout(sc, ty, |t.kids|), t.kids);
        Assemble(sc, ty, parts)
  }

  /** What reading consecutive nodes at consecutive types gives; nodes beyond the types are not looked at. */
  function DecodeEach(sc: Schema, tys: seq<Type>, kids: seq<Tree>): (r: Result<seq<Value>, Error>)
    ensures r.Success? ==> |r.value| == |tys|
    decreases kids, 0
  {
    if tys == [] then Success([])
    else if kids == [] then Failure(Exhausted)
    else
      var v :- Decode(sc, tys[0], kids[0]);
      var vs :- DecodeEach(sc, tys[1..], kids[1..]);
      Success([v] + vs)
  }

  // ---------------------------------------------------------------------------------------------
  // The shape of the tree
  // ---------------------------------------------------------------------------------------------

  /** The scalars of a tree from left to right. */
  function Leaves(t: Tree): seq<Tree>
    decreases t, 0
  {
    if t.Array? then LeavesOfEach(t.kids) else [t]
  }

  function LeavesOfEach(ts: seq<Tree>): seq<Tree>
    decreases ts, 1
  {
    if ts == [] then [] else Leaves(ts[0]) + LeavesOfEach(ts[1..])
  }

  function ScalarsOf(v: Value): seq<Tree>
    decreases v, 0
  {
    match v
    case VInt(n) => [Int(n)]
    case VBool(b) => [if b then True else False]
    case VString(s) => [String(s)]
    case VDouble(r) => [Real(r)]
    case VList(elems) => ScalarsOfEach(elems)
    case VPair(fst, snd) => ScalarsOf(fst) + ScalarsOf(snd)
    case VMap(entries) => ScalarsOfEach(entries)
    case VObject(fields) => ScalarsOfEach(fields)
  }

  function ScalarsOfEach(vs: seq<Value>): seq<Tree>
    decreases vs, 1
  {
    if vs == [] then [] else ScalarsOf(vs[0]) + ScalarsOfEach(vs[1..])
  }

  /** Writing keeps the order: the scalars of the tree, left to right, are those of the value, first to last. */
  lemma {:induction false} WritingKeepsOrder(v: Value)
    ensures Leaves(Encode(v)) == ScalarsOf(v)
    decreases v, 0
  {
    match v
    case VInt(_) =>
    case VBool(_) =>
    case VString(_) =>
    case VDouble(_) =>
    case VList(elems) =>
      WritingEachKeepsOrder(elems);
      assert Encode(v).kids == EncodeEach(elems);
    case VPair(fst, snd) =>
      WritingKeepsOrder(fst);
      WritingKeepsOrder(snd);
      TwoKids(Encode(fst), Encode(snd));
    case VMap(entries) =>
      WritingEachKeepsOrder(entries);
      assert Encode(v).kids == EncodeEach(entries);
    case VObject(fields) =>
      WritingEachKeepsOrder(fields);
      assert Encode(v).kids == EncodeEach(fields);
  }

  lemma TwoKids(a: Tree, b: Tree)
    ensures Leaves(Array([a, b])) == Leaves(a) + Leaves(b)
  {
    assert [a, b][1..] == [b] && [b][1..] == [];
    assert LeavesOfEach([b]) == Leaves(b);
  }

  lemma {:induction false} WritingEachKeepsOrder(vs: seq<Value>)
    ensures LeavesOfEach(EncodeEach(vs)) == ScalarsOfEach(vs)
    decreases vs, 1
  {
    if vs != [] {
      WritingKeepsOrder(vs[0]);
      WritingEachKeepsOrder(vs[1..]);
      assert EncodeEach(vs)[1..] == EncodeEach(vs[1..]);
    }
  }

  // ---------------------------------------------------------------------------------------------
  // Round trips on trees
  // ---------------------------------------------------------------------------------------------

  lemma {:induction false} InsertAtEnd(less: (Value, Value) -> bool, m: seq<Value>, e: Value)
    requires KeysIncrease(less, m + [e])
    ensures MapInsert(less, m, e) == m + [e]
  {
    if m != [] {
      assert (m + [e])[0] == m[0] && (m + [e])[|m|] == e;
      assert m[1..] + [e] == (m + [e])[1..];
      InsertAtEnd(less, m[1..], e);
      assert [m[0]] + (m[1..] + [e]) == m + [e];
    } else {
      assert m + [e] == [e];
    }
  }

  /** Rebuilding a map from its own entries changes nothing. */
  lemma {:induction false} InsertAllIncreasing(less: (Value, Value) -> bool, es: seq<Value>)
    requires KeysIncrease(less, es)
    ensures InsertAll(less, es) == es
  {
    if es != [] {
      var init := es[..|es| - 1];
      assert init + [es[|es| - 1]] == es;
      InsertAllIncreasing(less, init);
      InsertAtEnd(less, init, es[|es| - 1]);
    }
  }

  /** A value of type ty reads back from its own encoding. */
  lemma {:induction false} DecodeEncode(sc: Schema, v: Value, ty: Type)
    requires HasType(sc, v, ty)
    ensures Decode(sc, ty, Encode(v)) == Success(v)
    decreases v, 1
  {
    match ty
    case TInt =>
    case TLong =>
    case TBool =>
    case TString =>
    case TDouble =>
    case TList(elem) =>
      DecodeEncodeEach(sc, v.elems, Layout(sc, ty, |v.elems|), []);
      assert Encode(v).kids == EncodeEach(v.elems) + [];
    case TPair(fst, snd) =>
      DecodeEncode(sc, v.fst, fst);
      DecodeEncode(sc, v.snd, snd);
      var kids := Encode(v).kids;
      assert kids[0] == Encode(v.fst) && kids[1..] == [Encode(v.snd)] && [fst, snd][1..] == [snd];
      assert [snd][1..] == [] && [v.snd] + [] == [v.snd];
      assert DecodeEach(sc, [snd], [Encode(v.snd)]) == Success([v.snd]);
      assert [v.fst] + [v.snd] == [v.fst, v.snd];
    case TMap(key, val) =>
      DecodeEncodeEach(sc, v.entries, Layout(sc, ty, |v.entries|), []);
      assert Encode(v).kids == EncodeEach(v.entries) + [];
      InsertAllIncreasing(sc.less, v.entries);
    case TClass(name) =>
      DecodeEncodeEach(sc, v.fields, FieldTypes(sc, name), []);
      assert Encode(v).kids == EncodeEach(v.fields) + [];
  }

  /** Values written one after another read back in order, whatever follows them. */
  lemma {:induction false} DecodeEncodeEach(sc: Schema, vs: seq<Value>, tys: seq<Type>, rest: seq<Tree>)
    requires HasTypes(sc, vs, tys)
    ensures DecodeEach(sc, tys, EncodeEach(vs) + rest) == Success(vs)
    decreases vs, 0
  {
    if vs != [] {
      DecodeEncode(sc, vs[0], tys[0]);
      var ts := EncodeEach(vs) + rest;
      assert ts[0] == Encode(vs[0]) && ts[1..] == EncodeEach(vs[1..]) + rest;
      DecodeEncodeEach(sc, vs[1..], tys[1..], rest);
      assert [vs[0]] + vs[1..] == vs;
    }
  }

  /** Asking for one value more than was written throws, whatever its type. */
  lemma {:induction false} ReadingPastTheEndThrows(sc: Schema, vs: seq<Value>, tys: seq<Type>, extra: Type)
    requires HasTypes(sc, vs, tys)
    ensures DecodeEach(sc, tys + [extra], EncodeEach(vs)) == Failure(Exhausted)
  {
    if vs != [] {
      DecodeEncode(sc, vs[0], tys[0]);
      assert EncodeEach(vs)[1..] == EncodeEach(vs[1..]);
      assert (tys + [extra])[1..] == tys[1..] + [extra];
      ReadingPastTheEndThrows(sc, vs[1..], tys[1..], extra);
    }
  }

  lemma {:induction false} InsertKeepsKeysIncreasing(less: (Value, Value) -> bool, m: seq<Value>, e: Value)
    requires Transitive(less)
    requires KeysIncrease(less, m) && e.VPair?
    ensures KeysIncrease(less, MapInsert(less, m, e))
    ensures forall x <- MapInsert(less, m, e) :: x == e || x in m
  {
    if m != [] && less(m[0].fst, e.fst) {
      InsertKeepsKeysIncreasing(less, m[1..], e);
      assert forall x <- m[1..] :: less(m[0].fst, x.fst);
    } else if m != [] && less(e.fst, m[0].fst) {
      assert forall x <- m :: x == m[0] || less(m[0].fst, x.fst);
    }
  }

  lemma {:induction false} InsertAllIsSorted(less: (Value, Value) -> bool, es: seq<Value>)
    requires Transitive(less)
    requires forall e <- es :: e.VPair?
    ensures KeysIncrease(less, InsertAll(less, es))
    ensures forall x <- InsertAll(less, es) :: x in es
  {
    if es != [] {
      InsertAllIsSorted(less, es[..|es| - 1]);
      InsertKeepsKeysIncreasing(less, InsertAll(less, es[..|es| - 1]), es[|es| - 1]);
    }
  }

  /** Neither key comes before the other. */
  predicate Alike(less: (Value, Value) -> bool, a: Value, b: Value) {
    !less(a, b) && !less(b, a)
  }

  predicate SameKey(less: (Value, Value) -> bool, a: Value, b: Value) {
    a.VPair? && b.VPair? && Alike(less, a.fst, b.fst)
  }

  /** What `std::map` demands of the order of its keys. */
  ghost predicate IsOrder(less: (Value, Value) -> bool) {
    && Transitive(less)
    && (forall a :: !less(a, a))
    && (forall a, b, c :: Alike(less, a, b) && Alike(less, b, c) ==> Alike(less, a, c))
  }

  lemma {:induction false} InsertKeepsAll(less: (Value, Value) -> bool, m: seq<Value>, e: Value)
    requires e.VPair? && forall x <- m :: x.VPair?
    ensures forall x <- m :: x in MapInsert(less, m, e)
    ensures (forall x <- m :: !SameKey(less, x, e)) ==> e in MapInsert(less, m, e)
  {
    if m != [] && less(m[0].fst, e.fst) {
      assert forall x <- m[1..] :: x in m;
      InsertKeepsAll(less, m[1..], e);
    } else if m != [] {
      assert m[0] in m;
    }
  }

  /** Entry i is the first of its key. */
  predicate FirstOfKey(less: (Value, Value) -> bool, es: seq<Value>, i: nat) {
    i < |es| && forall j :: 0 <= j < i ==> !SameKey(less, es[j], es[i])
  }

  lemma {:induction false} FirstIsInserted(less: (Value, Value) -> bool, es: seq<Value>, i: nat)
    requires Transitive(less) && forall e <- es :: e.VPair?
    requires FirstOfKey(less, es, i)
    ensures es[i] in InsertAll(less, es)
  {
    var init, last := es[..|es| - 1], es[|es| - 1];
    InsertAllIsSorted(less, init);
    InsertKeepsAll(less, InsertAll(less, init), last);
    if i < |init| {
      FirstIsInserted(less, init, i);
    } else {
      forall x | x in InsertAll(less, init)
        ensures !SameKey(less, x, last)
      {
        var j :| 0 <= j < |init| && init[j] == x;
      }
    }
  }

  /** The first entry with the key of a given one. */
  lemma {:induction false} FirstWithKey(less: (Value, Value) -> bool, es: seq<Value>, i: nat) returns (k: nat)
    requires IsOrder(less) && i < |es| && forall e <- es :: e.VPair?
    ensures k <= i && FirstOfKey(less, es, k) && SameKey(less, es[k], es[i])
    decreases i
  {
    k := i;
    assert es[i] in es;
    if j: nat :| j < i && SameKey(less, es[j], es[i]) {
      k := FirstWithKey(less, es, j);
      assert Alike(less, es[k].fst, es[j].fst) && Alike(less, es[j].fst, es[i].fst);
    }
  }

  /** Reading pairs into a map keeps exactly the first entry of every key, whatever order the pairs come in. */
  lemma InsertAllKeepsFirst(less: (Value, Value) -> bool, es: seq<Value>, x: Value)
    requires IsOrder(less) && forall e <- es :: e.VPair?
    ensures x in InsertAll(less, es) <==> exists i: nat :: FirstOfKey(less, es, i) && es[i] == x
  {
    InsertAllIsSorted(less, es);
    if x in InsertAll(less, es) {
      var i: nat :| i < |es| && es[i] == x;
      var k := FirstWithKey(less, es, i);
      FirstIsInserted(less, es, k);
      var m := InsertAll(less, es);
      var a :| 0 <= a < |m| && m[a] == x;
      var b :| 0 <= b < |m| && m[b] == es[k];
      assert a == b;
    }
    if i: nat :| FirstOfKey(less, es, i) && es[i] == x {
      FirstIsInserted(less, es, i);
    }
  }

  /**
   Whatever tree a read accepts, the value it gives is well typed, so writing that value again and
   reading it back gives it unchanged.
   */
  lemma {:induction false} DecodeIsTyped(sc: Schema, ty: Type, t: Tree)
    requires Transitive(sc.less)
    ensures var r := Decode(sc, ty, t);
            r.Success? ==> HasType(sc, r.value, ty) && Decode(sc, ty, Encode(r.value)) == r
    decreases t, 1
  {
    var r := Decode(sc, ty, t);
    if r.Success? {
      if ty.TList? || ty.TPair? || ty.TMap? || ty.TClass? {
        var tys := Layout(sc, ty, |t.kids|);
        DecodeEachIsTyped(sc, tys, t.kids);
        var parts := DecodeEach(sc, tys, t.kids).value;
        if ty.TMap? {
          assert forall i :: 0 <= i < |parts| ==> HasType(sc, parts[i], tys[i]) && tys[i] == TPair(ty.key, ty.val);
          InsertAllIsSorted(sc.less, parts);
        }
      }
      DecodeEncode(sc, r.value, ty);
    }
  }

  lemma {:induction false} DecodeEachIsTyped(sc: Schema, tys: seq<Type>, kids: seq<Tree>)
    requires Transitive(sc.less)
    ensures var r := DecodeEach(sc, tys, kids); r.Success? ==> HasTypes(sc, r.value, tys)
    decreases kids, 0
  {
    if tys != [] && kids != [] {
      DecodeIsTyped(sc, tys[0], kids[0]);
      DecodeEachIsTyped(sc, tys[1..], kids[1..]);
    }
  }

  // ---------------------------------------------------------------------------------------------
  // The mutable tree and its two cursors
  // ---------------------------------------------------------------------------------------------

  class JArray {
    var items: seq<Item>

    constructor ()
      ensures items == []
    {
      items := [];
    }

    method Append(x: Item)
      modifies this
      ensures items == old(items) + [x]
    {
      items := items + [x];
    }
  }

  datatype Item =
    | JInt(n: long)
    | JTrue
    | JFalse
    | JString(s: string)
    | JReal(r: real)
    | JArr(a: JArray)

  /** Item x is the root of a mutable copy of tree t whose array nodes are all among `nodes`. */
  ghost predicate Holds(x: Item, t: Tree, nodes: set<JArray>)
    reads nodes
    decreases t
  {
    match t
    case Int(n) => x == JInt(n)
    case True => x == JTrue
    case False => x == JFalse
    case String(s) => x == JString(s)
    case Real(r) => x == JReal(r)
    case Array(kids) =>
      && x.JArr?
      && x.a in nodes
      && |x.a.items| == |kids|
      && forall i :: 0 <= i < |kids| ==> Holds(x.a.items[i], kids[i], nodes)
  }

  ghost predicate HoldsEach(xs: seq<Item>, ts: seq<Tree>, nodes: set<JArray>)
    reads nodes
  {
    |xs| == |ts| && forall i :: 0 <= i < |ts| ==> Holds(xs[i], ts[i], nodes)
  }

  lemma {:induction false} HoldsInMore(x: Item, t: Tree, nodes: set<JArray>, more: set<JArray>)
    requires nodes <= more
    requires Holds(x, t, nodes)
    ensures Holds(x, t, more)
    decreases t
  {
    if t.Array? {
      forall i | 0 <= i < |t.kids|
        ensures Holds(x.a.items[i], t.kids[i], more)
      {
        HoldsInMore(x.a.items[i], t.kids[i], nodes, more);
      }
    }
  }

  lemma HoldsEachInMore(xs: seq<Item>, ts: seq<Tree>, nodes: set<JArray>, more: set<JArray>)
    requires nodes <= more
    requires HoldsEach(xs, ts, nodes)
    ensures HoldsEach(xs, ts, more)
  {
    forall i | 0 <= i < |ts|
      ensures Holds(xs[i], ts[i], more)
    {
      HoldsInMore(xs[i], ts[i], nodes, more);
    }
  }

  class OutSerializer {
    var top: JArray
    var curr: JArray

    constructor ()
      ensures fresh(top) && curr == top && top.items == []
    {
      top := new JArray();
      curr := top;
    }

    method GetContent() returns (root: Item)
      ensures root == JArr(top)
    {
      root := JArr(top);
    }

    /**
     `out & v`: exactly one item is appended at the cursor, it is the root of a fresh copy of
     `Encode(v)`, and the cursor comes back to where it was.
     */
    method Put(v: Value) returns (ghost nodes: set<JArray>)
      modifies this`curr, curr
      ensures curr == old(curr)
      ensures fresh(nodes)
      ensures |curr.items| == |old(curr.items)| + 1 && curr.items[..|old(curr.items)|] == old(curr.items)
      ensures Holds(curr.items[|old(curr.items)|], Encode(v), nodes)
      decreases v, 1
    {
      nodes := {};
      if v.VInt? {
        curr.Append(JInt(v.n));
      } else if v.VBool? {
        curr.Append(if v.b then JTrue else JFalse);
      } else if v.VString? {
        curr.Append(JString(v.s));
      } else if v.VDouble? {
        curr.Append(JReal(v.r));
      } else {
        var item := new JArray();
        var oldCurr := curr;
        curr.Append(JArr(item));
        curr := item;
        if v.VPair? {
          nodes := Put(v.fst);
          ghost var first := item.items;
          ghost var more := Put(v.snd);
          assert item.items[0] == first[0];
          HoldsInMore(item.items[0], Encode(v.fst), nodes, nodes + more + {item});
          HoldsInMore(item.items[1], Encode(v.snd), more, nodes + more + {item});
          nodes := nodes + more + {item};
        } else {
          var parts := if v.VList? then v.elems else if v.VMap? then v.entries else v.fields;
          nodes := PutEach(parts);
          assert item.items == item.items[0..];
          HoldsEachInMore(item.items, EncodeEach(parts), nodes, nodes + {item});
          nodes := nodes + {item};
        }
        curr := oldCurr;
      }
    }

    /** The loop `for each x: out & x`. */
    method PutEach(vs: seq<Value>) returns (ghost nodes: set<JArray>)
      modifies this`curr, curr
      ensures curr == old(curr)
      ensures fresh(nodes)
      ensures |curr.items| == |old(curr.items)| + |vs| && curr.items[..|old(curr.items)|] == old(curr.items)
      ensures HoldsEach(curr.items[|old(curr.items)|..], EncodeEach(vs), nodes)
      decreases vs, 0
    {
      nodes := {};
      ghost var before := curr.items;
      for i := 0 to |vs|
        invariant curr == old(curr)
        invariant fresh(nodes)
        invariant |curr.items| == |before| + i && curr.items[..|before|] == before
        invariant HoldsEach(curr.items[|before|..], EncodeEach(vs[..i]), nodes)
      {
        ghost var sofar := curr.items;
        ghost var more := Put(vs[i]);
        HoldsEachInMore(sofar[|before|..], EncodeEach(vs[..i]), nodes, nodes + more);
        HoldsInMore(curr.items[|before| + i], Encode(vs[i]), more, nodes + more);
        assert curr.items[|before|..] == sofar[|before|..] + [curr.items[|before| + i]];
        assert curr.items[..|before|] == sofar[..|before|];
        assert EncodeEach(vs[..i + 1]) == EncodeEach(vs[..i]) + [Encode(vs[i])];
        nodes := nodes + more;
      }
      assert vs[..|vs|] == vs;
    }
  }

  /** A result whose values come after those already read. */
  ghost function After(vs: seq<Value>, r: Result<seq<Value>, Error>): Result<seq<Value>, Error> {
    if r.Failure? then r else Success(vs + r.value)
  }

  lemma NothingBefore(r: Result<seq<Value>, Error>)
    ensures After([], r) == r
  {
    if r.Success? {
      assert [] + r.value == r.value;
    }
  }

  class InSerializer {
    var top: JArray
    var curr: JArray
    var index: nat

    constructor (root: Item)
      requires root.JArr?
      ensures top == curr == root.a && index == 0
    {
      top := root.a;
      curr := root.a;
      index := 0;
    }

    /**
     `in & x` for an x of type ty. A successful read leaves the cursor where it was and advances the
     index by exactly one. When the array is used up it throws and nothing has moved.
     */
    method Get(sc: Schema, ty: Type, ghost kids: seq<Tree>, ghost nodes: set<JArray>)
      returns (r: Result<Value, Error>)
      requires HoldsEach(curr.items, kids, nodes)
      modifies this`curr, this`index
      ensures old(index) >= |kids| ==> r == Failure(Exhausted) && curr == old(curr) && index == old(index)
      ensures old(index) < |kids| ==> r == Decode(sc, ty, kids[old(index)])
      ensures r.Success? ==> curr == old(curr) && index == old(index) + 1
      decreases kids, 0
    {
      if index >= |curr.items| {
        return Failure(Exhausted);
      }
      var x := curr.items[index];
      assert Holds(x, kids[index], nodes);
      if ty.TInt? {
        if !x.JInt? { return Failure(WrongNode); }
        r := Success(VInt(WrapInt(x.n)));
        index := index + 1;
      } else if ty.TLong? {
        if !x.JInt? { return Failure(WrongNode); }
        r := Success(VInt(x.n));
        index := index + 1;
      } else if ty.TBool? {
        r := Success(VBool(x.JTrue?));
        index := index + 1;
      } else if ty.TString? {
        if !x.JString? { return Failure(WrongNode); }
        r := Success(VString(x.s));
        index := index + 1;
      } else if ty.TDouble? {
        if !x.JReal? { return Failure(WrongNode); }
        r := Success(VDouble(x.r));
        index := index + 1;
      } else {
        if !x.JArr? { return Failure(WrongNode); }
        var oldCurr, oldIndex := curr, index;
        curr := x.a;
        index := 0;
        ghost var inner := kids[oldIndex].kids;
        if ty.TMap? {
          r := GetMap(sc, ty, inner, nodes);
        } else {
          var parts := GetEach(sc, Layout(sc, ty, |curr.items|), inner, nodes);
          assert inner[0..] == inner;
          if parts.Failure? { return Failure(parts.error); }
          r := Assemble(sc, ty, parts.value);
        }
        if r.Failure? { return r; }
        curr := oldCurr;
        index := oldIndex + 1;
      }
    }

    /** Consecutive reads at consecutive types: the elements of a list, a pair's halves, an object's members. */
    method GetEach(sc: Schema, tys: seq<Type>, ghost kids: seq<Tree>, ghost nodes: set<JArray>)
      returns (r: Result<seq<Value>, Error>)
      requires HoldsEach(curr.items, kids, nodes)
      requires index <= |kids|
      modifies this`curr, this`index
      ensures r == DecodeEach(sc, tys, kids[old(index)..])
      ensures r.Success? ==> curr == old(curr) && index == old(index) + |tys|
      decreases kids, 1
    {
      var vs: seq<Value> := [];
      ghost var rest := kids[index..];
      NothingBefore(DecodeEach(sc, tys, rest));
      assert tys[0..] == tys;
      for i := 0 to |tys|
        invariant curr == old(curr) && index == old(index) + i <= |kids|
        invariant |vs| == i && rest == kids[index..]
        invariant DecodeEach(sc, tys, kids[old(index)..]) == After(vs, DecodeEach(sc, tys[i..], rest))
      {
        var v := Get(sc, tys[i], kids, nodes);
        if v.Failure? { return Failure(v.error); }
        assert rest[1..] == kids[index..];
        assert tys[i..][1..] == tys[i + 1..];
        assert forall s: seq<Value> :: vs + ([v.value] + s) == vs + [v.value] + s;
        vs := vs + [v.value];
        rest := rest[1..];
      }
      assert vs + [] == vs;
      r := Success(vs);
    }

    /** The map overload: each pair is read and inserted before the next one is read. */
    method GetMap(sc: Schema, ty: Type, ghost kids: seq<Tree>, ghost nodes: set<JArray>)
      returns (r: Result<Value, Error>)
      requires ty.TMap?
      requires HoldsEach(curr.items, kids, nodes)
      requires index == 0
      modifies this`curr, this`index
      ensures r == Decode(sc, ty, Array(kids))
      ensures r.Success? ==> curr == old(curr) && index == |kids|
      decreases kids, 1
    {
      var m: seq<Value> := [];
      var n := |curr.items|;
      ghost var vs: seq<Value> := [];
      ghost var tys := Layout(sc, ty, |kids|);
      NothingBefore(DecodeEach(sc, tys, kids));
      assert tys[0..] == tys && kids[0..] == kids;
      for i := 0 to n
        invariant curr == old(curr) && index == i
        invariant |vs| == i && m == InsertAll(sc.less, vs)
        invariant DecodeEach(sc, tys, kids) == After(vs, DecodeEach(sc, tys[i..], kids[i..]))
      {
        var p := Get(sc, TPair(ty.key, ty.val), kids, nodes);
        if p.Failure? { return Failure(p.error); }
        assert kids[i..][1..] == kids[i + 1..];
        assert tys[i..][1..] == tys[i + 1..];
        assert forall s: seq<Value> :: vs + ([p.value] + s) == vs + [p.value] + s;
        assert (vs + [p.value])[..i] == vs;
        vs := vs + [p.value];
        m := MapInsert(sc.less, m, p.value);
      }
      assert vs + [] == vs;
      r := Success(VMap(m));
    }
  }

  /** Any typed values written through the one cursor and read through the other come back equal and in order. */
  method WriteThenRead(sc: Schema, vs: seq<Value>, tys: seq<Type>) returns (r: Result<seq<Value>, Error>)
    requires HasTypes(sc, vs, tys)
    ensures r == Success(vs)
  {
    var out := new OutSerializer();
    ghost var nodes := out.PutEach(vs);
    var root := out.GetContent();
    var reader := new InSerializer(root);
    assert reader.curr.items == out.curr.items[0..];
    r := reader.GetEach(sc, tys, EncodeEach(vs), nodes);
    DecodeEncodeEach(sc, vs, tys, []);
    assert EncodeEach(vs)[0..] == EncodeEach(vs) + [];
  }
}
