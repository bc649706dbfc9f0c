/** Interning of types: composite types are created once, so a pointer comparison decides equality. */
module TypeInterning {

  datatype Builtin =
    | U8 | U16 | U32 | U64 | U128 | USize | I8 | I16 | I32 | I64 | I128 | ISize
    | F32 | F64 | Bool | Char | String | Unit

  /** A pointer to a type object, as its place in the order of creation. */
  datatype QualType = Null | Ptr(id: nat)

  /** A type object: its kind and the handles it was built from. */
  datatype Node =
    | Leaf(kind: Builtin)
    | PointerNode(pointee: QualType, isMut: bool)
    | ReferenceNode(referent: QualType, isMut: bool)
    | ArrayNode(element: QualType, size: nat)
    | FunctionNode(result: QualType, params: seq<QualType>)

  /** A type's structure, independent of any context. */
  datatype Shape =
    | NoType
    | Basic(kind: Builtin)
    | PointerTo(target: Shape, isMut: bool)
    | ReferenceTo(target: Shape, isMut: bool)
    | ArrayOf(target: Shape, size: nat)
    | FunctionOf(result: Shape, params: seq<Shape>)

  const BUILTINS: seq<Builtin> :=
      [U8, U16, U32, U64, U128, USize, I8, I16, I32, I64, I128, ISize, F32, F64, Bool, Char, String, Unit]

  predicate Known(t: QualType, n: nat) { t.Ptr? ==> t.id < n }

  /** A type object is built from handles that exist before it. */
  predicate BuiltFrom(node: Node, n: nat) {
    match node
    case Leaf(_) => true
    case PointerNode(t, _) => Known(t, n)
    case ReferenceNode(t, _) => Known(t, n)
    case ArrayNode(t, _) => Known(t, n)
    case FunctionNode(t, ps) => Known(t, n) && forall i :: 0 <= i < |ps| ==> Known(ps[i], n)
  }

  predicate WellFounded(nodes: seq<Node>) {
    forall i :: 0 <= i < |nodes| ==> BuiltFrom(nodes[i], i)
  }

  function ShapeOf(nodes: seq<Node>, t: QualType): Shape
    requires WellFounded(nodes) && Known(t, |nodes|)
    decreases if t.Ptr? then t.id + 1 else 0, 0
  {
    if t.Null? then NoType
    else match nodes[t.id]
      case Leaf(k) => Basic(k)
      case PointerNode(u, m) => PointerTo(ShapeOf(nodes, u), m)
      case ReferenceNode(u, m) => ReferenceTo(ShapeOf(nodes, u), m)
      case ArrayNode(u, n) => ArrayOf(ShapeOf(nodes, u), n)
      case FunctionNode(u, ps) => FunctionOf(ShapeOf(nodes, u),
        seq(|ps|, i requires 0 <= i < |ps| => Param(nodes, t.id, ps, i)))
  }

  /** The shape of the i-th parameter of function type `id`. */
  function Param(nodes: seq<Node>, id: nat, ps: seq<QualType>, i: nat): Shape
    requires WellFounded(nodes) && id < |nodes| && i < |ps| && forall j :: 0 <= j < |ps| ==> Known(ps[j], id)
    decreases id, 1
  {
    assert Known(ps[i], id);
    ShapeOf(nodes, ps[i])
  }

  /** No type object is built twice. */
  predicate NoDuplicates(nodes: seq<Node>) {
    forall i, j :: 0 <= i < j < |nodes| ==> nodes[i] != nodes[j]
  }

  /** Handles are equal exactly when the types they stand for have the same structure. */
  lemma {:induction false} Canonical(nodes: seq<Node>, t: QualType, u: QualType)
    requires WellFounded(nodes) && NoDuplicates(nodes) && Known(t, |nodes|) && Known(u, |nodes|)
    ensures t == u <==> ShapeOf(nodes, t) == ShapeOf(nodes, u)
    decreases if t.Ptr? then t.id + 1 else 0
  {
    if t.Ptr? && u.Ptr? && ShapeOf(nodes, t) == ShapeOf(nodes, u) {
      var x, y := nodes[t.id], nodes[u.id];
      match x
      case Leaf(_) =>
      case PointerNode(v, _) => Canonical(nodes, v, y.pointee);
      case ReferenceNode(v, _) => Canonical(nodes, v, y.referent);
      case ArrayNode(v, _) => Canonical(nodes, v, y.element);
      case FunctionNode(v, ps) =>
        Canonical(nodes, v, y.result);
        var qs := y.params;
        var xs, ys := ShapeOf(nodes, t).params, ShapeOf(nodes, u).params;
        assert |ps| == |xs| == |ys| == |qs|;
        forall i | 0 <= i < |ps|
          ensures ps[i] == qs[i]
        {
          assert xs[i] == Param(nodes, t.id, ps, i) && ys[i] == Param(nodes, u.id, qs, i);
          Canonical(nodes, ps[i], qs[i]);
        }
        assert ps == qs;
      assert x == y;
    }
  }

  /** Creating more types leaves earlier handles with the structure they had. */
  lemma {:induction false} ShapeKept(nodes: seq<Node>, more: seq<Node>, t: QualType)
    requires WellFounded(nodes) && WellFounded(more) && nodes <= more && Known(t, |nodes|)
    ensures ShapeOf(more, t) == ShapeOf(nodes, t)
    decreases if t.Ptr? then t.id + 1 else 0
  {
    if t.Ptr? {
      assert more[t.id] == nodes[t.id];
      match nodes[t.id]
      case Leaf(_) =>
      case PointerNode(u, _) => ShapeKept(nodes, more, u);
      case ReferenceNode(u, _) => ShapeKept(nodes, more, u);
      case ArrayNode(u, _) => ShapeKept(nodes, more, u);
      case FunctionNode(u, ps) =>
        ShapeKept(nodes, more, u);
        var xs, ys := ShapeOf(nodes, t).params, ShapeOf(more, t).params;
        forall i | 0 <= i < |ps|
          ensures xs[i] == ys[i]
        {
          assert xs[i] == Param(nodes, t.id, ps, i) && ys[i] == Param(more, t.id, ps, i);
          ShapeKept(nodes, more, ps[i]);
        }
        assert xs == ys;
    }
  }

  /** The shape of a node about to be created or found. */
  function NodeShape(nodes: seq<Node>, node: Node): Shape
    requires WellFounded(nodes) && BuiltFrom(node, |nodes|)
  {
    match node
    case Leaf(k) => Basic(k)
    case PointerNode(u, m) => PointerTo(ShapeOf(nodes, u), m)
    case ReferenceNode(u, m) => ReferenceTo(ShapeOf(nodes, u), m)
    case ArrayNode(u, n) => ArrayOf(ShapeOf(nodes, u), n)
    case FunctionNode(u, ps) => FunctionOf(ShapeOf(nodes, u),
      seq(|ps|, i requires 0 <= i < |ps| => ShapeOf(nodes, ps[i])))
  }

  lemma FoundShape(nodes: seq<Node>, node: Node, id: nat)
    requires WellFounded(nodes) && id < |nodes| && nodes[id] == node
    ensures BuiltFrom(node, |nodes|) && ShapeOf(nodes, Ptr(id)) == NodeShape(nodes, node)
  {
    if node.FunctionNode? {
      var ps := node.params;
      assert ShapeOf(nodes, Ptr(id)).params == NodeShape(nodes, node).params;
    }
  }

  lemma Grown(nodes: seq<Node>, node: Node)
    requires WellFounded(nodes) && NoDuplicates(nodes) && BuiltFrom(node, |nodes|) && node !in nodes
    ensures var more := nodes + [node];
      && WellFounded(more) && NoDuplicates(more)
      && NodeShape(more, node) == NodeShape(nodes, node)
      && ShapeOf(more, Ptr(|nodes|)) == NodeShape(nodes, node)
  {
    var more := nodes + [node];
    assert forall i :: 0 <= i < |nodes| ==> more[i] == nodes[i];
    forall t | Known(t, |nodes|)
      ensures ShapeOf(more, t) == ShapeOf(nodes, t)
    {
      ShapeKept(nodes, more, t);
    }
    if node.FunctionNode? {
      var ps := node.params;
      assert NodeShape(more, node).params == NodeShape(nodes, node).params;
    }
    FoundShape(more, node, |nodes|);
  }

  /** An interning map and the created objects agree: the map holds exactly the objects of its kind. */
  ghost predicate Holds<K(!new)>(m: map<K, nat>, nodes: seq<Node>, make: K -> Node) {
    && (forall k :: k in m ==> m[k] < |nodes| && nodes[m[k]] == make(k))
    && (forall k :: make(k) in nodes ==> k in m)
  }

  /** A key is in the map exactly when its object exists, and leads to it. */
  lemma InMap<K(!new)>(m: map<K, nat>, nodes: seq<Node>, make: K -> Node, key: K)
    requires Holds(m, nodes, make)
    ensures key in m <==> make(key) in nodes
    ensures key in m ==> m[key] < |nodes| && nodes[m[key]] == make(key)
  {}

  lemma HoldsKept<K(!new)>(m: map<K, nat>, nodes: seq<Node>, make: K -> Node, node: Node)
    requires Holds(m, nodes, make) && forall k :: make(k) != node
    ensures Holds(m, nodes + [node], make)
  {}

  lemma HoldsAdded<K(!new)>(m: map<K, nat>, nodes: seq<Node>, make: K -> Node, key: K)
    requires Holds(m, nodes, make) && forall k :: make(k) == make(key) ==> k == key
    ensures Holds(m[key := |nodes|], nodes + [make(key)], make)
  {}

  const AS_POINTER: ((QualType, bool)) -> Node := (k: (QualType, bool)) => PointerNode(k.0, k.1)
  const AS_REFERENCE: ((QualType, bool)) -> Node := (k: (QualType, bool)) => ReferenceNode(k.0, k.1)
  const AS_ARRAY: ((QualType, nat)) -> Node := (k: (QualType, nat)) => ArrayNode(k.0, k.1)
  const AS_FUNCTION: ((QualType, seq<QualType>)) -> Node := (k: (QualType, seq<QualType>)) => FunctionNode(k.0, k.1)

  class ASTContext {
    var Nodes: seq<Node>
    var PtrTy: map<(QualType, bool), nat>
    var RefTy: map<(QualType, bool), nat>
    var ArrayTy: map<(QualType, nat), nat>
    var FuncTy: map<(QualType, seq<QualType>), nat>

    /** Each interning map holds exactly the types of its kind. */
    ghost predicate Valid()
      reads this
    {
      && WellFounded(Nodes) && NoDuplicates(Nodes)
      && (forall b: Builtin :: Leaf(b) in Nodes)
      && Holds(PtrTy, Nodes, AS_POINTER)
      && Holds(RefTy, Nodes, AS_REFERENCE)
      && Holds(ArrayTy, Nodes, AS_ARRAY)
      && Holds(FuncTy, Nodes, AS_FUNCTION)
    }

    constructor ()
      ensures Valid() && Nodes == seq(|BUILTINS|, i requires 0 <= i < |BUILTINS| => Leaf(BUILTINS[i]))
    {
      Nodes := seq(|BUILTINS|, i requires 0 <= i < |BUILTINS| => Leaf(BUILTINS[i]));
      PtrTy, RefTy, ArrayTy, FuncTy := map[], map[], map[], map[];
      new;
      forall b: Builtin
        ensures Leaf(b) in Nodes
      {
        EveryBuiltin(b);
        var i :| 0 <= i < |BUILTINS| && BUILTINS[i] == b;
        assert Nodes[i] == Leaf(b);
      }
    }

    /** What every constructor call promises: the handle stands for the node asked for, nothing
        changes when it already existed, and otherwise one object is added at the end. */
    twostate predicate Interned(node: Node, r: QualType)
      reads this
    {
      && Valid() && r.Ptr? && r.id < |Nodes| && Nodes[r.id] == node
      && Nodes == (if node in old(Nodes) then old(Nodes) else old(Nodes) + [node])
    }

    method GetPointerType(pointee: QualType, isMut: bool) returns (r: QualType)
      requires Valid() && Known(pointee, |Nodes|)
      modifies this
      ensures Interned(PointerNode(pointee, isMut), r)
    {
      hide Holds, WellFounded, NoDuplicates;
      var key, node := (pointee, isMut), PointerNode(pointee, isMut);
      InMap(PtrTy, Nodes, AS_POINTER, key);
      if key !in PtrTy {
        Grown(Nodes, node);
        HoldsAdded(PtrTy, Nodes, AS_POINTER, key);
        HoldsKept(RefTy, Nodes, AS_REFERENCE, node);
        HoldsKept(ArrayTy, Nodes, AS_ARRAY, node);
        HoldsKept(FuncTy, Nodes, AS_FUNCTION, node);
        PtrTy := PtrTy[key := |Nodes|];
        Nodes := Nodes + [node];
      }
      r := Ptr(PtrTy[key]);
    }

    method GetReferenceType(referent: QualType, isMut: bool) returns (r: QualType)
      requires Valid() && Known(referent, |Nodes|)
      modifies this
      ensures Interned(ReferenceNode(referent, isMut), r)
    {
      hide Holds, WellFounded, NoDuplicates;
      var key, node := (referent, isMut), ReferenceNode(referent, isMut);
      InMap(RefTy, Nodes, AS_REFERENCE, key);
      if key !in RefTy {
        Grown(Nodes, node);
        HoldsAdded(RefTy, Nodes, AS_REFERENCE, key);
        HoldsKept(PtrTy, Nodes, AS_POINTER, node);
        HoldsKept(ArrayTy, Nodes, AS_ARRAY, node);
        HoldsKept(FuncTy, Nodes, AS_FUNCTION, node);
        RefTy := RefTy[key := |Nodes|];
        Nodes := Nodes + [node];
      }
      r := Ptr(RefTy[key]);
    }

    method GetArrayType(element: QualType, size: nat) returns (r: QualType)
      requires Valid() && Known(element, |Nodes|)
      modifies this
      ensures Interned(ArrayNode(element, size), r)
    {
      hide Holds, WellFounded, NoDuplicates;
      var key, node := (element, size), ArrayNode(element, size);
      InMap(ArrayTy, Nodes, AS_ARRAY, key);
      if key !in ArrayTy {
        Grown(Nodes, node);
        HoldsAdded(ArrayTy, Nodes, AS_ARRAY, key);
        HoldsKept(PtrTy, Nodes, AS_POINTER, node);
        HoldsKept(RefTy, Nodes, AS_REFERENCE, node);
        HoldsKept(FuncTy, Nodes, AS_FUNCTION, node);
        ArrayTy := ArrayTy[key := |Nodes|];
        Nodes := Nodes + [node];
      }
      r := Ptr(ArrayTy[key]);
    }

    method GetFunctionType(result: QualType, params: seq<QualType>) returns (r: QualType)
      requires Valid() && Known(result, |Nodes|) && forall i :: 0 <= i < |params| ==> Known(params[i], |Nodes|)
      modifies this
      ensures Interned(FunctionNode(result, params), r)
    {
      hide Holds, WellFounded, NoDuplicates;
      var key, node := (result, params), FunctionNode(result, params);
      InMap(FuncTy, Nodes, AS_FUNCTION, key);
      if key !in FuncTy {
        Grown(Nodes, node);
        HoldsAdded(FuncTy, Nodes, AS_FUNCTION, key);
        HoldsKept(PtrTy, Nodes, AS_POINTER, node);
        HoldsKept(RefTy, Nodes, AS_REFERENCE, node);
        HoldsKept(ArrayTy, Nodes, AS_ARRAY, node);
        FuncTy := FuncTy[key := |Nodes|];
        Nodes := Nodes + [node];
      }
      r := Ptr(FuncTy[key]);
    }

    /** Comparing pointers decides structural equality; a null type is compatible with nothing. */
    predicate AreTypesCompatible(t: QualType, u: QualType)
      reads this
      requires Valid() && Known(t, |Nodes|) && Known(u, |Nodes|)
      ensures AreTypesCompatible(t, u) <==> t.Ptr? && u.Ptr? && ShapeOf(Nodes, t) == ShapeOf(Nodes, u)
    {
      Canonical(Nodes, t, u);
      if t.Null? || u.Null? then false else t.id == u.id
    }
  }

  lemma EveryBuiltin(b: Builtin)
    ensures b in BUILTINS
  {
    var s := BUILTINS;
    assert s[0] == U8 && s[1] == U16 && s[2] == U32 && s[3] == U64 && s[4] == U128 && s[5] == USize;
    assert s[6] == I8 && s[7] == I16 && s[8] == I32 && s[9] == I64 && s[10] == I128 && s[11] == ISize;
    assert s[12] == F32 && s[13] == F64 && s[14] == Bool && s[15] == Char && s[16] == String && s[17] == Unit;
  }

  /** A constructor call gives a handle of the structure asked for, and asking again for that
      structure, at any later time, gives the same handle. */
  lemma InternedOnce(nodes: seq<Node>, later: seq<Node>, node: Node, r: QualType, node': Node, r': QualType)
    requires WellFounded(nodes) && WellFounded(later) && NoDuplicates(later) && nodes <= later
    requires r.Ptr? && r.id < |nodes| && nodes[r.id] == node && BuiltFrom(node, |nodes|)
    requires r'.Ptr? && r'.id < |later| && later[r'.id] == node' && BuiltFrom(node', |later|)
    ensures ShapeOf(nodes, r) == NodeShape(nodes, node) == ShapeOf(later, r)
    ensures r == r' <==> NodeShape(nodes, node) == NodeShape(later, node')
  {
    FoundShape(nodes, node, r.id);
    FoundShape(later, node', r'.id);
    ShapeKept(nodes, later, r);
    Canonical(later, r, r');
  }
}
