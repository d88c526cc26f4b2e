/** Nodes, coordinate systems and global degrees of freedom (barman/dofs.py).

    Python's `__eq__` accepts any object and answers False for one of
    another class; `Object` stands for "any object the caller passes". */
module Dofs {
  import opened Outcomes

  /** The six kinds of nodal quantity. */
  datatype Parameter = Dx | Dy | Rz | Fx | Fy | Mz

  const AllParameters: seq<Parameter> := [Dx, Dy, Rz, Fx, Fy, Mz]

  /** The integer value of each enum member. */
  function ParameterValue(p: Parameter): (v: nat)
    ensures v < 6
    ensures AllParameters[v] == p
  {
    match p
    case Dx => 0
    case Dy => 1
    case Rz => 2
    case Fx => 3
    case Fy => 4
    case Mz => 5
  }

  /** Enum lookup by value, `Parameter(v)`: a value that names no member is a ValueError. */
  function ParameterFromValue(v: int): (r: Result<Parameter>)
    ensures r.Ok? <==> 0 <= v < 6
    ensures r.Ok? ==> ParameterValue(r.value) == v
    ensures r.Err? ==> r.error == ValueError
  {
    if 0 <= v < 6 then Ok(AllParameters[v]) else Err(ValueError)
  }

  /** The enum has exactly six distinct members, valued 0 to 5, and every value names its member. */
  lemma ParameterEnumeration()
    ensures |AllParameters| == 6
    ensures forall i, j :: 0 <= i < j < 6 ==> AllParameters[i] != AllParameters[j]
    ensures forall p :: p in AllParameters
    ensures forall p :: ParameterFromValue(ParameterValue(p)) == Ok(p)
  {
    forall p: Parameter ensures p in AllParameters {
      assert AllParameters[ParameterValue(p)] == p;
    }
  }

  /** A rotation angle in radians; the default angle is 0. */
  datatype CoordinateSystem = CoordinateSystem(angle: real)

  const DefaultCoordinateSystem := CoordinateSystem(0.0)

  /** A point of the plane (a Python list of coordinates) and its coordinate system. */
  datatype Node = Node(position: seq<real>, coordinateSystem: CoordinateSystem)

  /** One scalar unknown: a node and a parameter. */
  datatype GlobalDoF = GlobalDoF(node: Node, parameter: Parameter)

  /** The objects an equality test may be handed. */
  datatype Object =
    | CoordinateSystemObject(cs: CoordinateSystem)
    | NodeObject(node: Node)
    | GlobalDoFObject(dof: GlobalDoF)
    | OtherObject(id: int)

  /** `Node(position)`: every new node gets its own default coordinate system. */
  function NewNode(position: seq<real>): (n: Node)
  {
    Node(position, DefaultCoordinateSystem)
  }

  /** `CoordinateSystem.__eq__`: equal to a coordinate system with the same angle. */
  function CoordinateSystemEq(self: CoordinateSystem, other: Object): (r: bool)
    ensures r <==> other == CoordinateSystemObject(self)
  {
    match other
    case CoordinateSystemObject(o) => self.angle == o.angle
    case _ => false
  }

  function CoordinateSystemNe(self: CoordinateSystem, other: Object): (r: bool)
    ensures r <==> other != CoordinateSystemObject(self)
  {
    !CoordinateSystemEq(self, other)
  }

  /** `Node.__eq__`: same position list and equal coordinate systems. */
  function NodeEq(self: Node, other: Object): (r: bool)
    ensures r <==> other == NodeObject(self)
  {
    match other
    case NodeObject(o) =>
      self.position == o.position
      && CoordinateSystemEq(self.coordinateSystem, CoordinateSystemObject(o.coordinateSystem))
    case _ => false
  }

  function NodeNe(self: Node, other: Object): (r: bool)
    ensures r <==> other != NodeObject(self)
  {
    !NodeEq(self, other)
  }

  /** `GlobalDoF.__eq__`: equal nodes and the same parameter. */
  function GlobalDoFEq(self: GlobalDoF, other: Object): (r: bool)
    ensures r <==> other == GlobalDoFObject(self)
  {
    match other
    case GlobalDoFObject(o) => NodeEq(self.node, NodeObject(o.node)) && self.parameter == o.parameter
    case _ => false
  }

  function GlobalDoFNe(self: GlobalDoF, other: Object): (r: bool)
    ensures r <==> other != GlobalDoFObject(self)
  {
    !GlobalDoFEq(self, other)
  }

  /** Two nodes built from the same position are equal, and only those:
      this is what lets separately built GlobalDoFs share one DOF index. */
  lemma NewNodeEquality(p: seq<real>, q: seq<real>)
    ensures NodeEq(NewNode(p), NodeObject(NewNode(q))) <==> p == q
    ensures NewNode(p).position == p
  {
  }

  /** Python's built-in hash functions, which the model leaves abstract. */
  datatype Hashing = Hashing(
    ofReal: real -> int,
    ofInt: int -> int,
    ofParameter: Parameter -> int,
    ofTuple: seq<int> -> int)

  function CoordinateSystemHash(cs: CoordinateSystem, h: Hashing): int
  {
    h.ofReal(cs.angle)
  }

  /** `hash(tuple(position) + (hash(coordinate_system),))`. */
  function NodeHash(n: Node, h: Hashing): int
  {
    h.ofTuple(seq(|n.position|, k requires 0 <= k < |n.position| => h.ofReal(n.position[k]))
              + [h.ofInt(CoordinateSystemHash(n.coordinateSystem, h))])
  }

  /** `hash((hash(node), parameter))`. */
  function GlobalDoFHash(d: GlobalDoF, h: Hashing): int
  {
    h.ofTuple([h.ofInt(NodeHash(d.node, h)), h.ofParameter(d.parameter)])
  }

  /** Equal objects hash equally whatever Python's hash functions are, since each
      hash reads only the fields its `__eq__` compares. */
  lemma HashConsistentWithEquality(h: Hashing, a: GlobalDoF, b: GlobalDoF)
    ensures var (ca, cb) := (a.node.coordinateSystem, b.node.coordinateSystem);
      CoordinateSystemEq(ca, CoordinateSystemObject(cb)) ==> CoordinateSystemHash(ca, h) == CoordinateSystemHash(cb, h)
    ensures NodeEq(a.node, NodeObject(b.node)) ==> NodeHash(a.node, h) == NodeHash(b.node, h)
    ensures GlobalDoFEq(a, GlobalDoFObject(b)) ==> GlobalDoFHash(a, h) == GlobalDoFHash(b, h)
  {
  }
}
