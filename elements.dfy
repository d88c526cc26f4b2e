/** Element formulations (barman/elements.py) over exact reals, with the
    material and section property bags they read (barman/materials.py,
    barman/sections.py).

    The Euclidean length needs a square root, so the length `L` is an
    argument that `IsLength` ties to the end nodes; the direction cosines are
    then computed exactly from it. */
module Elements {
  import opened Dofs
  import opened Matrices

  /** A linear elastic material; its constructor fixes the density at 0.0. */
  datatype Material = LinearElastic(name: string, youngModulus: real, poissonRatio: real, density: real)

  function NewLinearElastic(name: string, youngModulus: real, poissonRatio: real): Material
  {
    LinearElastic(name, youngModulus, poissonRatio, 0.0)
  }

  /** A cross-section: its area and its second moment of area. */
  datatype Section = Section(area: real, izz: real)

  /** The two element variants. */
  datatype ElementKind = Bar2 | EulerBernoulli

  /** An element: its node list (start node first, end node last), its section and its material. */
  datatype Element = Element(kind: ElementKind, nodes: seq<Node>, section: Section, material: Material)

  const Bar2Parameters: seq<Parameter> := [Dx, Dy]
  const EulerBernoulliParameters: seq<Parameter> := [Dx, Dy, Rz]

  // ---------------------------------------------------------------- global DOFs

  /** Bar2: node-major, `[n.dx, n.dy]` for each node in turn. */
  function Bar2GlobalDofs(nodes: seq<Node>): (r: seq<GlobalDoF>)
    ensures |r| == 2 * |nodes|
    ensures forall k :: 0 <= k < |nodes| ==>
              r[2 * k] == GlobalDoF(nodes[k], Dx) && r[2 * k + 1] == GlobalDoF(nodes[k], Dy)
  {
    if nodes == [] then []
    else
      var rest := Bar2GlobalDofs(nodes[1..]);
      assert forall k :: 1 <= k < |nodes| ==> nodes[1..][k - 1] == nodes[k];
      [GlobalDoF(nodes[0], Dx), GlobalDoF(nodes[0], Dy)] + rest
  }

  /** One parameter at every node, in node order. */
  function NodeDofs(nodes: seq<Node>, p: Parameter): (r: seq<GlobalDoF>)
    ensures |r| == |nodes|
  {
    seq(|nodes|, k requires 0 <= k < |nodes| => GlobalDoF(nodes[k], p))
  }

  /** EulerBernoulli: parameter-major, all dx, then all dy, then all rz. */
  function EulerBernoulliGlobalDofs(nodes: seq<Node>): (r: seq<GlobalDoF>)
    ensures |r| == 3 * |nodes|
    ensures r[..|nodes|] == NodeDofs(nodes, Dx)
    ensures r[|nodes|..2 * |nodes|] == NodeDofs(nodes, Dy)
    ensures r[2 * |nodes|..] == NodeDofs(nodes, Rz)
  {
    var n := |nodes|;
    seq(3 * n, j requires 0 <= j < 3 * n =>
      if j < n then GlobalDoF(nodes[j], Dx)
      else if j < 2 * n then GlobalDoF(nodes[j - n], Dy)
      else GlobalDoF(nodes[j - 2 * n], Rz))
  }

  /** `get_global_dofs`, dispatched on the variant. */
  function GlobalDofs(e: Element): (r: seq<GlobalDoF>)
    ensures e.kind == Bar2 ==> |r| == 2 * |e.nodes|
    ensures e.kind == EulerBernoulli ==> |r| == 3 * |e.nodes|
  {
    match e.kind
    case Bar2 => Bar2GlobalDofs(e.nodes)
    case EulerBernoulli => EulerBernoulliGlobalDofs(e.nodes)
  }

  /** The two orders spelled out for a two-node element. */
  lemma TwoNodeGlobalDofs(n0: Node, n1: Node)
    ensures Bar2GlobalDofs([n0, n1])
         == [GlobalDoF(n0, Dx), GlobalDoF(n0, Dy), GlobalDoF(n1, Dx), GlobalDoF(n1, Dy)]
    ensures EulerBernoulliGlobalDofs([n0, n1])
         == [GlobalDoF(n0, Dx), GlobalDoF(n1, Dx), GlobalDoF(n0, Dy),
             GlobalDoF(n1, Dy), GlobalDoF(n0, Rz), GlobalDoF(n1, Rz)]
  {
    var b := Bar2GlobalDofs([n0, n1]);
    assert b[2] == GlobalDoF(n1, Dx) && b[3] == GlobalDoF(n1, Dy);
    var e := EulerBernoulliGlobalDofs([n0, n1]);
    assert e[1] == GlobalDoF(n1, Dx) && e[3] == GlobalDoF(n1, Dy) && e[5] == GlobalDoF(n1, Rz);
  }

  // ---------------------------------------------------------------- geometry

  /** Both end nodes carry planar positions. */
  predicate Planar(e: Element)
  {
    |e.nodes| > 0 && |e.nodes[0].position| == 2 && |e.nodes[|e.nodes| - 1].position| == 2
  }

  /** `nodes[-1].position - nodes[0].position`. */
  function Direction(e: Element): (r: Vector)
    requires Planar(e)
    ensures |r| == 2
  {
    var xi, xf := e.nodes[0].position, e.nodes[|e.nodes| - 1].position;
    [xf[0] - xi[0], xf[1] - xi[1]]
  }

  function SquaredLength(e: Element): real
    requires Planar(e)
  {
    var r := Direction(e);
    r[0] * r[0] + r[1] * r[1]
  }

  /** `L` is what `get_length` returns: the positive square root of the squared length. */
  predicate IsLength(e: Element, L: real)
  {
    Planar(e) && L > 0.0 && L * L == SquaredLength(e)
  }

  /** Only the first and last node enter the geometry: intermediate nodes do not. */
  lemma GeometryReadsEndNodesOnly(e: Element, e': Element)
    requires Planar(e) && |e'.nodes| > 0
    requires e'.nodes[0] == e.nodes[0] && e'.nodes[|e'.nodes| - 1] == e.nodes[|e.nodes| - 1]
    ensures Planar(e') && Direction(e') == Direction(e) && SquaredLength(e') == SquaredLength(e)
    ensures forall L :: IsLength(e, L) <==> IsLength(e', L)
  {
  }

  /** Swapping the end nodes reverses the direction and keeps the length. */
  lemma LengthSymmetric(e: Element, e': Element)
    requires Planar(e) && |e'.nodes| > 0
    requires e'.nodes[0] == e.nodes[|e.nodes| - 1] && e'.nodes[|e'.nodes| - 1] == e.nodes[0]
    ensures Planar(e') && Direction(e') == [-Direction(e)[0], -Direction(e)[1]]
    ensures SquaredLength(e') == SquaredLength(e)
    ensures forall L :: IsLength(e, L) <==> IsLength(e', L)
  {
    var r, r' := Direction(e), Direction(e');
    assert r'[0] * r'[0] == r[0] * r[0] && r'[1] * r'[1] == r[1] * r[1];
  }

  lemma {:induction false} UnitCosines(x: real, y: real, L: real)
    requires L > 0.0 && L * L == x * x + y * y
    ensures (x / L) * (x / L) + (y / L) * (y / L) == 1.0
  {
    var c, s := x / L, y / L;
    assert c * L == x && s * L == y;
    calc {
      (c * c + s * s) * (L * L);
      (c * L) * (c * L) + (s * L) * (s * L);
      x * x + y * y;
      1.0 * (L * L);
    }
  }

  /** `r / L`: the cosine and sine of the element's direction. */
  function DirectionCosines(e: Element, L: real): (cs: (real, real))
    requires IsLength(e, L)
    ensures cs.0 * cs.0 + cs.1 * cs.1 == 1.0
  {
    var r := Direction(e);
    UnitCosines(r[0], r[1], L);
    (r[0] / L, r[1] / L)
  }

  // ---------------------------------------------------------------- transformations

  /** Bar2: the 2-by-4 projection of the end displacements onto the axis. */
  function Bar2Transformation(c: real, s: real): (t: Matrix)
    ensures IsMatrix(t, 2, 4)
  {
    [[c, s, 0.0, 0.0],
     [0.0, 0.0, c, s]]
  }

  /** EulerBernoulli: a rotation per node on (dx, dy) and 1 on rz. */
  function EulerBernoulliTransformation(c: real, s: real): (t: Matrix)
    ensures IsMatrix(t, 6, 6)
  {
    [[ c,   s,   0.0, 0.0, 0.0, 0.0],
     [-s,   c,   0.0, 0.0, 0.0, 0.0],
     [0.0, 0.0,  1.0, 0.0, 0.0, 0.0],
     [0.0, 0.0,  0.0,  c,   s,  0.0],
     [0.0, 0.0,  0.0, -s,   c,  0.0],
     [0.0, 0.0,  0.0, 0.0, 0.0, 1.0]]
  }

  /** The number of global DOFs the transformation maps from. */
  function TransformationColumns(kind: ElementKind): nat
  {
    match kind
    case Bar2 => 4
    case EulerBernoulli => 6
  }

  /** The number of local DOFs, the side of the local matrices. */
  function LocalSize(kind: ElementKind): nat
  {
    match kind
    case Bar2 => 2
    case EulerBernoulli => 6
  }

  /** `get_transformation_matrix`. */
  function Transformation(e: Element, L: real): (t: Matrix)
    requires IsLength(e, L)
    ensures IsMatrix(t, LocalSize(e.kind), TransformationColumns(e.kind))
  {
    var (c, s) := DirectionCosines(e, L);
    match e.kind
    case Bar2 => Bar2Transformation(c, s)
    case EulerBernoulli => EulerBernoulliTransformation(c, s)
  }

  // ---------------------------------------------------------------- local matrices

  function Bar2LocalStiffness(ea: real, L: real): (k: Matrix)
    requires L > 0.0
    ensures IsMatrix(k, 2, 2) && Symmetric(k)
  {
    [[ ea / L, -ea / L],
     [-ea / L,  ea / L]]
  }

  function EulerBernoulliLocalStiffness(ea: real, ei: real, L: real): (k: Matrix)
    requires L > 0.0
    ensures IsMatrix(k, 6, 6) && Symmetric(k)
  {
    var a := ea / L;
    var b := 12.0 * ei / (L * L * L);
    var c := 6.0 * ei / (L * L);
    var d := 4.0 * ei / L;
    var h := 2.0 * ei / L;
    [[ a,   0.0, 0.0, -a,  0.0, 0.0],
     [0.0,  b,    c,  0.0, -b,   c ],
     [0.0,  c,    d,  0.0, -c,   h ],
     [-a,  0.0, 0.0,  a,   0.0, 0.0],
     [0.0, -b,   -c,  0.0,  b,  -c ],
     [0.0,  c,    h,  0.0, -c,   d ]]
  }

  function Bar2LocalMass(rho: real, area: real, L: real): (m: Matrix)
    ensures IsMatrix(m, 2, 2) && Symmetric(m)
  {
    var r := rho * area * L / 6.0;
    [[r * 2.0, r * 1.0],
     [r * 1.0, r * 2.0]]
  }

  function EulerBernoulliLocalMass(rho: real, area: real, L: real): (m: Matrix)
    ensures IsMatrix(m, 6, 6) && Symmetric(m)
  {
    var r := rho * area * L / 420.0;
    [[r * 140.0, 0.0,              0.0,                  r * 70.0,  0.0,              0.0],
     [0.0,       r * 156.0,        r * (22.0 * L),       0.0,       r * 54.0,         r * (-13.0 * L)],
     [0.0,       r * (22.0 * L),   r * (4.0 * L * L),    0.0,       r * (13.0 * L),   r * (-3.0 * L * L)],
     [r * 70.0,  0.0,              0.0,                  r * 140.0, 0.0,              0.0],
     [0.0,       r * 54.0,         r * (13.0 * L),       0.0,       r * 156.0,        r * (-22.0 * L)],
     [0.0,       r * (-13.0 * L),  r * (-3.0 * L * L),   0.0,       r * (-22.0 * L),  r * (4.0 * L * L)]]
  }

  /** EA: Young's modulus times the section area. */
  function AxialRigidity(e: Element): real
  {
    e.material.youngModulus * e.section.area
  }

  /** EI: Young's modulus times the second moment of area. */
  function BendingRigidity(e: Element): real
  {
    e.material.youngModulus * e.section.izz
  }

  /** `get_local_stiffness_matrix`, with EA = E·area and EI = E·I_zz. */
  function LocalStiffness(e: Element, L: real): (k: Matrix)
    requires L > 0.0
    ensures IsMatrix(k, LocalSize(e.kind), LocalSize(e.kind)) && Symmetric(k)
  {
    match e.kind
    case Bar2 => Bar2LocalStiffness(AxialRigidity(e), L)
    case EulerBernoulli => EulerBernoulliLocalStiffness(AxialRigidity(e), BendingRigidity(e), L)
  }

  /** `get_local_mass_matrix`, from the material density. */
  function LocalMass(e: Element, L: real): (m: Matrix)
    ensures IsMatrix(m, LocalSize(e.kind), LocalSize(e.kind)) && Symmetric(m)
  {
    match e.kind
    case Bar2 => Bar2LocalMass(e.material.density, e.section.area, L)
    case EulerBernoulli => EulerBernoulliLocalMass(e.material.density, e.section.area, L)
  }

  /** `get_global_stiffness_matrix`, shared by both variants: Tᵗ·k·T. */
  function GlobalStiffness(e: Element, L: real): (k: Matrix)
    requires IsLength(e, L)
    ensures IsMatrix(k, TransformationColumns(e.kind), TransformationColumns(e.kind))
    ensures Symmetric(k)
    ensures |e.nodes| == 2 ==> |k| == |GlobalDofs(e)|
  {
    var t := Transformation(e, L);
    var kl := LocalStiffness(e, L);
    var n := TransformationColumns(e.kind);
    CongruenceSymmetric(t, kl, n);
    MatMul(MatMul(Transpose(t, n), kl, |kl|), t, n)
  }

  // ---------------------------------------------------------------- properties

  function Zeros(n: nat): (z: Vector)
    ensures |z| == n && forall k :: 0 <= k < n ==> z[k] == 0.0
  {
    seq(n, k => 0.0)
  }

  lemma CancelPositive(x: real, y: real, m: real)
    requires m > 0.0
    requires x * m == y * m
    ensures x == y
  {
    assert (x - y) * m == 0.0;
  }

  /** The relations between the beam's stiffness coefficients that make its rows
      balance under a rigid rotation. */
  lemma BeamCoefficients(ei: real, L: real)
    requires L > 0.0
    ensures (12.0 * ei / (L * L * L)) * L == 2.0 * (6.0 * ei / (L * L))
    ensures (6.0 * ei / (L * L)) * L == 4.0 * ei / L + 2.0 * ei / L
  {
    var b := 12.0 * ei / (L * L * L);
    var c := 6.0 * ei / (L * L);
    var d := 4.0 * ei / L + 2.0 * ei / L;
    assert d * L == 6.0 * ei;
    assert c * L * L == 6.0 * ei;
    CancelPositive(c * L, d, L);
    assert b * L * L * L == 12.0 * ei;
    assert 2.0 * c * L * L == 12.0 * ei;
    CancelPositive(b * L * L, 2.0 * c * L, L);
    CancelPositive(b * L, 2.0 * c, L);
  }

  /** A rigid translation of the bar strains nothing, so it produces no end forces. */
  lemma Bar2RigidTranslation(ea: real, L: real)
    requires L > 0.0
    ensures MatVec(Bar2LocalStiffness(ea, L), [1.0, 1.0]) == Zeros(2)
  {
    var k := Bar2LocalStiffness(ea, L);
    Dot2(k[0], [1.0, 1.0]);
    Dot2(k[1], [1.0, 1.0]);
    var r := MatVec(k, [1.0, 1.0]);
    assert r[0] == 0.0 && r[1] == 0.0;
    assert r == Zeros(2);
  }

  /** A beam row applied to a mode: the row has to sum to zero for the mode to
      produce no end forces. */
  lemma KernelByRows(k: Matrix, v: Vector)
    requires IsMatrix(k, 6, 6) && |v| == 6
    requires forall i :: 0 <= i < 6 ==>
      k[i][0] * v[0] + k[i][1] * v[1] + k[i][2] * v[2] + k[i][3] * v[3] + k[i][4] * v[4] + k[i][5] * v[5] == 0.0
    ensures MatVec(k, v) == Zeros(6)
  {
    var r := MatVec(k, v);
    forall i | 0 <= i < 6
      ensures r[i] == Zeros(6)[i]
    {
      Dot6(k[i], v);
    }
  }

  /** The beam's rigid axial translation lies in the kernel of its local stiffness. */
  lemma EulerBernoulliAxialTranslation(ea: real, ei: real, L: real)
    requires L > 0.0
    ensures MatVec(EulerBernoulliLocalStiffness(ea, ei, L), [1.0, 0.0, 0.0, 1.0, 0.0, 0.0]) == Zeros(6)
  {
    KernelByRows(EulerBernoulliLocalStiffness(ea, ei, L), [1.0, 0.0, 0.0, 1.0, 0.0, 0.0]);
  }

  /** The beam's rigid transverse translation lies in the kernel of its local stiffness. */
  lemma EulerBernoulliTransverseTranslation(ea: real, ei: real, L: real)
    requires L > 0.0
    ensures MatVec(EulerBernoulliLocalStiffness(ea, ei, L), [0.0, 1.0, 0.0, 0.0, 1.0, 0.0]) == Zeros(6)
  {
    KernelByRows(EulerBernoulliLocalStiffness(ea, ei, L), [0.0, 1.0, 0.0, 0.0, 1.0, 0.0]);
  }

  /** The beam's rigid rotation about its start node (transverse displacement L at the
      end node, unit rotation at both) lies in the kernel of its local stiffness. */
  lemma EulerBernoulliRigidRotation(ea: real, ei: real, L: real)
    requires L > 0.0
    ensures MatVec(EulerBernoulliLocalStiffness(ea, ei, L), [0.0, 0.0, 1.0, 0.0, L, 1.0]) == Zeros(6)
  {
    BeamCoefficients(ei, L);
    KernelByRows(EulerBernoulliLocalStiffness(ea, ei, L), [0.0, 0.0, 1.0, 0.0, L, 1.0]);
  }

  /** The consistent mass matrix carries the bar's whole mass ρAL under a rigid translation. */
  lemma Bar2TotalMass(rho: real, area: real, L: real)
    ensures var m := Bar2LocalMass(rho, area, L);
      Dot([1.0, 1.0], MatVec(m, [1.0, 1.0])) == rho * area * L
  {
    var m := Bar2LocalMass(rho, area, L);
    var one := [1.0, 1.0];
    Dot2(m[0], one);
    Dot2(m[1], one);
    Dot2(one, MatVec(m, one));
  }

  /** Likewise for the beam, translated along either local axis. */
  lemma EulerBernoulliTotalMass(rho: real, area: real, L: real)
    ensures var m := EulerBernoulliLocalMass(rho, area, L);
      var (ux, uy) := ([1.0, 0.0, 0.0, 1.0, 0.0, 0.0], [0.0, 1.0, 0.0, 0.0, 1.0, 0.0]);
      Dot(ux, MatVec(m, ux)) == rho * area * L && Dot(uy, MatVec(m, uy)) == rho * area * L
  {
    var m := EulerBernoulliLocalMass(rho, area, L);
    TwoSlotQuadraticForm(m, 0, 3, [1.0, 0.0, 0.0, 1.0, 0.0, 0.0]);
    TwoSlotQuadraticForm(m, 1, 4, [0.0, 1.0, 0.0, 0.0, 1.0, 0.0]);
  }

  /** uᵗ·m·u for a u that is 1 in slots a and b and 0 elsewhere. */
  lemma TwoSlotQuadraticForm(m: Matrix, a: nat, b: nat, u: Vector)
    requires IsMatrix(m, 6, 6) && |u| == 6 && a < b < 6
    requires forall k :: 0 <= k < 6 ==> u[k] == if k == a || k == b then 1.0 else 0.0
    ensures Dot(u, MatVec(m, u)) == m[a][a] + m[a][b] + m[b][a] + m[b][b]
  {
    var v := MatVec(m, u);
    forall i | 0 <= i < 6
      ensures v[i] == m[i][a] + m[i][b]
    {
      Dot6(m[i], u);
    }
    Dot6(u, v);
  }

  /** Every material made by the LinearElastic constructor has density 0.0, so
      every mass matrix built from it vanishes. */
  lemma LinearElasticHasNoMass(e: Element, L: real, name: string, young: real, poisson: real)
    requires e.material == NewLinearElastic(name, young, poisson)
    ensures var m := LocalMass(e, L);
      forall i, j :: 0 <= i < |m| && 0 <= j < |m| ==> m[i][j] == 0.0
  {
  }

  /** With unit direction cosines the Bar2 projection has orthonormal rows. */
  lemma Bar2TransformationOrthonormal(c: real, s: real)
    requires c * c + s * s == 1.0
    ensures var t := Bar2Transformation(c, s);
      MatMul(t, Transpose(t, 4), 2) == Identity(2)
  {
    var t := Bar2Transformation(c, s);
    var tt := Transpose(t, 4);
    var p := MatMul(t, tt, 2);
    var id := Identity(2);
    forall i | 0 <= i < 2
      ensures p[i] == id[i]
    {
      forall j | 0 <= j < 2
        ensures p[i][j] == id[i][j]
      {
        assert p[i][j] == Dot(t[i], Col(tt, j));
        assert Col(tt, j) == t[j];
        Dot4(t[i], t[j]);
      }
    }
  }

  /** The first product of the bar's congruence: row i of Tᵗ·k is a·d[i]·[1, -1]. */
  lemma Bar2ProjectedStiffness(t: Matrix, k: Matrix, a: real, d: Vector)
    requires |d| == 4 && t == Bar2Transformation(d[0], d[1]) && d[2] == -d[0] && d[3] == -d[1]
    requires k == [[a, -a], [-a, a]]
    ensures var p := MatMul(Transpose(t, 4), k, 2);
      IsMatrix(p, 4, 2) && forall i :: 0 <= i < 4 ==> p[i][0] == a * d[i] && p[i][1] == -(a * d[i])
  {
    var tt := Transpose(t, 4);
    var p := MatMul(tt, k, 2);
    forall i | 0 <= i < 4
      ensures p[i][0] == a * d[i] && p[i][1] == -(a * d[i])
    {
      assert p[i] == VecMat(tt[i], k, 2);
      assert tt[i][0] == t[0][i] && tt[i][1] == t[1][i];
      Dot2(tt[i], Col(k, 0));
      Dot2(tt[i], Col(k, 1));
    }
  }

  /** `-EA/L` is the negated axial stiffness. */
  lemma Bar2LocalStiffnessEntries(ea: real, L: real, a: real)
    requires L > 0.0 && a == ea / L
    ensures Bar2LocalStiffness(ea, L) == [[a, -a], [-a, a]]
  {
    CancelPositive(-ea / L, -a, L);
  }

  /** `g` is the 4×4 matrix a·d·dᵗ. */
  predicate TrussMatrix(g: Matrix, a: real, d: Vector)
    requires |d| == 4
  {
    IsMatrix(g, 4, 4) && forall i, j :: 0 <= i < 4 && 0 <= j < 4 ==> g[i][j] == a * d[i] * d[j]
  }

  /** A bar's global stiffness is the textbook truss matrix a·d·dᵗ, with
      a = EA/L and d = [c, s, -c, -s]. */
  lemma Bar2GlobalStiffnessIsTrussMatrix(e: Element, L: real, a: real)
    requires e.kind == Bar2 && IsLength(e, L)
    requires a == AxialRigidity(e) / L
    ensures var cs := DirectionCosines(e, L);
      TrussMatrix(GlobalStiffness(e, L), a, [cs.0, cs.1, -cs.0, -cs.1])
  {
    var cs := DirectionCosines(e, L);
    var d := [cs.0, cs.1, -cs.0, -cs.1];
    var t, k := Transformation(e, L), LocalStiffness(e, L);
    Bar2GlobalStiffnessUnfolds(e, L);
    Bar2LocalStiffnessEntries(AxialRigidity(e), L, a);
    assert t == Bar2Transformation(d[0], d[1]);
    assert k == [[a, -a], [-a, a]];
    Bar2Congruence(t, k, a, d);
  }

  /** For a bar, the shared congruence is taken with the bar's own T and k. */
  lemma Bar2GlobalStiffnessUnfolds(e: Element, L: real)
    requires e.kind == Bar2 && IsLength(e, L)
    ensures var cs := DirectionCosines(e, L); Transformation(e, L) == Bar2Transformation(cs.0, cs.1)
    ensures LocalStiffness(e, L) == Bar2LocalStiffness(AxialRigidity(e), L)
    ensures var t := Transformation(e, L); var k := LocalStiffness(e, L);
      GlobalStiffness(e, L) == MatMul(MatMul(Transpose(t, 4), k, 2), t, 4)
  {
  }

  lemma Bar2Congruence(t: Matrix, k: Matrix, a: real, d: Vector)
    requires |d| == 4 && t == Bar2Transformation(d[0], d[1]) && d[2] == -d[0] && d[3] == -d[1]
    requires k == [[a, -a], [-a, a]]
    ensures IsMatrix(k, 2, 2)
    ensures TrussMatrix(MatMul(MatMul(Transpose(t, 4), k, 2), t, 4), a, d)
  {
    Bar2ProjectedStiffness(t, k, a, d);
    OuterProduct(MatMul(Transpose(t, 4), k, 2), t, a, d);
  }

  lemma OuterProduct(p: Matrix, t: Matrix, a: real, d: Vector)
    requires IsMatrix(p, 4, 2) && |d| == 4 && t == Bar2Transformation(d[0], d[1])
    requires d[2] == -d[0] && d[3] == -d[1]
    requires forall i :: 0 <= i < 4 ==> p[i][0] == a * d[i] && p[i][1] == -(a * d[i])
    ensures forall i, j :: 0 <= i < 4 && 0 <= j < 4 ==> MatMul(p, t, 4)[i][j] == a * d[i] * d[j]
  {
    var g := MatMul(p, t, 4);
    forall i, j | 0 <= i < 4 && 0 <= j < 4
      ensures g[i][j] == a * d[i] * d[j]
    {
      assert g[i] == VecMat(p[i], t, 4);
      assert g[i][j] == Dot(p[i], Col(t, j));
      Dot2(p[i], Col(t, j));
    }
  }

  /** The 2×2 rotation each node's translations go through. */
  function NodeRotation(c: real, s: real): (r: Matrix)
    ensures IsMatrix(r, 2, 2)
  {
    [[c, s], [-s, c]]
  }

  /** The beam transformation applies the same rotation to the translations of
      both nodes, and with unit direction cosines that rotation is orthogonal:
      Rᵗ·R = I. */
  lemma EulerBernoulliTransformationRotates(c: real, s: real)
    requires c * c + s * s == 1.0
    ensures var t, r := EulerBernoulliTransformation(c, s), NodeRotation(c, s);
      t[0][0..2] == r[0] && t[1][0..2] == r[1] && t[3][3..5] == r[0] && t[4][3..5] == r[1]
    ensures MatMul(Transpose(NodeRotation(c, s), 2), NodeRotation(c, s), 2) == Identity(2)
  {
    var t, r := EulerBernoulliTransformation(c, s), NodeRotation(c, s);
    assert t[0][0..2] == [c, s] && t[3][3..5] == [c, s];
    assert t[1][0..2] == [-s, c] && t[4][3..5] == [-s, c];
    var p := MatMul(Transpose(r, 2), r, 2);
    var u, v := Col(r, 0), Col(r, 1);
    assert u == [c, -s] && v == [s, c];
    assert p[0][0] == Dot(u, u) == c * c + s * s by { Dot2(u, u); }
    assert p[0][1] == Dot(u, v) == c * s - s * c by { Dot2(u, v); }
    assert p[1][0] == Dot(v, u) == s * c - c * s by { Dot2(v, u); }
    assert p[1][1] == Dot(v, v) == s * s + c * c by { Dot2(v, v); }
    var id := Identity(2);
    assert p[0] == [1.0, 0.0] == id[0];
    assert p[1] == [0.0, 1.0] == id[1];
  }

  // ---------------------------------------------------------------- layout of the local matrices

  /** The beam transformation is block diagonal per node (slots 0..2 belong to
      the start node, 3..5 to the end node) and passes rz (slots 2 and 5)
      through unchanged: its rows and columns are laid out node-major. */
  lemma EulerBernoulliTransformationLayout(c: real, s: real)
    ensures var t := EulerBernoulliTransformation(c, s);
      && (forall a, b :: 0 <= a < 6 && 0 <= b < 6 && a / 3 != b / 3 ==> t[a][b] == 0.0)
      && (forall b :: 0 <= b < 6 ==> t[2][b] == (if b == 2 then 1.0 else 0.0))
      && (forall b :: 0 <= b < 6 ==> t[5][b] == (if b == 5 then 1.0 else 0.0))
  {
  }

  /** The Bar2 projection reads columns 0..1 for the start node and 2..3 for the end node. */
  lemma Bar2TransformationLayout(c: real, s: real)
    ensures var t := Bar2Transformation(c, s);
      forall r, b :: 0 <= r < 2 && 0 <= b < 4 && b / 2 != r ==> t[r][b] == 0.0
  {
  }

  /** `dofs` names, slot by slot, a node-major layout over two nodes. */
  predicate MatchesLocalLayout(dofs: seq<GlobalDoF>, n0: Node, n1: Node, params: seq<Parameter>)
  {
    && |dofs| == 2 * |params|
    && forall q :: 0 <= q < |params| ==>
         dofs[q] == GlobalDoF(n0, params[q]) && dofs[|params| + q] == GlobalDoF(n1, params[q])
  }

  /** Bar2's DOF list agrees with the columns of its transformation. */
  lemma Bar2DofsMatchLayout(n0: Node, n1: Node)
    ensures MatchesLocalLayout(Bar2GlobalDofs([n0, n1]), n0, n1, Bar2Parameters)
  {
    TwoNodeGlobalDofs(n0, n1);
  }

  /** The beam's parameter-major DOF list does not: slot 1 of the matrices is the
      start node's dy, but the DOF list puts the end node's dx there. */
  lemma EulerBernoulliDofsMisaligned(n0: Node, n1: Node)
    requires n0 != n1
    ensures !MatchesLocalLayout(EulerBernoulliGlobalDofs([n0, n1]), n0, n1, EulerBernoulliParameters)
    ensures EulerBernoulliGlobalDofs([n0, n1])[1] == GlobalDoF(n1, Dx)
  {
    TwoNodeGlobalDofs(n0, n1);
    assert EulerBernoulliGlobalDofs([n0, n1])[1] != GlobalDoF(n0, EulerBernoulliParameters[1]);
  }

  /** The node-major beam DOF list, `[n.dx, n.dy, n.rz]` for each node in turn,
      which puts every DOF where the local matrices expect it. */
  function EulerBernoulliNodeMajorDofs(nodes: seq<Node>): (r: seq<GlobalDoF>)
    ensures |r| == 3 * |nodes|
    ensures forall k {:trigger nodes[k]} :: 0 <= k < |nodes| ==>
              && r[3 * k] == GlobalDoF(nodes[k], Dx)
              && r[3 * k + 1] == GlobalDoF(nodes[k], Dy)
              && r[3 * k + 2] == GlobalDoF(nodes[k], Rz)
  {
    if nodes == [] then []
    else
      var rest := EulerBernoulliNodeMajorDofs(nodes[1..]);
      assert forall k :: 1 <= k < |nodes| ==> nodes[1..][k - 1] == nodes[k];
      [GlobalDoF(nodes[0], Dx), GlobalDoF(nodes[0], Dy), GlobalDoF(nodes[0], Rz)] + rest
  }

  lemma EulerBernoulliNodeMajorDofsMatchLayout(n0: Node, n1: Node)
    ensures MatchesLocalLayout(EulerBernoulliNodeMajorDofs([n0, n1]), n0, n1, EulerBernoulliParameters)
  {
    var nodes := [n0, n1];
    var r := EulerBernoulliNodeMajorDofs(nodes);
    assert nodes[0] == n0 && nodes[1] == n1;
    assert r[0] == GlobalDoF(n0, Dx) && r[1] == GlobalDoF(n0, Dy) && r[2] == GlobalDoF(n0, Rz);
    assert r[3] == GlobalDoF(n1, Dx) && r[4] == GlobalDoF(n1, Dy) && r[5] == GlobalDoF(n1, Rz);
    var ps := EulerBernoulliParameters;
    forall q | 0 <= q < |ps|
      ensures r[q] == GlobalDoF(n0, ps[q]) && r[|ps| + q] == GlobalDoF(n1, ps[q])
    {
      if q == 0 { } else if q == 1 { } else { }
    }
  }

  // ---------------------------------------------------------------- a worked element

  /** A bar from (0,0) to (2,0) with area 1 and E = 100: length 2, axis along x,
      local stiffness [[50, -50], [-50, 50]] and four global DOFs. */
  lemma HorizontalBarExample()
    ensures var e := Element(Bar2, [NewNode([0.0, 0.0]), NewNode([2.0, 0.0])],
                             Section(1.0, 1.0), NewLinearElastic("test", 100.0, 0.35));
      && IsLength(e, 2.0)
      && DirectionCosines(e, 2.0) == (1.0, 0.0)
      && LocalStiffness(e, 2.0) == [[50.0, -50.0], [-50.0, 50.0]]
      && |GlobalDofs(e)| == 4
  {
  }
}
