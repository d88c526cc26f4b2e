/** Boundary conditions: a value bound to one global DOF
    (barman/prescribed_displacements.py, barman/prescribed_forces.py). */
module Prescriptions {
  import opened Dofs

  datatype PrescribedDisplacement = PrescribedDisplacement(globalDof: GlobalDoF, value: real)

  datatype PrescribedForce = PrescribedForce(globalDof: GlobalDoF, value: real)

  /** `get_values`: the one (DOF, value) pair a displacement prescribes. */
  function DisplacementValues(pd: PrescribedDisplacement): seq<(GlobalDoF, real)>
  {
    [(pd.globalDof, pd.value)]
  }

  /** The DOFs the prescribed displacements name, in declaration order. */
  function PrescribedDofs(pds: seq<PrescribedDisplacement>): (r: seq<GlobalDoF>)
    ensures |r| == |pds|
    ensures forall k :: 0 <= k < |pds| ==> r[k] == pds[k].globalDof
  {
    if pds == [] then [] else [DisplacementValues(pds[0])[0].0] + PrescribedDofs(pds[1..])
  }
}
