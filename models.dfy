/** The append-only model container `LinearStatic` (barman/models.py:24-88). */
module Models {
  import opened Outcomes
  import opened Dofs
  import opened Prescriptions
  import opened Elements

  /** What a caller may hand to an `append_*` method: the `isinstance` checks
      tell these cases apart. */
  datatype ModelObject =
    | ElementObject(element: Element)
    | DisplacementObject(displacement: PrescribedDisplacement)
    | ForceObject(force: PrescribedForce)
    | OtherModelObject(id: int)

  class LinearStatic {
    var elements: seq<Element>
    var prescribedDisplacements: seq<PrescribedDisplacement>
    var prescribedForces: seq<PrescribedForce>
    /** The links are stored and never read, so whatever is appended is kept as is. */
    var globalDofLinks: seq<ModelObject>

    /** `__init__`: a model starts out cleared. */
    constructor ()
      ensures elements == [] && prescribedDisplacements == [] && prescribedForces == []
      ensures globalDofLinks == []
    {
      elements := [];
      prescribedDisplacements := [];
      prescribedForces := [];
      globalDofLinks := [];
    }

    /** `clear`: all four lists become empty. */
    method Clear()
      modifies this
      ensures elements == [] && prescribedDisplacements == [] && prescribedForces == []
      ensures globalDofLinks == []
    {
      elements := [];
      prescribedDisplacements := [];
      prescribedForces := [];
      globalDofLinks := [];
    }

    /** `append_element`: appended at the end, with no check. */
    method AppendElement(element: Element)
      modifies this
      ensures elements == old(elements) + [element]
      ensures prescribedDisplacements == old(prescribedDisplacements)
      ensures prescribedForces == old(prescribedForces)
      ensures globalDofLinks == old(globalDofLinks)
    {
      elements := elements + [element];
    }

    /** `append_prescribed_displacement`: TypeError, and no change, unless the
        argument is a prescribed displacement. */
    method AppendPrescribedDisplacement(obj: ModelObject) returns (err: Option<Error>)
      modifies this
      ensures obj.DisplacementObject? ==>
                && err == None
                && prescribedDisplacements == old(prescribedDisplacements) + [obj.displacement]
      ensures !obj.DisplacementObject? ==>
                err == Some(TypeError) && prescribedDisplacements == old(prescribedDisplacements)
      ensures elements == old(elements) && prescribedForces == old(prescribedForces)
      ensures globalDofLinks == old(globalDofLinks)
    {
      if !obj.DisplacementObject? {
        return Some(TypeError);
      }
      prescribedDisplacements := prescribedDisplacements + [obj.displacement];
      err := None;
    }

    /** `append_prescribed_force`: TypeError, and no change, unless the argument is
        a prescribed force. */
    method AppendPrescribedForce(obj: ModelObject) returns (err: Option<Error>)
      modifies this
      ensures obj.ForceObject? ==>
                err == None && prescribedForces == old(prescribedForces) + [obj.force]
      ensures !obj.ForceObject? ==>
                err == Some(TypeError) && prescribedForces == old(prescribedForces)
      ensures elements == old(elements) && prescribedDisplacements == old(prescribedDisplacements)
      ensures globalDofLinks == old(globalDofLinks)
    {
      if !obj.ForceObject? {
        return Some(TypeError);
      }
      prescribedForces := prescribedForces + [obj.force];
      err := None;
    }

    /** `append_global_dof_link`: appended unconditionally; only the link list changes. */
    method AppendGlobalDofLink(link: ModelObject)
      modifies this
      ensures globalDofLinks == old(globalDofLinks) + [link]
      ensures elements == old(elements) && prescribedDisplacements == old(prescribedDisplacements)
      ensures prescribedForces == old(prescribedForces)
    {
      globalDofLinks := globalDofLinks + [link];
    }
  }
}
