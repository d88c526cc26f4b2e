/** The numbering of global DOFs that `get_global_dof_map` builds
    (barman/analysis.py:153-172): an insertion-ordered dictionary in which each
    DOF seen for the first time receives the current size of the dictionary. */
module DofMaps {
  import opened Dofs
  import opened Prescriptions
  import opened Elements

  type DofMap = map<GlobalDoF, nat>

  /** One registration: a DOF already present keeps its index, a new one gets `|m|`. */
  function Register(m: DofMap, d: GlobalDoF): (r: DofMap)
    ensures r.Keys == m.Keys + {d}
    ensures forall x :: x in m ==> r[x] == m[x]
    ensures d !in m ==> r[d] == |m|
  {
    if d in m then m else m[d := |m|]
  }

  /** Registering every DOF of `s`, first to last. */
  function RegisterAll(m: DofMap, s: seq<GlobalDoF>): DofMap
    decreases |s|
  {
    if s == [] then m else Register(RegisterAll(m, s[..|s| - 1]), s[|s| - 1])
  }

  /** The order in which the DOFs of `s` that `order` lacks are first seen, after `order`. */
  function Extend(order: seq<GlobalDoF>, s: seq<GlobalDoF>): seq<GlobalDoF>
    decreases |s|
  {
    if s == [] then order
    else
      var e := Extend(order, s[..|s| - 1]);
      if s[|s| - 1] in e then e else e + [s[|s| - 1]]
  }

  /** `m` numbers the DOFs of `order` by their position: a bijection between its
      keys and the indices `0 .. |order| - 1`. */
  predicate Numbers(m: DofMap, order: seq<GlobalDoF>)
  {
    && |m| == |order|
    && (forall i :: 0 <= i < |order| ==> order[i] in m && m[order[i]] == i)
    && (forall d :: d in m ==> m[d] < |order| && order[m[d]] == d)
  }

  /** Appending one registration keeps the numbering a bijection onto positions. */
  lemma RegisterNumbers(m: DofMap, order: seq<GlobalDoF>, d: GlobalDoF)
    requires Numbers(m, order)
    ensures Numbers(Register(m, d), if d in order then order else order + [d])
  {
    if d !in m {
      assert d !in order;
      var r, o := Register(m, d), order + [d];
      forall i | 0 <= i < |o|
        ensures o[i] in r && r[o[i]] == i
      {
        if i < |order| {
          assert o[i] == order[i];
        }
      }
    } else {
      assert order[m[d]] == d;
    }
  }

  /** Registering a sequence numbers the DOFs in order of first appearance. */
  lemma {:induction false} RegisterAllNumbers(m: DofMap, order: seq<GlobalDoF>, s: seq<GlobalDoF>)
    requires Numbers(m, order)
    ensures Numbers(RegisterAll(m, s), Extend(order, s))
    decreases |s|
  {
    if s != [] {
      RegisterAllNumbers(m, order, s[..|s| - 1]);
      RegisterNumbers(RegisterAll(m, s[..|s| - 1]), Extend(order, s[..|s| - 1]), s[|s| - 1]);
    }
  }

  /** The earlier order is a prefix of the extended one, and nothing else enters. */
  lemma {:induction false} ExtendPrefix(order: seq<GlobalDoF>, s: seq<GlobalDoF>)
    ensures |Extend(order, s)| >= |order| && Extend(order, s)[..|order|] == order
    ensures forall x :: x in Extend(order, s) <==> x in order || x in s
    decreases |s|
  {
    if s != [] {
      var init := s[..|s| - 1];
      ExtendPrefix(order, init);
      forall x | x in init
        ensures x in s
      {
        var k :| 0 <= k < |init| && init[k] == x;
        assert s[k] == x;
      }
      forall x | x in s
        ensures x in init || x == s[|s| - 1]
      {
        var k :| 0 <= k < |s| && s[k] == x;
        if k < |init| {
          assert init[k] == x;
        }
      }
    }
  }

  /** A DOF keeps the index it had: registration only adds. */
  lemma {:induction false} RegisterAllKeeps(m: DofMap, s: seq<GlobalDoF>)
    ensures forall d :: d in m ==> d in RegisterAll(m, s) && RegisterAll(m, s)[d] == m[d]
    decreases |s|
  {
    if s != [] {
      RegisterAllKeeps(m, s[..|s| - 1]);
    }
  }

  /** Registration adds exactly the DOFs of `s` to the keys. */
  lemma {:induction false} RegisterAllKeys(m: DofMap, s: seq<GlobalDoF>)
    ensures forall d :: d in RegisterAll(m, s) <==> d in m || d in s
    decreases |s|
  {
    if s != [] {
      var init, last := s[..|s| - 1], s[|s| - 1];
      RegisterAllKeys(m, init);
      assert s == init + [last];
      assert RegisterAll(m, s).Keys == RegisterAll(m, init).Keys + {last};
    }
  }

  /** Registering `s + [d]` is registering `s` and then `d`. */
  lemma RegisterAllSnoc(m: DofMap, s: seq<GlobalDoF>, d: GlobalDoF)
    ensures RegisterAll(m, s + [d]) == Register(RegisterAll(m, s), d)
  {
    assert (s + [d])[..|s|] == s;
  }

  /** Registering `a + b` is registering `a` and then `b`. */
  lemma {:induction false} RegisterAllAppend(m: DofMap, a: seq<GlobalDoF>, b: seq<GlobalDoF>)
    ensures RegisterAll(m, a + b) == RegisterAll(RegisterAll(m, a), b)
    decreases |b|
  {
    if b == [] {
      assert a + b == a;
    } else {
      var init, x := b[..|b| - 1], b[|b| - 1];
      assert a + b == (a + init) + [x] && b == init + [x];
      RegisterAllAppend(m, a, init);
      RegisterAllSnoc(m, a + init, x);
      RegisterAllSnoc(RegisterAll(m, a), init, x);
    }
  }

  // ---------------------------------------------------------------- get_global_dof_map

  /** Every DOF of every element, element by element, each in `get_global_dofs` order. */
  function ElementDofs(elements: seq<Element>): (r: seq<GlobalDoF>)
    decreases |elements|
  {
    if elements == [] then []
    else ElementDofs(elements[..|elements| - 1]) + GlobalDofs(elements[|elements| - 1])
  }

  lemma {:induction false} ElementDofsMembers(elements: seq<Element>)
    ensures forall e, d :: e in elements && d in GlobalDofs(e) ==> d in ElementDofs(elements)
    decreases |elements|
  {
    if elements != [] {
      var init := elements[..|elements| - 1];
      ElementDofsMembers(init);
      forall e, d | e in elements && d in GlobalDofs(e)
        ensures d in ElementDofs(elements)
      {
        var k :| 0 <= k < |elements| && elements[k] == e;
        if k < |init| {
          assert init[k] == e;
        }
      }
    }
  }

  /** The set of essential DOFs: those some prescribed displacement names. */
  function EssentialDofs(pds: seq<PrescribedDisplacement>): (s: set<GlobalDoF>)
    ensures forall d :: d in s <==> exists k :: 0 <= k < |pds| && pds[k].globalDof == d
  {
    set k | 0 <= k < |pds| :: pds[k].globalDof
  }

  /** The dictionary `get_global_dof_map` returns: essential DOFs first, then the
      element DOFs it has not seen. */
  function DofNumbering(pds: seq<PrescribedDisplacement>, elements: seq<Element>): DofMap
  {
    RegisterAll(RegisterAll(map[], PrescribedDofs(pds)), ElementDofs(elements))
  }

  /** The order the DOFs of that dictionary were inserted in. */
  function NumberingOrder(pds: seq<PrescribedDisplacement>, elements: seq<Element>): seq<GlobalDoF>
  {
    Extend(Extend([], PrescribedDofs(pds)), ElementDofs(elements))
  }

  /** Registering the prescribed DOFs alone numbers each distinct essential DOF
      by its first prescription. */
  lemma EssentialNumbering(pds: seq<PrescribedDisplacement>)
    ensures var m1, o1 := RegisterAll(map[], PrescribedDofs(pds)), Extend([], PrescribedDofs(pds));
      && Numbers(m1, o1)
      && m1.Keys == EssentialDofs(pds)
      && |EssentialDofs(pds)| == |o1|
  {
    var p := PrescribedDofs(pds);
    var m1 := RegisterAll(map[], p);
    RegisterAllNumbers(map[], [], p);
    RegisterAllKeys(map[], p);
    assert m1.Keys == EssentialDofs(pds) by {
      forall d | d in p
        ensures d in EssentialDofs(pds)
      {
        var k :| 0 <= k < |p| && p[k] == d;
      }
      forall d | d in EssentialDofs(pds)
        ensures d in p
      {
        var k :| 0 <= k < |pds| && pds[k].globalDof == d;
        assert p[k] == d;
      }
    }
    assert |m1.Keys| == |m1|;
  }

  /** The numbering is contiguous and injective: a bijection onto `0 .. N-1` given
      by the insertion order. */
  lemma DofNumberingIsContiguous(pds: seq<PrescribedDisplacement>, elements: seq<Element>)
    ensures Numbers(DofNumbering(pds, elements), NumberingOrder(pds, elements))
  {
    var p := PrescribedDofs(pds);
    EssentialNumbering(pds);
    RegisterAllNumbers(RegisterAll(map[], p), Extend([], p), ElementDofs(elements));
  }

  /** The essential DOFs are exactly those numbered below `|essential|`, in order of
      first prescription. */
  lemma EssentialDofsFirst(pds: seq<PrescribedDisplacement>, elements: seq<Element>)
    ensures var m, ess := DofNumbering(pds, elements), EssentialDofs(pds);
      && |ess| <= |NumberingOrder(pds, elements)|
      && NumberingOrder(pds, elements)[..|ess|] == Extend([], PrescribedDofs(pds))
      && (forall d :: d in ess ==> d in m && m[d] < |ess|)
      && (forall d :: d in m ==> (d in ess <==> m[d] < |ess|))
  {
    var p := PrescribedDofs(pds);
    var m1, o1 := RegisterAll(map[], p), Extend([], p);
    var els := ElementDofs(elements);
    EssentialNumbering(pds);
    DofNumberingIsContiguous(pds, elements);
    ExtendPrefix(o1, els);
    RegisterAllKeeps(m1, els);
    var m, order, ess := DofNumbering(pds, elements), NumberingOrder(pds, elements), EssentialDofs(pds);
    forall d | d in m && m[d] < |ess|
      ensures d in ess
    {
      assert order[m[d]] == d;
      assert order[..|ess|][m[d]] == o1[m[d]];
    }
  }

  /** The keys are the essential DOFs and the DOFs of the elements; in particular
      every DOF of every element is numbered. */
  lemma ElementDofsNumbered(pds: seq<PrescribedDisplacement>, elements: seq<Element>)
    ensures var m := DofNumbering(pds, elements);
      && (forall d :: d in m <==> d in EssentialDofs(pds) || d in ElementDofs(elements))
      && (forall e, d :: e in elements && d in GlobalDofs(e) ==> d in m)
  {
    var p := PrescribedDofs(pds);
    var m1, o1 := RegisterAll(map[], p), Extend([], p);
    var els := ElementDofs(elements);
    EssentialNumbering(pds);
    DofNumberingIsContiguous(pds, elements);
    ExtendPrefix(o1, els);
    ElementDofsMembers(elements);
    var m, order := DofNumbering(pds, elements), NumberingOrder(pds, elements);
    forall d
      ensures d in m <==> d in m1 || d in els
    {
      if d in m {
        assert order[m[d]] == d;
      }
      if d in order {
        var k :| 0 <= k < |order| && order[k] == d;
      }
    }
  }
}
