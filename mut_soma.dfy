/** The soma of a mutable morphology (include/morphio/mut/soma.h). Its one
    piece of state is the point level: a vector of points and a vector of
    diameters. points() hands out the point vector itself, so the caller's
    edits change the soma; diameters() hands out a copy, so they do not. */
module MutSoma {
  import opened MutMorphology

  /** A std::vector: an object whose elements can be changed in place. */
  class Vector<T> {
    var elements: seq<T>

    constructor (elements: seq<T>)
      ensures this.elements == elements
    {
      this.elements := elements;
    }

    /** `v[i] = x` */
    method Set(i: nat, x: T)
      requires i < |elements|
      modifies this
      ensures elements == old(elements)[i := x]
    {
      elements := elements[i := x];
    }

    /** `v.push_back(x)` */
    method PushBack(x: T)
      modifies this
      ensures elements == old(elements) + [x]
    {
      elements := elements + [x];
    }
  }

  class Soma {
    /** _pointProperties._points */
    const points: Vector<Point>
    /** _pointProperties._diameters */
    const diameters: Vector<real>

    /** Soma(): no points, no diameters. */
    constructor ()
      ensures fresh(points) && fresh(diameters)
      ensures points.elements == [] && diameters.elements == []
    {
      points := new Vector([]);
      diameters := new Vector([]);
    }

    /** Soma(pointProperties): copies of the given point level. */
    constructor FromPointLevel(ps: seq<Point>, ds: seq<real>)
      ensures fresh(points) && fresh(diameters)
      ensures points.elements == ps && diameters.elements == ds
    {
      points := new Vector(ps);
      diameters := new Vector(ds);
    }

    /** points(): a reference to the stored vector, not a copy. Used through
        a const Soma, it is the same storage, read only. */
    function Points(): (v: Vector<Point>)
      ensures v == points
    {
      points
    }

    /** diameters(): a new vector holding the stored diameters. */
    method Diameters() returns (d: Vector<real>)
      ensures fresh(d) && d.elements == diameters.elements
    {
      d := new Vector(diameters.elements);
    }
  }

  /** An edit made through points() is an edit of the soma's points; its
      diameters are left alone. */
  method EditPoint(soma: Soma, i: nat, p: Point)
    requires i < |soma.points.elements|
    modifies soma.points
    ensures soma.points.elements == old(soma.points.elements)[i := p]
    ensures soma.Points().elements[i] == p
  {
    var v := soma.Points();
    v.Set(i, p);
  }

  /** An edit made to what diameters() returned changes the copy only: the
      soma's diameters and points are what they were. */
  method EditDiameterCopy(soma: Soma, i: nat, x: real) returns (copy: Vector<real>)
    requires i < |soma.diameters.elements|
    ensures fresh(copy) && copy.elements == old(soma.diameters.elements)[i := x]
    ensures soma.diameters.elements == old(soma.diameters.elements)
    ensures soma.points.elements == old(soma.points.elements)
  {
    copy := soma.Diameters();
    copy.Set(i, x);
  }
}
