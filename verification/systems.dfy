/**
 The system handles the core stores and hands out.

 In the program every unit of work is an object of one of four concrete
 classes derived from one polymorphic base, and the core only ever holds a
 shared pointer to that base. Here a pointer is a value: either null, or an
 object identity together with the object's dynamic class, drawn from the
 closed set of classes the program defines. A checked downcast then becomes
 a comparison of class tags.
 */
module Systems {

  /** The concrete system classes; every handle's dynamic type is one of these. */
  datatype Kind = EventKind | RenderKind | InputKind | WindowKind

  /** A shared pointer to a system: null, or object `id` whose dynamic class is `kind`. */
  datatype Handle = Null | Sys(id: nat, kind: Kind)

  /** The type a caller asks for: the common base interface, or one concrete class. */
  datatype Requested = AnySystem | Exactly(kind: Kind)

  /** True iff `h` points at an object that is an instance of the requested type. */
  predicate IsA(h: Handle, t: Requested) {
    h.Sys? && (t.AnySystem? || h.kind == t.kind)
  }

  /**
   A checked downcast of a shared pointer: the same object when its dynamic
   type is the requested one, and null otherwise (including for a null input).
   */
  function Cast(h: Handle, t: Requested): (r: Handle)
    ensures r == Null || r == h
    ensures r != Null <==> IsA(h, t)
  {
    if IsA(h, t) then h else Null
  }

  /** Casting to the base interface never loses a non-null object. */
  lemma CastToBaseKeeps(h: Handle)
    ensures Cast(h, AnySystem) == h
  {
  }

  /** A cast that succeeded can be repeated: casting twice is casting once. */
  lemma CastIdempotent(h: Handle, t: Requested)
    ensures Cast(Cast(h, t), t) == Cast(h, t)
  {
  }

  /** Since the concrete classes are leaves, a cast to one class and then to another distinct one is null. */
  lemma CastDisjoint(h: Handle, k1: Kind, k2: Kind)
    requires k1 != k2
    ensures Cast(h, Exactly(k1)) == Null || Cast(h, Exactly(k2)) == Null
  {
  }
}
