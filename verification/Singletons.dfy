/** The life of the one `Context` that Python may hold, and of the objects that live with it
    (`libmambapy/bindings/legacy.cpp`). */
module Singletons {
  import opened Wrappers

  class Context {
  }

  class SingletonSet {
    const context: Context

    constructor ()
      ensures fresh(context)
    {
      context := new Context;
    }
  }

  /** A Python object that owns a context. */
  class Handle {
    const context: Context

    constructor (context: Context)
      ensures this.context == context
    {
      this.context := context;
    }
  }

  class Library {
    var current: SingletonSet?
    ghost var alive: set<Handle>

    /** At most one handle is alive, it leads into the current set, and there is a current set
        just while one is. */
    ghost predicate Valid()
      reads this, alive, current
    {
      && (forall h, g | h in alive && g in alive :: h == g)
      && (current == null <==> alive == {})
      && (current != null ==> forall h <- alive :: h.context == current.context)
    }

    constructor ()
      ensures Valid() && alive == {}
    {
      current, alive := null, {};
    }

    /** The accessor: it fails exactly when no context is alive. */
    method GetSingletons() returns (s: Option<SingletonSet>)
      requires Valid()
      ensures s.None? <==> alive == {}
      ensures s.Some? ==> forall h <- alive :: h.context == s.value.context
    {
      if current == null {
        return None;
      }
      return Some(current);
    }

    /** The constructor of `Context`: refused while another one is alive. */
    method NewContext() returns (h: Option<Handle>)
      requires Valid()
      modifies this
      ensures Valid()
      ensures h.Some? <==> old(alive) == {}
      ensures h.None? ==> unchanged(this)
      ensures h.Some? ==> fresh(h.value) && fresh(h.value.context) && alive == {h.value}
    {
      if current != null {
        return None;
      }
      var s := new SingletonSet();
      current := s;
      var handle := new Handle(s.context);
      alive := {handle};
      return Some(handle);
    }

    /** The deleter of the handle: the whole set goes with it. */
    method Destroy(h: Handle)
      requires Valid() && h in alive
      modifies this
      ensures Valid() && alive == {} && current == null
    {
      current := null;
      alive := alive - {h};
    }
  }
}
