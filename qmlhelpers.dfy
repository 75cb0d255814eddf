/** The member bodies that the property macros of qqmlhelpers.h generate.

    QML_WRITABLE_PROPERTY and QML_READONLY_PROPERTY both give a class a
    member m_name, a getter get_name and a change-only-if-different setter
    (set_name for the writable form, update_name for the read-only one) that
    emits nameChanged (m_name) only when it assigned. QML_LIST_PROPERTY gives
    static count/clear/append/at helpers over a backing list m_NAME, reached
    through the object a QQmlListProperty points at. */
module QmlHelpers {

  /** What a generated setter leaves behind: the stored value and its result. */
  datatype Assignment<T> = Assignment(stored: T, changed: bool)

  /** The effect of set_name (v) / update_name (v) on the member m_name. */
  function Assign<T(==)>(stored: T, v: T): (a: Assignment<T>)
    ensures a.changed <==> stored != v
    ensures a.stored == v
  {
    if stored != v then Assignment(v, true) else Assignment(stored, false)
  }

  /** Setting the value just set changes nothing and reports false. */
  lemma AssignAgainIsNoChange<T>(stored: T, v: T)
    ensures Assign(Assign(stored, v).stored, v) == Assignment(v, false)
  {
  }

  /** The members generated by QML_WRITABLE_PROPERTY (type, name). */
  class WritableProperty<T(==)> {
    /** m_name */
    var value: T
    /** The argument of every nameChanged signal emitted so far, in order. */
    var emitted: seq<T>

    constructor (init: T)
      ensures value == init && emitted == []
    {
      value := init;
      emitted := [];
    }

    /** get_name () */
    function Get(): (v: T)
      reads this
    {
      value
    }

    /** set_name (v) */
    method Set(v: T) returns (ret: bool)
      modifies this
      ensures ret <==> old(value) != v
      ensures Get() == v
      ensures Assignment(value, ret) == Assign(old(value), v)
      ensures emitted == if ret then old(emitted) + [v] else old(emitted)
    {
      ret := value != v;
      if ret {
        value := v;
        emitted := emitted + [value];
      }
    }
  }

  /** The members generated by QML_READONLY_PROPERTY (type, name): the same
      as the writable form, but the setter is a C++-only update_name. */
  class ReadonlyProperty<T(==)> {
    /** m_name */
    var value: T
    /** The argument of every nameChanged signal emitted so far, in order. */
    var emitted: seq<T>

    constructor (init: T)
      ensures value == init && emitted == []
    {
      value := init;
      emitted := [];
    }

    /** get_name () */
    function Get(): (v: T)
      reads this
    {
      value
    }

    /** update_name (v) */
    method Update(v: T) returns (ret: bool)
      modifies this
      ensures ret <==> old(value) != v
      ensures Get() == v
      ensures Assignment(value, ret) == Assign(old(value), v)
      ensures emitted == if ret then old(emitted) + [v] else old(emitted)
    {
      ret := value != v;
      if ret {
        value := v;
        emitted := emitted + [value];
      }
    }
  }

  /** An object of the class QML_LIST_PROPERTY (CLASS, NAME, TYPE) was
      expanded in; list is its member m_NAME. */
  class ListHost {
    var list: seq<object>

    constructor ()
      ensures list == []
    {
      list := [];
    }
  }

  /** qobject_cast<CLASS *> (prop->object): the object as a list host, or null
      when it is null or of another class. */
  function Instance(obj: object?): (instance: ListHost?)
    ensures instance != null ==> instance == obj
    ensures obj is ListHost ==> instance == obj
  {
    if obj is ListHost then obj as ListHost else null
  }

  /** NAME_count (prop) */
  function ListCount(obj: object?): (n: int)
    reads obj
    ensures Instance(obj) == null ==> n == 0
    ensures Instance(obj) != null ==> n == |Instance(obj).list|
  {
    var instance := Instance(obj);
    if instance != null then |instance.list| else 0
  }

  /** NAME_clear (prop) */
  method ListClear(obj: object?)
    modifies Instance(obj)
    ensures Instance(obj) != null ==> Instance(obj).list == []
  {
    var instance := Instance(obj);
    if instance != null {
      instance.list := [];
    }
  }

  /** NAME_append (prop, item): a null host or a null item leaves the list as it was. */
  method ListAppend(obj: object?, item: object?)
    modifies Instance(obj)
    ensures Instance(obj) != null ==>
      Instance(obj).list == old(Instance(obj).list) + (if item != null then [item] else [])
  {
    var instance := Instance(obj);
    if instance != null && item != null {
      instance.list := instance.list + [item];
    }
  }

  /** NAME_at (prop, idx); QList::at demands a valid index. */
  function ListAt(obj: object?, idx: int): (item: object?)
    reads obj
    requires Instance(obj) != null ==> 0 <= idx < |Instance(obj).list|
    ensures Instance(obj) == null ==> item == null
    ensures Instance(obj) != null ==> item == Instance(obj).list[idx]
  {
    var instance := Instance(obj);
    if instance != null then instance.list[idx] else null
  }
}
