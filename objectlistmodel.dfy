/** QQmlObjectListModel<ItemType> of qqmlobjectlistmodel.h: an ordered list
    of item references exposed to a view as a list model, with a cached count,
    a role table derived from the item type's properties, an index of the
    items by the text of one designated property, and an ownership rule
    (adopt items without a parent, delete only the items it adopted).

    Qt's meta-object reflection is replaced by an explicit list of property
    descriptors; an item is an object carrying a map from property name to
    value, its parent and a flag telling whether deleteLater was called. The
    notifications a view would receive are kept as a log. */
module ObjectModel {
  import opened QtString
  import opened QmlHelpers

  /** Qt::DisplayRole */
  const DisplayRole: int := 0
  /** Qt::UserRole, the model's baseRole (): the role of the item itself. */
  const UserRole: int := 256
  /** Property names the model refuses as role names (they clash with
      names the QML engine gives delegates). */
  const RoleNamesBlacklist: set<string> := {"id", "index", "class", "model", "modelData"}

  /** The type of a property value. */
  datatype Kind = IntKind | StringKind | ObjectKind

  /** One meta-property of the item type: its name, its type, whether it
      has a WRITE accessor and whether it has a NOTIFY signal. */
  datatype PropertyDescriptor = PropertyDescriptor(name: string, kind: Kind, writable: bool, notifies: bool)

  /** A QVariant as far as this model needs one: invalid, an int, a string,
      or a pointer to an object. */
  datatype Value = Invalid | IntV(i: int) | StrV(s: string) | ObjectV(obj: object)

  /** Whether a value can be stored in a property of the given type without
      conversion. */
  predicate HasKind(v: Value, k: Kind)
  {
    match v
    case Invalid => false
    case IntV(_) => k == IntKind
    case StrV(_) => k == StringKind
    case ObjectV(_) => k == ObjectKind
  }

  /** QVariant::toString (): the text of an int or a string, empty otherwise. */
  function ToQString(v: Value): (s: string)
    ensures v.StrV? ==> s == v.s
    ensures v.IntV? ==> s == Number(v.i) && s != ""
    ensures v.Invalid? || v.ObjectV? ==> s == ""
  {
    match v
    case IntV(i) => Number(i)
    case StrV(s) => s
    case _ => ""
  }

  /** A notification to the view, logged at the begin of a row change
      (beginInsertRows, beginRemoveRows), or a dataChanged or countChanged
      signal. */
  datatype Event =
    | RowsInserted(first: int, last: int)
    | RowsRemoved(first: int, last: int)
    | DataChanged(row: int, roles: seq<int>)
    | CountChanged

  /** A QObject of the item type. */
  class Item {
    /** The current value of each property, by name. */
    var props: map<string, Value>
    /** QObject::parent (): the owner of the object, if any. */
    var parent: object?
    /** deleteLater () was called on the object. */
    var destroyed: bool

    constructor (props: map<string, Value>, parent: object?)
      ensures this.props == props && this.parent == parent && !destroyed
    {
      this.props := props;
      this.parent := parent;
      destroyed := false;
    }

    /** QObject::property (name): invalid when there is no such property. */
    function Property(name: string): (v: Value)
      reads this`props
      ensures name in props ==> v == props[name]
      ensures name !in props ==> v == Invalid
    {
      if name in props then props[name] else Invalid
    }

    /** The setter set_name (v) that QML_WRITABLE_PROPERTY generates for the
        property name; changed tells whether it assigned (and so emitted
        nameChanged). */
    method Write(name: string, v: Value) returns (changed: bool)
      modifies this`props
      ensures Assignment(Property(name), changed) == Assign(old(Property(name)), v)
      ensures props == if changed then old(props)[name := v] else old(props)
      ensures name in old(props) || v != Invalid ==> props == old(props)[name := v]
    {
      changed := Property(name) != v;
      if changed {
        props := props[name := v];
      }
    }
  }

  // ---------------------------------------------------------------------
  // Sequences: the QList operations the model performs on m_items.

  /** QList::takeAt (i) as a list: s without its i-th element. */
  function Removed<T>(s: seq<T>, i: int): (r: seq<T>)
    requires 0 <= i < |s|
    ensures |r| == |s| - 1
  {
    s[..i] + s[i + 1..]
  }

  /** The elements before i keep their positions, those after it move one
      position down. */
  lemma RemovedSpec<T>(s: seq<T>, i: int)
    requires 0 <= i < |s|
    ensures forall j :: 0 <= j < i ==> Removed(s, i)[j] == s[j]
    ensures forall j :: i <= j < |s| - 1 ==> Removed(s, i)[j] == s[j + 1]
  {
  }

  /** QList::insert (i, x) as a list. */
  function Inserted<T>(s: seq<T>, i: int, x: T): (r: seq<T>)
    requires 0 <= i <= |s|
    ensures |r| == |s| + 1 && r[i] == x
  {
    s[..i] + [x] + s[i..]
  }

  /** The elements before i keep their positions, those from i on move one
      position up. */
  lemma InsertedSpec<T>(s: seq<T>, i: int, x: T)
    requires 0 <= i <= |s|
    ensures forall j :: 0 <= j < i ==> Inserted(s, i, x)[j] == s[j]
    ensures forall j :: i <= j < |s| ==> Inserted(s, i, x)[j + 1] == s[j]
  {
  }

  /** Removing at i what was inserted at i restores the list; taking an
      element out and putting it back where it was restores it too. */
  lemma InsertedRemoved<T>(s: seq<T>, i: int, x: T)
    requires 0 <= i <= |s|
    ensures Removed(Inserted(s, i, x), i) == s
    ensures i < |s| ==> Inserted(Removed(s, i), i, s[i]) == s
  {
  }

  /** QList::move (from, to): take the element at from out and insert it
      again at to. */
  function Moved<T>(s: seq<T>, from: int, to: int): (r: seq<T>)
    requires 0 <= from < |s| && 0 <= to < |s|
    ensures |r| == |s| && r[to] == s[from]
  {
    Inserted(Removed(s, from), to, s[from])
  }

  /** Inserting right after a middle part extends that part. */
  lemma InsertedAfter<T>(a: seq<T>, n: seq<T>, b: seq<T>, x: T)
    ensures Inserted(a + n + b, |a| + |n|, x) == a + (n + [x]) + b
  {
  }

  /** Splicing at position 0 puts the new elements in front. */
  lemma SplicedAtFront<T>(s: seq<T>, n: seq<T>)
    ensures s[..0] + n + s[0..] == n + s
  {
  }

  /** A move keeps the length and the elements, puts the moved element at
      to, and leaves every other element in its relative order. */
  lemma MovedSpec<T>(s: seq<T>, from: int, to: int)
    requires 0 <= from < |s| && 0 <= to < |s|
    ensures |Moved(s, from, to)| == |s|
    ensures Moved(s, from, to)[to] == s[from]
    ensures multiset(Moved(s, from, to)) == multiset(s)
    ensures Removed(Moved(s, from, to), to) == Removed(s, from)
  {
    var rest := Removed(s, from);
    var m := Moved(s, from, to);
    var a, b := rest[..to], rest[to..];
    var p, q := s[..from], s[from + 1..];
    assert rest == a + b && rest == p + q;
    assert m == a + [s[from]] + b;
    assert s == p + [s[from]] + q;
    assert multiset(m) == multiset(a) + multiset(b) + multiset([s[from]]);
    assert multiset(s) == multiset(p) + multiset(q) + multiset([s[from]]);
    assert multiset(a) + multiset(b) == multiset(rest) == multiset(p) + multiset(q);
    assert m[..to] == a && m[to + 1..] == b;
    assert Removed(m, to) == a + b;
  }

  /** Moving back undoes a move. */
  lemma MovedBack<T>(s: seq<T>, from: int, to: int)
    requires 0 <= from < |s| && 0 <= to < |s|
    ensures |Moved(s, from, to)| == |s|
    ensures Moved(Moved(s, from, to), to, from) == s
  {
    MovedSpec(s, from, to);
    var m := Moved(s, from, to);
    assert Removed(m, to) == Removed(s, from);
    assert Inserted(Removed(s, from), from, s[from]) == s;
  }

  /** A move changes which elements the list holds not at all. */
  lemma MovedMembers<T>(s: seq<T>, from: int, to: int, x: T)
    requires 0 <= from < |s| && 0 <= to < |s|
    ensures x in Moved(s, from, to) <==> x in s
  {
    MovedSpec(s, from, to);
    assert x in Moved(s, from, to) <==> x in multiset(Moved(s, from, to));
    assert x in s <==> x in multiset(s);
  }

  /** QList::indexOf (x): the first position of x, or -1. */
  function FirstIndex<T(==)>(s: seq<T>, x: T): (r: int)
    ensures -1 <= r < |s|
    ensures r == -1 <==> x !in s
    ensures r >= 0 ==> s[r] == x && x !in s[..r]
  {
    if s == [] then -1
    else if s[0] == x then 0
    else
      var k := FirstIndex(s[1..], x);
      assert s[1..][..k + 1] == s[1..k + 2] by { }
      if k < 0 then -1 else k + 1
  }

  /** The entries of a list that FOREACH_PTR_IN_QLIST visits: the non-null
      ones, in order. */
  function NonNull(s: seq<Item?>): (r: seq<Item?>)
    ensures null !in r
    ensures |r| <= |s|
  {
    if s == [] then []
    else NonNull(s[..|s| - 1]) + (if s[|s| - 1] != null then [s[|s| - 1]] else [])
  }

  /** The non-null entries of s, as a set. */
  function ItemSet(s: seq<Item?>): (r: set<Item>)
  {
    set x: Item | x in s
  }

  /** The set holds exactly the non-null entries of the list. */
  lemma ItemSetMember(s: seq<Item?>, x: Item)
    ensures x in ItemSet(s) <==> x in s
  {
  }

  lemma ItemSetOne(x: Item?)
    ensures ItemSet([x]) == if x != null then {x} else {}
  {
  }

  /** The entries of a concatenation are those of its parts. */
  lemma ItemSetConcat(a: seq<Item?>, b: seq<Item?>)
    ensures ItemSet(a + b) == ItemSet(a) + ItemSet(b)
  {
  }

  /** Dropping the null entries drops no item. */
  lemma {:induction false} ItemSetNonNull(s: seq<Item?>)
    ensures ItemSet(NonNull(s)) == ItemSet(s)
  {
    if s != [] {
      var n := |s| - 1;
      ItemSetNonNull(s[..n]);
      ItemSetConcat(NonNull(s[..n]), if s[n] != null then [s[n]] else []);
      ItemSetOne(s[n]);
    }
  }

  /** Inserting an entry adds it to the items. */
  lemma ItemSetInserted(s: seq<Item?>, i: int, x: Item?)
    requires 0 <= i <= |s|
    ensures ItemSet(Inserted(s, i, x)) == ItemSet(s) + ItemSet([x])
  {
  }

  /** Removing an entry leaves the other entries' items. */
  lemma ItemSetRemoved(s: seq<Item?>, i: int)
    requires 0 <= i < |s|
    ensures ItemSet(s) == ItemSet(Removed(s, i)) + ItemSet([s[i]])
  {
  }

  /** A move keeps the items. */
  lemma ItemSetMoved(s: seq<Item?>, from: int, to: int)
    requires 0 <= from < |s| && 0 <= to < |s|
    ensures ItemSet(Moved(s, from, to)) == ItemSet(s)
  {
    ItemSetRemoved(s, from);
    ItemSetInserted(Removed(s, from), to, s[from]);
  }

  /** Splicing the non-null entries of xs into s at idx adds the items of xs. */
  lemma ItemSetSpliced(s: seq<Item?>, idx: int, xs: seq<Item?>)
    requires 0 <= idx <= |s|
    ensures ItemSet(s[..idx] + NonNull(xs) + s[idx..]) == ItemSet(s) + ItemSet(xs)
  {
    ItemSetConcat(s[..idx] + NonNull(xs), s[idx..]);
    ItemSetConcat(s[..idx], NonNull(xs));
    ItemSetConcat(s[..idx], s[idx..]);
    ItemSetNonNull(xs);
    assert s == s[..idx] + s[idx..];
  }

  /** Extending the list by one entry extends the visited entries by it
      when it is not null. */
  lemma NonNullPrefix(s: seq<Item?>, k: int)
    requires 0 <= k < |s|
    ensures NonNull(s[..k + 1]) == NonNull(s[..k]) + (if s[k] != null then [s[k]] else [])
    ensures ItemSet(s[..k + 1]) == ItemSet(s[..k]) + ItemSet([s[k]])
    ensures s[..k + 1] == s[..k] + [s[k]]
  {
    assert s[..k + 1][..k] == s[..k];
    ItemSetConcat(s[..k], [s[k]]);
  }

  // ---------------------------------------------------------------------
  // The uid index.

  /** No item is stored under two keys. */
  ghost predicate Injective(index: map<string, Item>)
  {
    forall k, k' :: k in index && k' in index && k != k' ==> index[k] != index[k']
  }

  /** The index without the keys under which x was stored. */
  function Unindexed(index: map<string, Item>, x: Item): (r: map<string, Item>)
    ensures r.Keys <= index.Keys && x !in r.Values
    ensures forall k :: k in r ==> r[k] == index[k]
  {
    map k | k in index && index[k] != x :: index[k]
  }

  /** What referenceItem and the change handler make of the index for an
      item whose uid text is key: its previous key is dropped, and it is
      stored under key unless key is empty. */
  function Reindexed(index: map<string, Item>, x: Item, key: string): (r: map<string, Item>)
    ensures key != "" ==> key in r && r[key] == x
    ensures r.Keys <= index.Keys + {key}
  {
    var rest := Unindexed(index, x);
    if key != "" then rest[key := x] else rest
  }

  /** After reindexing, x is stored under key and under no other key, and
      every other entry of the index is kept unless it was another key of x
      or was replaced by key. */
  lemma ReindexedSpec(index: map<string, Item>, x: Item, key: string)
    ensures var r := Reindexed(index, x, key);
      && (key != "" ==> key in r && r[key] == x)
      && (forall k :: k in r && k != key ==> k in index && r[k] == index[k] && index[k] != x)
      && (forall k :: k in index && index[k] != x && k != key ==> k in r)
      && (forall k :: k in r && r[k] == x ==> k == key && key != "")
  {
  }

  /** The key of x in keys, "" when it has none. */
  function KeyFor(keys: map<Item, string>, x: Item): string
  {
    if x in keys then keys[x] else ""
  }

  /** The index after reindexing each non-null entry of xs in turn, each
      under its key in keys. */
  function ReindexedAll(index: map<string, Item>, xs: seq<Item?>, keys: map<Item, string>): map<string, Item>
  {
    if xs == [] then index
    else
      var n := |xs| - 1;
      var before := ReindexedAll(index, xs[..n], keys);
      if xs[n] == null then before else Reindexed(before, xs[n], KeyFor(keys, xs[n]))
  }

  /** Extending the list by one entry reindexes that entry. */
  lemma ReindexedAllPrefix(index: map<string, Item>, xs: seq<Item?>, keys: map<Item, string>, k: int)
    requires 0 <= k < |xs|
    ensures var before := ReindexedAll(index, xs[..k], keys);
      ReindexedAll(index, xs[..k + 1], keys) == if xs[k] == null then before else Reindexed(before, xs[k], KeyFor(keys, xs[k]))
  {
    assert xs[..k + 1][..k] == xs[..k];
  }

  /** Reindexing keeps the index free of empty keys and of items stored
      twice. */
  lemma ReindexedInjective(index: map<string, Item>, x: Item, key: string)
    requires Injective(index) && "" !in index
    ensures Injective(Reindexed(index, x, key)) && "" !in Reindexed(index, x, key)
  {
  }

  /** Unindexing x drops x from the stored items and nothing else, and keeps
      the index free of empty keys and of items stored twice. */
  lemma UnindexedSpec(index: map<string, Item>, x: Item)
    ensures Unindexed(index, x).Values == index.Values - {x}
    ensures Injective(index) ==> Injective(Unindexed(index, x))
    ensures "" !in index ==> "" !in Unindexed(index, x)
  {
    var r := Unindexed(index, x);
    forall v | v in index.Values - {x}
      ensures v in r.Values
    {
      var k :| k in index && index[k] == v;
      assert r[k] == v;
    }
  }

  /** Reindexing x stores no item but x that was not stored before. */
  lemma ReindexedValues(index: map<string, Item>, x: Item, key: string)
    ensures Reindexed(index, x, key).Values <= index.Values + {x}
  {
  }

  /** Reindexing each entry of xs in turn keeps the index well formed and
      stores no new item but the entries of xs. */
  lemma {:induction false} ReindexedAllBounds(index: map<string, Item>, xs: seq<Item?>, keys: map<Item, string>)
    requires Injective(index) && "" !in index
    ensures Injective(ReindexedAll(index, xs, keys)) && "" !in ReindexedAll(index, xs, keys)
    ensures ReindexedAll(index, xs, keys).Values <= index.Values + ItemSet(xs)
  {
    if xs != [] {
      var n := |xs| - 1;
      var before := ReindexedAll(index, xs[..n], keys);
      ReindexedAllBounds(index, xs[..n], keys);
      if xs[n] != null {
        ReindexedInjective(before, xs[n], KeyFor(keys, xs[n]));
        ReindexedValues(before, xs[n], KeyFor(keys, xs[n]));
      }
    }
  }

  /** A map that stores no value is empty. */
  lemma EmptyValues(m: map<string, Item>)
    requires m.Values == {}
    ensures m == map[]
  {
  }

  // ---------------------------------------------------------------------
  // The role table, built once by the constructor.

  /** m_roles after the constructor has looked at the first n properties:
      "display" under Qt::DisplayRole when there is a display role name,
      "qtObject" under baseRole (), and property i under baseRole () + 1 + i
      unless its name is blacklisted. */
  function RoleTable(props: seq<PropertyDescriptor>, hasDisplay: bool, n: nat): (r: map<int, string>)
    requires n <= |props|
    ensures UserRole in r && r[UserRole] == "qtObject"
    ensures DisplayRole in r <==> hasDisplay
  {
    if n == 0 then
      (if hasDisplay then map[DisplayRole := "display"] else map[])[UserRole := "qtObject"]
    else
      var before := RoleTable(props, hasDisplay, n - 1);
      if props[n - 1].name in RoleNamesBlacklist then before else before[UserRole + n := props[n - 1].name]
  }

  /** m_signalIdxToRole after the first n properties, keyed by the property
      whose NOTIFY signal it is: the role of every notifying property that
      got a role. */
  function SignalTable(props: seq<PropertyDescriptor>, n: nat): (r: map<string, int>)
    requires n <= |props|
    ensures |r| <= n
  {
    if n == 0 then map[]
    else
      var before := SignalTable(props, n - 1);
      var p := props[n - 1];
      if p.name !in RoleNamesBlacklist && p.notifies then before[p.name := UserRole + n] else before
  }

  /** The names qWarning reports as refused role names, in order. */
  function RejectedNames(props: seq<PropertyDescriptor>, n: nat): (r: seq<string>)
    requires n <= |props|
    ensures |r| <= n
    ensures forall i :: 0 <= i < |r| ==> r[i] in RoleNamesBlacklist
  {
    if n == 0 then []
    else RejectedNames(props, n - 1) + (if props[n - 1].name in RoleNamesBlacklist then [props[n - 1].name] else [])
  }

  /** The role table holds exactly the two reserved roles and one role per
      property whose name is not blacklisted, at baseRole () + 1 + its index. */
  lemma {:induction false} RoleTableSpec(props: seq<PropertyDescriptor>, hasDisplay: bool, n: nat, role: int)
    requires n <= |props|
    ensures role == UserRole ==> role in RoleTable(props, hasDisplay, n) && RoleTable(props, hasDisplay, n)[role] == "qtObject"
    ensures role == DisplayRole ==>
      (role in RoleTable(props, hasDisplay, n) <==> hasDisplay) &&
      (hasDisplay ==> RoleTable(props, hasDisplay, n)[role] == "display")
    ensures UserRole < role <= UserRole + n ==>
      (role in RoleTable(props, hasDisplay, n) <==> props[role - UserRole - 1].name !in RoleNamesBlacklist) &&
      (role in RoleTable(props, hasDisplay, n) ==> RoleTable(props, hasDisplay, n)[role] == props[role - UserRole - 1].name)
    ensures role in RoleTable(props, hasDisplay, n) ==> role == DisplayRole || UserRole <= role <= UserRole + n
  {
    if n > 0 {
      RoleTableSpec(props, hasDisplay, n - 1, role);
    }
  }

  /** A property's notifier is mapped to the role of a property of that name
      that notifies and is not blacklisted; and every such name is mapped. */
  lemma {:induction false} SignalTableSpec(props: seq<PropertyDescriptor>, n: nat, name: string)
    requires n <= |props|
    ensures name in SignalTable(props, n) ==>
      var role := SignalTable(props, n)[name];
      UserRole < role <= UserRole + n &&
      props[role - UserRole - 1].name == name &&
      props[role - UserRole - 1].notifies && name !in RoleNamesBlacklist
    ensures (exists i :: 0 <= i < n && props[i].name == name && props[i].notifies && name !in RoleNamesBlacklist) ==>
      name in SignalTable(props, n)
  {
    if n > 0 {
      SignalTableSpec(props, n - 1, name);
      var p := props[n - 1];
      if exists i :: 0 <= i < n && props[i].name == name && props[i].notifies && name !in RoleNamesBlacklist {
        var i :| 0 <= i < n && props[i].name == name && props[i].notifies && name !in RoleNamesBlacklist;
        if i < n - 1 {
          assert name in SignalTable(props, n - 1);
        }
      }
    }
  }

  /** Every role a notifier stands for is a role of the table, named after
      the property. */
  lemma SignalRoleIsRole(props: seq<PropertyDescriptor>, hasDisplay: bool, name: string)
    requires name in SignalTable(props, |props|)
    ensures var role := SignalTable(props, |props|)[name];
      role in RoleTable(props, hasDisplay, |props|) && RoleTable(props, hasDisplay, |props|)[role] == name
  {
    SignalTableSpec(props, |props|, name);
    RoleTableSpec(props, hasDisplay, |props|, SignalTable(props, |props|)[name]);
  }

  /** QHash::key (value, defaultKey): a key stored with value, or
      defaultKey when there is none. */
  method KeyOf(m: map<int, string>, value: string, defaultKey: int) returns (key: int)
    ensures value in m.Values ==> key in m && m[key] == value
    ensures value !in m.Values ==> key == defaultKey
  {
    var keys := m.Keys;
    while keys != {}
      invariant keys <= m.Keys
      invariant forall k :: k in m.Keys - keys ==> m[k] != value
      decreases keys
    {
      if forall k :: k !in keys {
        assert false;
      }
      var k :| k in keys;
      if m[k] == value {
        return k;
      }
      keys := keys - {k};
    }
    assert forall k :: k in m.Keys ==> m[k] != value;
    return defaultKey;
  }

  /** The index of the first property of that name, or -1. */
  function FindProperty(props: seq<PropertyDescriptor>, name: string): (i: int)
    ensures -1 <= i < |props|
    ensures i >= 0 ==> props[i].name == name && forall j :: 0 <= j < i ==> props[j].name != name
    ensures i == -1 <==> forall j :: 0 <= j < |props| ==> props[j].name != name
  {
    if props == [] then -1
    else if props[0].name == name then 0
    else
      var k := FindProperty(props[1..], name);
      if k < 0 then -1 else k + 1
  }

  // ---------------------------------------------------------------------

  class ObjectListModel {
    /** m_count: the count last announced with countChanged. */
    var count: int
    /** m_uidRoleName: the property whose text keys the uid index ("" for none). */
    const uidRoleName: string
    /** m_dispRoleName: the property shown under Qt::DisplayRole ("" for none). */
    const dispRoleName: string
    /** The item type's meta-properties, in declaration order. */
    const properties: seq<PropertyDescriptor>
    /** m_roles */
    const roles: map<int, string>
    /** m_signalIdxToRole, keyed by the property whose notifier it is. */
    const signalRoles: map<string, int>
    /** The property names the constructor refused, in order. */
    const rejected: seq<string>
    /** m_items */
    var items: seq<Item?>
    /** m_indexByUid */
    var indexByUid: map<string, Item>
    /** The items whose notifiers are connected to onItemPropertyChanged. */
    var connected: set<Item>
    /** The notifications emitted to the view, in order. */
    var events: seq<Event>

    /** The bookkeeping that holds between operations. */
    ghost predicate Valid()
      reads this`count, this`items, this`indexByUid, this`connected
    {
      && count == |items|
      && Tracked(items)
    }

    /** The role table and the notifier table are the ones the constructor
        builds from the item type's properties (they never change). */
    ghost predicate Built()
    {
      && roles == RoleTable(properties, dispRoleName != "", |properties|)
      && signalRoles == SignalTable(properties, |properties|)
    }

    /** The uid index has no empty key, stores no item twice, and is empty
        when there is no uid role. */
    ghost predicate IndexWellFormed()
      reads this`indexByUid
    {
      && (uidRoleName == "" ==> indexByUid == map[])
      && "" !in indexByUid
      && Injective(indexByUid)
    }

    /** The uid index and the connections refer to items of s only. */
    ghost predicate Tracked(s: seq<Item?>)
      reads this`indexByUid, this`connected
    {
      && IndexWellFormed()
      && indexByUid.Values <= ItemSet(s)
      && connected <= ItemSet(s)
    }

    /** Every key of the index is the current uid text of its item. */
    ghost predicate IndexSound()
      reads this`indexByUid, indexByUid.Values`props
    {
      forall k :: k in indexByUid ==> UidOf(indexByUid[k]) == k
    }

    /** Every key of the index, except those of x, is the current uid text of
        its item: what remains after x's uid property changed. */
    ghost predicate IndexSoundExcept(x: Item)
      reads this`indexByUid, indexByUid.Values`props
    {
      forall k :: k in indexByUid && indexByUid[k] != x ==> UidOf(indexByUid[k]) == k
    }

    constructor (properties: seq<PropertyDescriptor>, displayRole: string, uidRole: string)
      ensures Valid() && Built()
      ensures this.properties == properties && dispRoleName == displayRole && uidRoleName == uidRole
      ensures rejected == RejectedNames(properties, |properties|)
      ensures count == 0 && items == [] && indexByUid == map[] && connected == {} && events == []
    {
      var r: map<int, string> := if displayRole != "" then map[DisplayRole := "display"] else map[];
      r := r[UserRole := "qtObject"];
      var signals: map<string, int> := map[];
      var refused: seq<string> := [];
      var propertyIdx := 0;
      var role := UserRole + 1;
      while propertyIdx < |properties|
        invariant 0 <= propertyIdx <= |properties|
        invariant role == UserRole + 1 + propertyIdx
        invariant r == RoleTable(properties, displayRole != "", propertyIdx)
        invariant signals == SignalTable(properties, propertyIdx)
        invariant refused == RejectedNames(properties, propertyIdx)
      {
        var p := properties[propertyIdx];
        if p.name !in RoleNamesBlacklist {
          r := r[role := p.name];
          if p.notifies {
            signals := signals[p.name := role];
          }
        } else {
          refused := refused + [p.name];
        }
        propertyIdx := propertyIdx + 1;
        role := role + 1;
      }
      count := 0;
      uidRoleName := uidRole;
      dispRoleName := displayRole;
      this.properties := properties;
      roles := r;
      signalRoles := signals;
      rejected := refused;
      items := [];
      indexByUid := map[];
      connected := {};
      events := [];
    }

    // -------------------------------------------------------------------
    // Lookups.

    /** item->property (m_uidRoleName).toString () */
    function UidOf(x: Item): (key: string)
      reads x`props
      ensures x.Property(uidRoleName).StrV? ==> key == x.Property(uidRoleName).s
      ensures x.Property(uidRoleName).IntV? ==> key == Number(x.Property(uidRoleName).i) && key != ""
      ensures x.Property(uidRoleName).Invalid? ==> key == ""
    {
      ToQString(x.Property(uidRoleName))
    }

    /** The owner an item has once the model referenced it. */
    function Adopted(p: object?): object?
    {
      if p == null then this else p
    }

    /** The items whose notifiers referenceItem connects when it sees the
        entries of xs: all non-null ones, provided the item type has a
        notifying property with a role. */
    function Connecting(xs: seq<Item?>): set<Item>
    {
      if signalRoles != map[] then ItemSet(xs) else {}
    }

    /** The role name stored for a role, "" when there is none. */
    function RoleName(role: int): string
    {
      if role in roles then roles[role] else ""
    }

    /** The role of the notifier of property name, -1 when it has none. */
    function SignalRole(name: string): int
    {
      if name in signalRoles then signalRoles[name] else -1
    }

    /** The property a role reads and writes: m_dispRoleName for
        Qt::DisplayRole, the role's name otherwise. */
    function PropertyForRole(role: int): string
    {
      if role != DisplayRole then RoleName(role) else dispRoleName
    }

    /** The index after referenceItem has seen x. */
    function IndexedWith(index: map<string, Item>, x: Item?): map<string, Item>
      reads {x}`props
    {
      if x == null || uidRoleName == "" then index else Reindexed(index, x, UidOf(x))
    }

    /** The uid text of each item of s. */
    function UidMap(s: set<Item>): (keys: map<Item, string>)
      reads s`props
      ensures keys.Keys == s
      ensures forall x :: x in s ==> keys[x] == UidOf(x)
    {
      map x | x in s :: UidOf(x)
    }

    /** The index after referenceItem has seen each entry of xs in turn, an
        item x having the uid text keys[x]. */
    function IndexedWithKeys(index: map<string, Item>, xs: seq<Item?>, keys: map<Item, string>): map<string, Item>
    {
      if uidRoleName == "" then index else ReindexedAll(index, xs, keys)
    }

    /** at (idx): the item at idx, or null when idx is out of range. */
    function At(idx: int): (r: Item?)
      reads this`items
      ensures 0 <= idx < |items| ==> r == items[idx]
      ensures idx < 0 || idx >= |items| ==> r == null
    {
      if idx >= 0 && idx < |items| then items[idx] else null
    }

    /** getByUid (uid) */
    function GetByUid(uid: string): (r: Item?)
      reads this`count, this`items, this`indexByUid, this`connected
      ensures r != null <==> uid in indexByUid
      ensures r != null ==> r == indexByUid[uid]
      ensures Valid() && r != null ==> uid != "" && r in items
    {
      if indexByUid != map[] && uid in indexByUid then
        var r := indexByUid[uid];
        assert r in indexByUid.Values;
        ItemSetMember(items, r);
        r
      else null
    }

    /** count () */
    function Count(): (n: int)
      reads this`count, this`items, this`indexByUid, this`connected
      ensures Valid() ==> n == |items|
    {
      count
    }

    /** size () */
    function Size(): (n: int)
      reads this`count, this`items, this`indexByUid, this`connected
      ensures Valid() ==> n == |items|
    {
      count
    }

    /** isEmpty () */
    function IsEmpty(): (b: bool)
      reads this`count, this`items, this`indexByUid, this`connected
      ensures b <==> items == []
      ensures Valid() ==> (b <==> Count() == 0)
    {
      |items| == 0
    }

    /** contains (item) */
    function Contains(item: Item?): (b: bool)
      reads this`items
      ensures b <==> exists i :: 0 <= i < |items| && At(i) == item && item == items[i]
    {
      item in items
    }

    /** indexOf (item): the first row holding item, -1 when there is none. */
    function IndexOf(item: Item?): (row: int)
      reads this`items
      ensures row == -1 <==> !Contains(item)
      ensures row != -1 ==> At(row) == item && forall j :: 0 <= j < row ==> At(j) != item
    {
      FirstIndex(items, item)
    }

    /** indexOf (uid): the row of the item indexed under uid. */
    function IndexOfUid(uid: string): (row: int)
      reads this`count, this`items, this`indexByUid, this`connected
      ensures Valid() && uid in indexByUid ==> 0 <= row < |items| && At(row) == GetByUid(uid)
    {
      IndexOf(GetByUid(uid))
    }

    /** first (); QList::first demands a non-empty list. */
    function First(): (r: Item?)
      reads this`items
      requires items != []
      ensures r == At(0)
    {
      items[0]
    }

    /** last (); QList::last demands a non-empty list. */
    function Last(): (r: Item?)
      reads this`count, this`items, this`indexByUid, this`connected
      requires items != []
      ensures Valid() ==> r == At(Count() - 1)
    {
      items[|items| - 1]
    }

    /** roleForName (name): some role stored under name, -1 when none is. */
    method RoleForName(name: string) returns (role: int)
      requires Built()
      ensures role == -1 <==> name !in roles.Values
      ensures role != -1 ==> role in roles && roles[role] == name
    {
      role := KeyOf(roles, name, -1);
      if role != -1 {
        RoleTableSpec(properties, dispRoleName != "", |properties|, role);
      } else if name in roles.Values {
        RoleTableSpec(properties, dispRoleName != "", |properties|, -1);
      }
    }

    /** data (index, role): the value of the role's property for the item at
        row; the item itself for baseRole (); invalid for an out-of-range row,
        a null entry or an unknown role. */
    function Data(row: int, role: int): (v: Value)
      reads this`items, items`props
      ensures v != Invalid ==> At(row) != null
      ensures At(row) != null && role == UserRole && PropertyForRole(role) != "" ==> v == ObjectV(At(row))
      ensures At(row) != null && role != UserRole && PropertyForRole(role) != "" ==>
        v == At(row).Property(PropertyForRole(role))
      ensures PropertyForRole(role) == "" ==> v == Invalid
    {
      var item := At(row);
      var roleName := PropertyForRole(role);
      if item != null && roleName != "" then
        (if role != UserRole then item.Property(roleName) else ObjectV(item))
      else Invalid
    }

    /** Whether item->setProperty (name, v) writes: name is a writable
        property of the item type and v has its type. */
    function CanWrite(name: string, v: Value): (b: bool)
      ensures b ==> v != Invalid
      ensures b <==> exists i ::
                       && 0 <= i < |properties| && properties[i].name == name
                       && (forall j :: 0 <= j < i ==> properties[j].name != name)
                       && properties[i].writable && HasKind(v, properties[i].kind)
    {
      var i := FindProperty(properties, name);
      i >= 0 && properties[i].writable && HasKind(v, properties[i].kind)
    }

    // -------------------------------------------------------------------
    // Reference bookkeeping.

    /** updateCounter () */
    method UpdateCounter()
      modifies this`count, this`events
      ensures count == |items|
      ensures events == old(events) + (if old(count) != |items| then [CountChanged] else [])
    {
      if count != |items| {
        count := |items|;
        events := events + [CountChanged];
      }
    }

    /** Removes the key under which item is indexed, if any (the
        m_indexByUid.key (item) lookup and remove shared by referenceItem,
        dereferenceItem and onItemPropertyChanged). */
    method Unindex(item: Item)
      requires Injective(indexByUid) && "" !in indexByUid
      modifies this`indexByUid
      ensures indexByUid == Unindexed(old(indexByUid), item)
    {
      var key := "";
      if item in indexByUid.Values {
        key :| key in indexByUid && indexByUid[key] == item;
      }
      if key != "" {
        assert indexByUid - {key} == Unindexed(indexByUid, item);
        indexByUid := indexByUid - {key};
      } else {
        assert indexByUid == Unindexed(indexByUid, item);
      }
    }

    /** Stores item under its current uid text, after dropping its previous
        key. */
    method Index(item: Item)
      requires Injective(indexByUid) && "" !in indexByUid
      modifies this`indexByUid
      ensures indexByUid == Reindexed(old(indexByUid), item, UidOf(item))
      ensures Injective(indexByUid) && "" !in indexByUid
      ensures indexByUid.Values <= old(indexByUid).Values + {item}
    {
      ReindexedInjective(indexByUid, item, UidOf(item));
      ReindexedValues(indexByUid, item, UidOf(item));
      Unindex(item);
      var value := UidOf(item);
      if value != "" {
        indexByUid := indexByUid[value := item];
      }
    }

    /** referenceItem (item): adopt the item when it has no parent, connect
        its notifiers when some property notifies, and index it under its uid
        text. */
    method ReferenceItem(item: Item?)
      requires IndexWellFormed()
      modifies this`indexByUid, this`connected, {item}`parent
      ensures IndexWellFormed()
      ensures item != null ==> item.parent == Adopted(old(item.parent))
      ensures connected == old(connected) + Connecting([item])
      ensures indexByUid == IndexedWith(old(indexByUid), item)
      ensures indexByUid.Values <= old(indexByUid).Values + ItemSet([item])
    {
      ItemSetOne(item);
      if item != null {
        if item.parent == null {
          item.parent := this;
        }
        if signalRoles != map[] {
          connected := connected + {item};
        }
        if uidRoleName != "" {
          Index(item);
        }
      }
    }

    /** dereferenceItem (item), called once item left the list (or, for
        clear (), just before): disconnect, unindex, and delete it when the
        model owns it. */
    method DereferenceItem(item: Item?)
      requires IndexWellFormed()
      modifies this`indexByUid, this`connected, {item}`destroyed
      ensures IndexWellFormed()
      ensures connected == old(connected) - ItemSet([item])
      ensures indexByUid.Values == old(indexByUid).Values - ItemSet([item])
      ensures item == null ==> indexByUid == old(indexByUid)
      ensures item != null ==>
        && indexByUid == Unindexed(old(indexByUid), item)
        && item.destroyed == (old(item.destroyed) || item.parent == this)
    {
      ItemSetOne(item);
      if item != null {
        UnindexedSpec(indexByUid, item);
        connected := connected - {item};
        if uidRoleName != "" {
          Unindex(item);
        } else {
          assert indexByUid == Unindexed(indexByUid, item);
        }
        if item.parent == this {
          item.destroyed := true;
        }
      }
    }

    // -------------------------------------------------------------------
    // Mutations.

    /** The destroyed flag of each item of s. */
    function DestroyedMap(s: set<Item>): (ds: map<Item, bool>)
      reads s`destroyed
      ensures ds.Keys == s
      ensures forall x :: x in s ==> ds[x] == x.destroyed
    {
      map x | x in s :: x.destroyed
    }

    /** What dereferenceItem has made of the index, the connections and the
        destroyed flags once clear () has seen the first k entries of xs,
        starting from an index with values values0, conn0 and destroyed0. */
    ghost predicate DereferencedUpTo(xs: seq<Item?>, k: int, values0: set<Item>, conn0: set<Item>,
                                     destroyed0: map<Item, bool>)
      reads this`indexByUid, this`connected, ItemSet(xs)`destroyed, ItemSet(xs)`parent
    {
      && 0 <= k <= |xs|
      && IndexWellFormed()
      && indexByUid.Values <= values0 - ItemSet(xs[..k])
      && connected == conn0 - ItemSet(xs[..k])
      && forall x :: x in ItemSet(xs) ==>
           x in destroyed0 && x.destroyed == (if x in xs[..k] then destroyed0[x] || x.parent == this else destroyed0[x])
    }

    /** One turn of the loop of clear (): entry k is dereferenced. */
    method DereferenceEntry(xs: seq<Item?>, k: int, ghost values0: set<Item>, ghost conn0: set<Item>,
                            ghost destroyed0: map<Item, bool>)
      requires k < |xs| && DereferencedUpTo(xs, k, values0, conn0, destroyed0)
      modifies this`indexByUid, this`connected, {xs[k]}`destroyed
      ensures DereferencedUpTo(xs, k + 1, values0, conn0, destroyed0)
    {
      var item := xs[k];
      assert xs[..k + 1] == xs[..k] + [item];
      DereferenceItem(item);
    }

    /** clear () */
    method Clear()
      requires Valid()
      modifies this`items, this`count, this`indexByUid, this`connected, this`events, items`destroyed
      ensures Valid()
      ensures old(items) == [] ==> events == old(events) && indexByUid == old(indexByUid) && connected == old(connected)
      ensures old(items) != [] ==> events == old(events) + [RowsRemoved(0, |old(items)| - 1)] + [CountChanged]
      ensures items == [] && indexByUid == map[] && connected == {}
      ensures forall x: Item :: x in old(items) ==> x.destroyed == (old(x.destroyed) || x.parent == this)
    {
      if items != [] {
        events := events + [RowsRemoved(0, |items| - 1)];
        ghost var destroyed0 := DestroyedMap(ItemSet(items));
        assert items[..0] == [];
        var k := 0;
        while k < |items|
          invariant items == old(items) && count == old(count)
          invariant events == old(events) + [RowsRemoved(0, |items| - 1)]
          invariant DereferencedUpTo(items, k, old(indexByUid).Values, old(connected), destroyed0)
        {
          DereferenceEntry(items, k, old(indexByUid).Values, old(connected), destroyed0);
          k := k + 1;
        }
        assert items[..k] == items;
        EmptyValues(indexByUid);
        items := [];
        UpdateCounter();
      }
    }

    /** append (item) */
    method Append(item: Item?)
      requires Valid()
      modifies this`items, this`count, this`indexByUid, this`connected, this`events, {item}`parent
      ensures Valid()
      ensures item == null ==>
        items == old(items) && indexByUid == old(indexByUid) && connected == old(connected) && events == old(events)
      ensures item != null ==>
        && items == old(items) + [item]
        && events == old(events) + [RowsInserted(|old(items)|, |old(items)|), CountChanged]
        && item.parent == Adopted(old(item.parent))
        && indexByUid == IndexedWith(old(indexByUid), item)
        && connected == old(connected) + Connecting([item])
    {
      if item != null {
        var pos := |items|;
        events := events + [RowsInserted(pos, pos)];
        ItemSetConcat(items, [item]);
        items := items + [item];
        ReferenceItem(item);
        UpdateCounter();
      }
    }

    /** prepend (item) */
    method Prepend(item: Item?)
      requires Valid()
      modifies this`items, this`count, this`indexByUid, this`connected, this`events, {item}`parent
      ensures Valid()
      ensures item == null ==>
        items == old(items) && indexByUid == old(indexByUid) && connected == old(connected) && events == old(events)
      ensures item != null ==>
        && items == [item] + old(items)
        && events == old(events) + [RowsInserted(0, 0), CountChanged]
        && item.parent == Adopted(old(item.parent))
        && indexByUid == IndexedWith(old(indexByUid), item)
        && connected == old(connected) + Connecting([item])
    {
      if item != null {
        events := events + [RowsInserted(0, 0)];
        ItemSetConcat([item], items);
        items := [item] + items;
        ReferenceItem(item);
        UpdateCounter();
      }
    }

    /** insert (idx, item); QList::insert demands 0 <= idx <= size. */
    method Insert(idx: int, item: Item?)
      requires Valid()
      requires item != null ==> 0 <= idx <= |items|
      modifies this`items, this`count, this`indexByUid, this`connected, this`events, {item}`parent
      ensures Valid()
      ensures item == null ==>
        items == old(items) && indexByUid == old(indexByUid) && connected == old(connected) && events == old(events)
      ensures item != null ==>
        && items == Inserted(old(items), idx, item)
        && events == old(events) + [RowsInserted(idx, idx), CountChanged]
        && item.parent == Adopted(old(item.parent))
        && indexByUid == IndexedWith(old(indexByUid), item)
        && connected == old(connected) + Connecting([item])
    {
      if item != null {
        events := events + [RowsInserted(idx, idx)];
        ItemSetInserted(items, idx, item);
        items := Inserted(items, idx, item);
        ReferenceItem(item);
        UpdateCounter();
      }
    }

    /** The parent of each item of s. */
    function ParentMap(s: set<Item>): (ps: map<Item, object?>)
      reads s`parent
      ensures ps.Keys == s
      ensures forall x :: x in s ==> ps[x] == x.parent
    {
      map x | x in s :: x.parent
    }

    /** The items of all whose parents were parents0, once referenceItem has
        seen those of done: these are adopted, the others untouched. */
    ghost predicate AdoptedUpTo(done: set<Item>, all: set<Item>, parents0: map<Item, object?>)
      reads all`parent
    {
      forall x :: x in all ==> x in parents0 && x.parent == (if x in done then Adopted(parents0[x]) else parents0[x])
    }

    /** What referenceItem has made of the index, the connections and the
        parents once it has seen the first k entries of xs, starting from
        index0, conn0 and parents0; uids holds the uid text of each item. */
    ghost predicate ReferencedUpTo(xs: seq<Item?>, k: int, index0: map<string, Item>, conn0: set<Item>,
                                   uids: map<Item, string>, parents0: map<Item, object?>)
      reads this`indexByUid, this`connected, ItemSet(xs)`parent, ItemSet(xs)`props
    {
      && 0 <= k <= |xs|
      && IndexWellFormed()
      && uids == UidMap(ItemSet(xs))
      && indexByUid == IndexedWithKeys(index0, xs[..k], uids)
      && connected == conn0 + Connecting(xs[..k])
      && AdoptedUpTo(ItemSet(xs[..k]), ItemSet(xs), parents0)
    }

    /** Before the loop nothing has been referenced. */
    lemma ReferencedNone(xs: seq<Item?>)
      requires IndexWellFormed()
      ensures ReferencedUpTo(xs, 0, indexByUid, connected, UidMap(ItemSet(xs)), ParentMap(ItemSet(xs)))
    {
    }

    /** After the loop every entry has been referenced. */
    lemma ReferencedAll(xs: seq<Item?>, index0: map<string, Item>, conn0: set<Item>,
                        uids: map<Item, string>, parents0: map<Item, object?>)
      requires ReferencedUpTo(xs, |xs|, index0, conn0, uids, parents0)
      ensures IndexWellFormed()
      ensures indexByUid == IndexedWithKeys(index0, xs, uids)
      ensures connected == conn0 + Connecting(xs)
      ensures forall x: Item :: x in xs ==> x in parents0 && x.parent == Adopted(parents0[x])
    {
      assert xs[..|xs|] == xs;
      forall x: Item | x in xs
        ensures x in ItemSet(xs)
      {
        ItemSetMember(xs, x);
      }
    }

    /** One turn of the FOREACH_PTR_IN_QLIST loops that reference the entries
        of a list: entry k is referenced unless it is null. */
    method ReferenceEntry(xs: seq<Item?>, k: int, ghost index0: map<string, Item>, ghost conn0: set<Item>,
                          ghost uids: map<Item, string>, ghost parents0: map<Item, object?>)
      requires k < |xs| && ReferencedUpTo(xs, k, index0, conn0, uids, parents0)
      modifies this`indexByUid, this`connected, {xs[k]}`parent
      ensures ReferencedUpTo(xs, k + 1, index0, conn0, uids, parents0)
    {
      var item := xs[k];
      NonNullPrefix(xs, k);
      ReindexedAllPrefix(index0, xs, uids, k);
      ghost var before := ParentMap(ItemSet(xs));
      if item != null {
        ReferenceItem(item);
      }
      AdoptedStep(ItemSet(xs[..k]), item, ItemSet(xs), parents0, before);
    }

    /** referenceItem (item) adopts item and no other item: the parents
        were before, as AdoptedUpTo (done, all, parents0) describes, and are
        now those of done and item adopted. */
    lemma AdoptedStep(done: set<Item>, item: Item?, all: set<Item>, parents0: map<Item, object?>,
                      before: map<Item, object?>)
      requires forall x :: x in all ==>
        x in parents0 && x in before && before[x] == (if x in done then Adopted(parents0[x]) else parents0[x])
      requires item != null && item in all ==> item.parent == Adopted(before[item])
      requires forall x :: x in all && x != item ==> x.parent == before[x]
      ensures AdoptedUpTo(done + ItemSet([item]), all, parents0)
    {
    }

    /** The index and connections after referencing xs keep to the items
        of s when they did before and s holds the entries of xs. */
    lemma TrackedAfterReferencing(s: seq<Item?>, index0: map<string, Item>, xs: seq<Item?>, keys: map<Item, string>)
      requires IndexWellFormed() && ItemSet(xs) <= ItemSet(s)
      requires (uidRoleName == "" ==> index0 == map[]) && "" !in index0 && Injective(index0) && index0.Values <= ItemSet(s)
      requires indexByUid == IndexedWithKeys(index0, xs, keys)
      requires connected <= ItemSet(s)
      ensures Tracked(s)
    {
      ReindexedAllBounds(index0, xs, keys);
    }

    /** The loop of append (itemList): each non-null entry is referenced. */
    method ReferenceAll(itemList: seq<Item?>)
      requires IndexWellFormed()
      modifies this`indexByUid, this`connected, itemList`parent
      ensures IndexWellFormed()
      ensures indexByUid == IndexedWithKeys(old(indexByUid), itemList, old(UidMap(ItemSet(itemList))))
      ensures connected == old(connected) + Connecting(itemList)
      ensures forall x: Item :: x in itemList ==> x.parent == Adopted(old(x.parent))
    {
      ghost var uids := UidMap(ItemSet(itemList));
      ghost var parents0 := ParentMap(ItemSet(itemList));
      ReferencedNone(itemList);
      var k := 0;
      while k < |itemList|
        invariant ReferencedUpTo(itemList, k, old(indexByUid), old(connected), uids, parents0)
      {
        ReferenceEntry(itemList, k, old(indexByUid), old(connected), uids, parents0);
        k := k + 1;
      }
      ReferencedAll(itemList, old(indexByUid), old(connected), uids, parents0);
    }

    /** append (itemList): every entry is stored, null ones included; the
        non-null ones are referenced. The log records beginInsertRows once
        the items are in: nothing is logged in between. */
    method AppendAll(itemList: seq<Item?>)
      requires Valid()
      modifies this`items, this`count, this`indexByUid, this`connected, this`events, itemList`parent
      ensures Valid()
      ensures itemList == [] ==>
        items == old(items) && indexByUid == old(indexByUid) && connected == old(connected) && events == old(events)
      ensures itemList != [] ==>
        && items == old(items) + itemList
        && events == old(events) + [RowsInserted(|old(items)|, |old(items)| + |itemList| - 1)] + [CountChanged]
        && indexByUid == IndexedWithKeys(old(indexByUid), itemList, old(UidMap(ItemSet(itemList))))
        && connected == old(connected) + Connecting(itemList)
      ensures forall x: Item :: x in itemList ==> x.parent == Adopted(old(x.parent))
    {
      if itemList != [] {
        var pos := |items|;
        items := items + itemList;
        ReferenceAll(itemList);
        events := events + [RowsInserted(pos, pos + |itemList| - 1)];
        ItemSetConcat(old(items), itemList);
        TrackedAfterReferencing(items, old(indexByUid), itemList, old(UidMap(ItemSet(itemList))));
        UpdateCounter();
      }
    }

    /** The list once the loop of prepend (itemList) / insert (idx, itemList)
        has stored the non-null ones of the first k entries of xs, offset of
        them, after position idx of items0. */
    ghost predicate InsertedUpTo(items0: seq<Item?>, idx: int, xs: seq<Item?>, k: int, offset: int)
      reads this`items
    {
      && 0 <= idx <= |items0| && 0 <= k <= |xs|
      && offset == |NonNull(xs[..k])|
      && items == items0[..idx] + NonNull(xs[..k]) + items0[idx..]
    }

    /** The m_items.insert (idx + offset, item) of one turn of the loop of
        prepend (itemList) / insert (idx, itemList): a non-null entry k is
        stored at idx + offset and the offset moves past it. */
    method StoreEntry(idx: int, xs: seq<Item?>, k: int, offset: int, ghost items0: seq<Item?>) returns (next: int)
      requires k < |xs| && InsertedUpTo(items0, idx, xs, k, offset)
      modifies this`items
      ensures InsertedUpTo(items0, idx, xs, k + 1, next)
    {
      var item := xs[k];
      NonNullPrefix(xs, k);
      next := offset;
      if item != null {
        InsertedAfter(items0[..idx], NonNull(xs[..k]), items0[idx..], item);
        items := Inserted(items, idx + offset, item);
        next := offset + 1;
      }
    }

    /** The loop of prepend (itemList) and insert (idx, itemList): each
        non-null entry is stored after the ones before it, starting at idx,
        and referenced. */
    method InsertEach(idx: int, itemList: seq<Item?>)
      requires IndexWellFormed() && 0 <= idx <= |items|
      modifies this`items, this`indexByUid, this`connected, itemList`parent
      ensures IndexWellFormed()
      ensures items == old(items)[..idx] + NonNull(itemList) + old(items)[idx..]
      ensures indexByUid == IndexedWithKeys(old(indexByUid), itemList, old(UidMap(ItemSet(itemList))))
      ensures connected == old(connected) + Connecting(itemList)
      ensures forall x: Item :: x in itemList ==> x.parent == Adopted(old(x.parent))
    {
      ghost var uids := UidMap(ItemSet(itemList));
      ghost var parents0 := ParentMap(ItemSet(itemList));
      ReferencedNone(itemList);
      assert itemList[..0] == [];
      var offset := 0;
      var k := 0;
      while k < |itemList|
        invariant 0 <= k <= |itemList|
        invariant InsertedUpTo(old(items), idx, itemList, k, offset)
        invariant ReferencedUpTo(itemList, k, old(indexByUid), old(connected), uids, parents0)
      {
        offset := StoreEntry(idx, itemList, k, offset, old(items));
        // referenceItem (item), for the same non-null entries
        ReferenceEntry(itemList, k, old(indexByUid), old(connected), uids, parents0);
        k := k + 1;
      }
      assert itemList[..k] == itemList;
      ReferencedAll(itemList, old(indexByUid), old(connected), uids, parents0);
    }

    /** prepend (itemList): the non-null entries go to the front, in order.
        The log records beginInsertRows once the items are in: nothing is
        logged in between. */
    method PrependAll(itemList: seq<Item?>)
      requires Valid()
      modifies this`items, this`count, this`indexByUid, this`connected, this`events, itemList`parent
      ensures Valid()
      ensures itemList == [] ==>
        items == old(items) && indexByUid == old(indexByUid) && connected == old(connected) && events == old(events)
      ensures itemList != [] ==>
        && items == NonNull(itemList) + old(items)
        && events == old(events) + [RowsInserted(0, |itemList| - 1)] + (if NonNull(itemList) != [] then [CountChanged] else [])
        && indexByUid == IndexedWithKeys(old(indexByUid), itemList, old(UidMap(ItemSet(itemList))))
        && connected == old(connected) + Connecting(itemList)
      ensures forall x: Item :: x in itemList ==> x.parent == Adopted(old(x.parent))
    {
      if itemList != [] {
        InsertEach(0, itemList);
        events := events + [RowsInserted(0, |itemList| - 1)];
        ItemSetSpliced(old(items), 0, itemList);
        TrackedAfterReferencing(items, old(indexByUid), itemList, old(UidMap(ItemSet(itemList))));
        SplicedAtFront(old(items), NonNull(itemList));
        UpdateCounter();
      }
    }

    /** insert (idx, itemList): the non-null entries go to idx, in order;
        QList::insert demands 0 <= idx <= size. The log records
        beginInsertRows once the items are in. */
    method InsertAll(idx: int, itemList: seq<Item?>)
      requires Valid()
      requires itemList != [] ==> 0 <= idx <= |items|
      modifies this`items, this`count, this`indexByUid, this`connected, this`events, itemList`parent
      ensures Valid()
      ensures itemList == [] ==>
        items == old(items) && indexByUid == old(indexByUid) && connected == old(connected) && events == old(events)
      ensures itemList != [] ==>
        && items == old(items)[..idx] + NonNull(itemList) + old(items)[idx..]
        && events == old(events) + [RowsInserted(idx, idx + |itemList| - 1)] + (if NonNull(itemList) != [] then [CountChanged] else [])
        && indexByUid == IndexedWithKeys(old(indexByUid), itemList, old(UidMap(ItemSet(itemList))))
        && connected == old(connected) + Connecting(itemList)
      ensures forall x: Item :: x in itemList ==> x.parent == Adopted(old(x.parent))
    {
      if itemList != [] {
        InsertEach(idx, itemList);
        events := events + [RowsInserted(idx, idx + |itemList| - 1)];
        ItemSetSpliced(old(items), idx, itemList);
        TrackedAfterReferencing(items, old(indexByUid), itemList, old(UidMap(ItemSet(itemList))));
        UpdateCounter();
      }
    }

    /** move (idx, pos); QList::move demands both positions in range. */
    method Move(idx: int, pos: int)
      requires Valid()
      requires idx != pos ==> 0 <= idx < |items| && 0 <= pos < |items|
      modifies this`items, this`events
      ensures Valid()
      ensures idx == pos ==> items == old(items) && events == old(events)
      ensures idx != pos ==>
        && items == Moved(old(items), idx, pos)
        && events == old(events) + [RowsRemoved(idx, idx), RowsInserted(pos, pos)]
    {
      if idx != pos {
        events := events + [RowsRemoved(idx, idx), RowsInserted(pos, pos)];
        MovedSpec(items, idx, pos);
        ItemSetMoved(items, idx, pos);
        items := Moved(items, idx, pos);
      }
    }

    /** remove (idx): out-of-range indices are ignored. */
    method Remove(idx: int)
      requires Valid()
      modifies this`items, this`count, this`indexByUid, this`connected, this`events,
        (if 0 <= idx < |items| then {items[idx]} else {})`destroyed
      ensures Valid()
      ensures !(0 <= idx < |old(items)|) ==>
        items == old(items) && indexByUid == old(indexByUid) && connected == old(connected) && events == old(events)
      ensures 0 <= idx < |old(items)| ==>
        var item := old(items)[idx];
        && items == Removed(old(items), idx)
        && events == old(events) + [RowsRemoved(idx, idx), CountChanged]
        && (item != null ==>
          && connected == old(connected) - {item}
          && indexByUid == Unindexed(old(indexByUid), item)
          && item.destroyed == (old(item.destroyed) || item.parent == this))
        && (item == null ==> indexByUid == old(indexByUid) && connected == old(connected))
    {
      if idx >= 0 && idx < |items| {
        events := events + [RowsRemoved(idx, idx)];
        var item := items[idx];
        ItemSetRemoved(items, idx);
        ItemSetOne(item);
        items := Removed(items, idx);
        DereferenceItem(item);
        UpdateCounter();
      }
    }

    /** remove (item): removes the first occurrence of item, if any. */
    method RemoveItem(item: Item?)
      requires Valid()
      modifies this`items, this`count, this`indexByUid, this`connected, this`events, {item}`destroyed
      ensures Valid()
      ensures item == null || item !in old(items) ==>
        items == old(items) && indexByUid == old(indexByUid) && connected == old(connected) && events == old(events)
      ensures item != null && item in old(items) ==>
        var idx := FirstIndex(old(items), item);
        && items == Removed(old(items), idx)
        && events == old(events) + [RowsRemoved(idx, idx), CountChanged]
        && connected == old(connected) - {item}
        && indexByUid == Unindexed(old(indexByUid), item)
        && item.destroyed == (old(item.destroyed) || item.parent == this)
    {
      if item != null {
        var idx := IndexOf(item);
        Remove(idx);
      }
    }

    // -------------------------------------------------------------------
    // Change propagation.

    /** The roles dataChanged names when the property of role changed:
        the role, and Qt::DisplayRole as well when it is the display
        property. */
    function ChangedRoles(role: int): (rs: seq<int>)
      ensures rs == [role] || rs == [role, DisplayRole]
      ensures |rs| == 2 <==> RoleName(role) == dispRoleName
    {
      [role] + (if RoleName(role) == dispRoleName then [DisplayRole] else [])
    }

    /** Whether a change of property name moves the item in the uid index. */
    function IsUidChange(name: string): bool
    {
      var roleName := RoleName(SignalRole(name));
      uidRoleName != "" && roleName != "" && roleName == uidRoleName
    }

    /** onItemPropertyChanged (), invoked for the notifier of property name
        of item (Qt calls it only for items it is connected to). */
    method OnItemPropertyChanged(item: Item, name: string)
      requires Valid() && Built() && item in connected
      modifies this`indexByUid, this`events
      ensures Valid()
      ensures IndexOf(item) >= 0
      ensures SignalRole(name) >= 0 ==>
        events == old(events) + [DataChanged(IndexOf(item), ChangedRoles(SignalRole(name)))]
      ensures SignalRole(name) < 0 ==> events == old(events)
      ensures IsUidChange(name) <==> uidRoleName != "" && name == uidRoleName && name in signalRoles
      ensures indexByUid == if IsUidChange(name) then Reindexed(old(indexByUid), item, UidOf(item)) else old(indexByUid)
      ensures IsUidChange(name) ==> (old(IndexSoundExcept(item)) ==> IndexSound())
    {
      ItemSetMember(items, item);
      var row := IndexOf(item);
      var role := SignalRole(name);
      if name in signalRoles {
        SignalRoleIsRole(properties, dispRoleName != "", name);
        SignalTableSpec(properties, |properties|, name);
      } else {
        RoleTableSpec(properties, dispRoleName != "", |properties|, -1);
      }
      if row >= 0 && role >= 0 {
        events := events + [DataChanged(row, ChangedRoles(role))];
      }
      if uidRoleName != "" {
        var roleName := RoleName(role);
        if roleName != "" && roleName == uidRoleName {
          ghost var before := indexByUid;
          Index(item);
          assert forall k :: k in indexByUid ==> k in before || k == UidOf(item);
        }
      }
    }

    /** setData (index, value, role): writes value through the setter of the
        role's property when the row holds an item, the role is not
        baseRole () and the property is writable with the value's type;
        the setter's notifier then reaches onItemPropertyChanged. */
    method SetData(row: int, value: Value, role: int) returns (ret: bool)
      requires Valid() && Built()
      modifies this`indexByUid, this`events, {At(row)}`props
      ensures Valid()
      ensures ret <==> At(row) != null && role != UserRole && PropertyForRole(role) != "" && CanWrite(PropertyForRole(role), value)
      ensures ret ==> Data(row, role) == value
      ensures ret ==> At(row).props == old(At(row).props)[PropertyForRole(role) := value]
      ensures !ret ==> At(row) == null || At(row).props == old(At(row).props)
      ensures var name := PropertyForRole(role);
        if ret && old(At(row).Property(name)) != value && name in signalRoles && At(row) in connected then
          && events == old(events) + [DataChanged(IndexOf(At(row)), ChangedRoles(SignalRole(name)))]
          && indexByUid == (if IsUidChange(name) then Reindexed(old(indexByUid), At(row), UidOf(At(row))) else old(indexByUid))
        else events == old(events) && indexByUid == old(indexByUid)
    {
      ret := false;
      var item := At(row);
      var rolename := PropertyForRole(role);
      if item != null && role != UserRole && rolename != "" {
        if CanWrite(rolename, value) {
          var changed := item.Write(rolename, value);
          if changed && rolename in signalRoles && item in connected {
            SignalTableSpec(properties, |properties|, rolename);
            OnItemPropertyChanged(item, rolename);
          }
          ret := true;
        }
      }
    }
  }
}
