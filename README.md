# subModelInModel in Dafny

This project models the core of subModelInModel, a Qt/QML demo of a list model
whose items each own a list model of their own. It has three parts.

- `QQmlObjectListModel<ItemType>` (qqmlobjectlistmodel.h). This is an ordered
  list of item references shown to a QML view. It keeps:
  - a cached count;
  - a role table built once from the item type's properties, with a blacklist
    of reserved names;
  - an index of the items by the text of one uid property;
  - an ownership rule: it adopts the items that have no parent, and deletes
    only the items it owns when they leave the list.
- The member bodies that the property macros of qqmlhelpers.h generate:
  - the change-only-if-different setters of `QML_WRITABLE_PROPERTY` and
    `QML_READONLY_PROPERTY`;
  - the static count/clear/append/at helpers of `QML_LIST_PROPERTY`.
- The demo controller `App` (app.cpp, with the classes of app.h). It keeps a
  page counter and a list of pages. Each page (`MyModel`) owns a list of
  sub-items (`MySubmodel`). Four button handlers add and clear pages and
  sub-items.

The Dafny modules follow the files:

| file | module | models |
|---|---|---|
| `qtstring.dfy` | `QtString` | `QString::number` for ints, and its inverse |
| `qmlhelpers.dfy` | `QmlHelpers` | the bodies the qqmlhelpers.h macros generate |
| `objectlistmodel.dfy` | `ObjectModel` | `QQmlObjectListModel<ItemType>` and the list, index and role-table functions it uses |
| `app.dfy` | `Demo` | `MyModel`, `MySubmodel` and `App` |

The model follows the Qt code in these ways.

- **Items.** An item is an object (`ObjectModel.Item`) with three fields:
  - a map from property name to value;
  - its `parent`;
  - a `destroyed` flag that stands for `deleteLater ()`.
- **Properties.** The item type's meta-properties are an explicit list of
  descriptors, each giving a name, a type, whether it is writable and whether
  it notifies. `objectName` comes first, as in every QObject.
- **Roles.**
  - `Qt::DisplayRole` is 0.
  - `Qt::UserRole` (`baseRole ()`) is 256 and names the item itself (`qtObject`).
  - Property i gets role 257 + i. The counter moves on past a blacklisted name
    too.
  - The doc comment of `data` (qqmlobjectlistmodel.h:79) calls role 0 the item
    itself, but the code returns the item under `baseRole ()`. The model follows
    the code.
- **Built tables.** `ObjectModel.ObjectListModel.Built` states that the role
  table and the notifier table are the ones the constructor builds. They never
  change afterwards.
- **Notifications.** The signals a view would receive are appended to a log
  (`events`):
  - `beginInsertRows`;
  - `beginRemoveRows`;
  - `dataChanged`;
  - `countChanged`.
- **Row counts.** `prepend (QList)` and `insert (idx, QList)` announce
  `beginInsertRows` for every entry of the list but store only its non-null
  entries. `PrependAll` and `InsertAll` log that as written, so with null
  entries the logged rows outnumber the rows added.
- **Notifier connections.** They are represented by the set of connected
  items. The change handler is called directly with the item and the name of
  the property whose notifier fired.
- **Ownership.**
  - The model adopts an item only when its parent is null.
  - `dereferenceItem` deletes an item only when the model is its parent.
  - So pages, which `App` creates with itself as parent, survive being removed
    from the page list.
  - Sub-items are created without a parent, so they are adopted, and clearing
    a sub-list deletes them.
- **Uid index.** An item's uid text is `property (uidRole).toString ()`.
  - Referencing an item drops its previous key.
  - A non-empty text then stores it under that text, replacing whatever item
    was stored there before.
  - So with duplicate uid texts, or with the same item twice in the list, the
    index holds fewer items than the list.
  - What the model proves about the index: no empty key, no item under two
    keys, only items of the list, and empty without a uid role. Whether every
    key is still the item's current uid text is the separate predicate
    `IndexSound`. `OnItemPropertyChanged` restores it after a uid change.
- **Pages and sub-lists.** A page's `m_submodel` is kept in
  `Demo.App.submodels`, keyed by the page. The page's `submodel` property
  holds the same object.
  - app.cpp calls `get_submodel ()` and `Submodel_Add (sub)`, which app.h
    does not declare (it has `submodel ()`).
  - They are modelled as that sub-list and as its `append (sub)`.
- **Page numbering.** `Demo.App.Valid` states that the page at row i is
  numbered i, the counter equals the number of pages, and each page has a
  sub-list of its own. Every handler keeps that invariant.
- **Sub-items.** Every sub-item gets subid 1, as app.cpp sets it. The name
  counts the sub-items already in that page's list.

## Model

| member | source | states |
|---|---|---|
| `QtString.NumberRoundTrip` | app.cpp:50 | the text `QString::number` gives an int reads back as that int |
| `QtString.NumberInjective` | app.cpp:50 | distinct ints have distinct decimal texts |
| `QmlHelpers.Assign` | qqmlhelpers.h:110-117 | the setter's effect: it reports a change exactly when the new value differs, and the member then holds the new value |
| `QmlHelpers.AssignAgainIsNoChange` | qqmlhelpers.h:110-117 | setting again the value just set changes nothing and returns false |
| `QmlHelpers.WritableProperty.Set` | qqmlhelpers.h:106-117 | returns true iff v differed; `get_name` then returns v on both branches; nameChanged (v) is emitted exactly when it returned true |
| `QmlHelpers.ReadonlyProperty.Update` | qqmlhelpers.h:128-138 | `update_name` has the same semantics as the writable setter |
| `QmlHelpers.Instance` | qqmlhelpers.h:157 | the cast yields the object itself when it is of the host class, and null otherwise |
| `QmlHelpers.ListCount` | qqmlhelpers.h:156-159 | 0 for a null or foreign instance, otherwise the length of the backing list |
| `QmlHelpers.ListClear` | qqmlhelpers.h:160-165 | an instance's backing list becomes empty |
| `QmlHelpers.ListAppend` | qqmlhelpers.h:166-171 | for a null instance nothing changes; otherwise the list grows by the object at the end, or stays as it was when the object is null |
| `QmlHelpers.ListAt` | qqmlhelpers.h:172-175 | the element at idx of an instance's list, null without an instance |
| `ObjectModel.ToQString` | qqmlobjectlistmodel.h:648 | the uid text: a string as is, an int as its non-empty decimal text, empty for anything else |
| `ObjectModel.Item.Property` | qqmlobjectlistmodel.h:410 | `property (name)`: the stored value of a property the item has, an invalid QVariant for any other name |
| `ObjectModel.Item.Write` | qqmlhelpers.h:110-117 | a generated setter on an item: it reports a change iff the value differs, and the property map then holds the value under that name and is otherwise unchanged |
| `ObjectModel.Removed` | qqmlobjectlistmodel.h:561 | taking an element out shortens the list by one |
| `ObjectModel.RemovedSpec` | qqmlobjectlistmodel.h:558-566 | after `takeAt (idx)` the elements before idx keep their positions and those after it move down by one, so their relative order is unchanged |
| `ObjectModel.Inserted` | qqmlobjectlistmodel.h:493 | inserting lengthens the list by one and puts the element at idx |
| `ObjectModel.InsertedSpec` | qqmlobjectlistmodel.h:490-498 | the elements before idx keep their positions and those from idx on move up by one |
| `ObjectModel.InsertedRemoved` | qqmlobjectlistmodel.h:490-498 | removing at idx what was inserted at idx restores the list, and re-inserting a removed element where it was restores it too |
| `ObjectModel.Moved` | qqmlobjectlistmodel.h:540-551 | `QList::move`: the length is kept and the element from idx is now at pos |
| `ObjectModel.MovedSpec` | qqmlobjectlistmodel.h:540-551 | a move keeps the length and the multiset of elements, puts the moved element at pos, and keeps the rest in order |
| `ObjectModel.MovedBack` | qqmlobjectlistmodel.h:540-551 | moving from pos back to idx undoes `move (idx, pos)` |
| `ObjectModel.MovedMembers` | qqmlobjectlistmodel.h:540-551 | a move changes which elements the list contains not at all |
| `ObjectModel.FirstIndex` | qqmlobjectlistmodel.h:457-459 | -1 exactly when the element is absent; otherwise a position holding it with no earlier occurrence |
| `ObjectModel.NonNull` | qqmlobjectlistmodel.h:317-319 | the entries a `FOREACH_PTR_IN_QLIST` loop visits hold no null and are no more than the list's |
| `ObjectModel.Unindexed` | qqmlobjectlistmodel.h:659-664 | dropping the item's key keeps only entries of the old index, and the item is stored under no key |
| `ObjectModel.Reindexed` | qqmlobjectlistmodel.h:643-652 | re-indexing stores the item under a non-empty uid text and adds no key but that one |
| `ObjectModel.ReindexedSpec` | qqmlobjectlistmodel.h:643-652 | after re-indexing, the item is stored under its uid text when that is non-empty and under no other key; every other item keeps its key unless the new text took it |
| `ObjectModel.ReindexedInjective` | qqmlobjectlistmodel.h:643-652 | re-indexing keeps the index free of empty keys and of items stored twice |
| `ObjectModel.UnindexedSpec` | qqmlobjectlistmodel.h:659-664 | dropping an item's key removes exactly that item from the stored items, and the index stays well formed |
| `ObjectModel.ReindexedValues` | qqmlobjectlistmodel.h:643-652 | re-indexing an item stores no new item but that one |
| `ObjectModel.ReindexedAllBounds` | qqmlobjectlistmodel.h:505-507 | re-indexing each entry of a list in turn keeps the index well formed and stores only old items and entries of the list |
| `ObjectModel.RoleTable` | qqmlobjectlistmodel.h:376-394 | the role table always names baseRole () `qtObject`, and has Qt::DisplayRole exactly when a display role name was given |
| `ObjectModel.SignalTable` | qqmlobjectlistmodel.h:380-389 | the notifier table has at most one entry per property scanned |
| `ObjectModel.RejectedNames` | qqmlobjectlistmodel.h:366-393 | the names the constructor refuses (and warns about) are blacklisted names, at most one per property scanned |
| `ObjectModel.RoleTableSpec` | qqmlobjectlistmodel.h:376-394 | the role table holds `display` under Qt::DisplayRole exactly when there is a display role, `qtObject` under baseRole (), and property i under baseRole () + 1 + i exactly when its name is not blacklisted, and nothing else |
| `ObjectModel.SignalTableSpec` | qqmlobjectlistmodel.h:384-388 | a property's notifier maps to the role of a notifying, non-blacklisted property of that name, and every such property's notifier is mapped |
| `ObjectModel.SignalRoleIsRole` | qqmlobjectlistmodel.h:384-388 | the role a notifier maps to is in the role table, under that property's name |
| `ObjectModel.KeyOf` | qqmlobjectlistmodel.h:443 | `QHash::key (value, default)`: a key stored with the value, or the default when there is none |
| `ObjectModel.FindProperty` | qqmlobjectlistmodel.h:401 | the first property of that name, or -1 exactly when there is none |
| `ObjectModel.ObjectListModel.UidOf` | qqmlobjectlistmodel.h:648 | `property (uidRole).toString ()`: a string uid as is, an int uid as its non-empty decimal text, empty otherwise |
| `ObjectModel.ObjectListModel.constructor` | qqmlobjectlistmodel.h:357-395 | the loop builds the role table, the notifier table and the list of refused names of the specification functions; the list starts empty with count 0 |
| `ObjectModel.ObjectListModel.At` | qqmlobjectlistmodel.h:432-438 | null for any idx < 0 or idx >= size, including on an empty list; otherwise the element at idx |
| `ObjectModel.ObjectListModel.GetByUid` | qqmlobjectlistmodel.h:439-441 | null exactly when the key is not in the index (so always on an empty index); otherwise the indexed item, which is in the list under a non-empty key |
| `ObjectModel.ObjectListModel.Count` | qqmlobjectlistmodel.h:445-447 | the cached count, which equals the list's length |
| `ObjectModel.ObjectListModel.Size` | qqmlobjectlistmodel.h:448-450 | the same as count |
| `ObjectModel.ObjectListModel.IsEmpty` | qqmlobjectlistmodel.h:451-453 | true exactly when the list is empty, that is when count is 0 |
| `ObjectModel.ObjectListModel.Contains` | qqmlobjectlistmodel.h:454-456 | true exactly when some row holds the item |
| `ObjectModel.ObjectListModel.IndexOf` | qqmlobjectlistmodel.h:457-459 | -1 exactly when the item is absent, otherwise its first row |
| `ObjectModel.ObjectListModel.IndexOfUid` | qqmlobjectlistmodel.h:596-598 | for an indexed uid, the row of the item stored under it |
| `ObjectModel.ObjectListModel.First` | qqmlobjectlistmodel.h:567-569 | the item at row 0 of a non-empty list |
| `ObjectModel.ObjectListModel.Last` | qqmlobjectlistmodel.h:570-572 | the item at row count - 1 of a non-empty list |
| `ObjectModel.ObjectListModel.RoleForName` | qqmlobjectlistmodel.h:442-444 | -1 exactly when no role has that name, otherwise a role with that name |
| `ObjectModel.ObjectListModel.Data` | qqmlobjectlistmodel.h:405-413 | for a non-null item and a known role, the value of the role's property, or the item itself for baseRole (); invalid otherwise |
| `ObjectModel.ObjectListModel.CanWrite` | qqmlobjectlistmodel.h:401 | `setProperty` succeeds exactly when the first declared property of that name is writable and the value has its type, never for an invalid value |
| `ObjectModel.ObjectListModel.SetData` | qqmlobjectlistmodel.h:396-404 | returns true exactly when the row holds an item, the role is neither baseRole () nor unknown, and its property is writable with the value's type; the item's property map then changes in that one property, so `data` returns the value; when it returns false the item is unchanged; the notifier's dataChanged and a uid re-index follow exactly when the value differed, the property notifies and the item is connected, and otherwise the log and the index are unchanged; nothing else changes |
| `ObjectModel.ObjectListModel.UpdateCounter` | qqmlobjectlistmodel.h:698-703 | afterwards count equals the list's length, and countChanged is logged exactly when the stored count changed |
| `ObjectModel.ObjectListModel.Unindex` | qqmlobjectlistmodel.h:644-647 | the key under which the item was stored, if any, is removed |
| `ObjectModel.ObjectListModel.Index` | qqmlobjectlistmodel.h:643-652 | the item's previous key is dropped, and it is stored under its uid text if that is non-empty |
| `ObjectModel.ObjectListModel.ReferenceItem` | qqmlobjectlistmodel.h:635-654 | an item without a parent gets the model as parent; its notifiers are connected when some property notifies; it is re-indexed under its uid text |
| `ObjectModel.ObjectListModel.DereferenceItem` | qqmlobjectlistmodel.h:655-669 | the item is disconnected and unindexed; it is deleted exactly when the model is its parent |
| `ObjectModel.ObjectListModel.DereferenceEntry` | qqmlobjectlistmodel.h:463-465 | one turn of clear ()'s loop dereferences one more entry |
| `ObjectModel.ObjectListModel.Clear` | qqmlobjectlistmodel.h:460-470 | on an empty list nothing happens; otherwise the list, the index and the connections become empty, the removal and the count change are logged, and each item is deleted exactly when it was owned |
| `ObjectModel.ObjectListModel.Append` | qqmlobjectlistmodel.h:471-480 | append (null) changes nothing; otherwise the list becomes old + [item], the inserted row is the old count, and the item is referenced |
| `ObjectModel.ObjectListModel.Prepend` | qqmlobjectlistmodel.h:481-489 | prepend (null) changes nothing; otherwise the list becomes [item] + old, row 0 is logged, and the item is referenced |
| `ObjectModel.ObjectListModel.Insert` | qqmlobjectlistmodel.h:490-498 | insert (idx, null) changes nothing; otherwise the item is in the list at idx, row idx is logged, and the item is referenced |
| `ObjectModel.ObjectListModel.ReferenceEntry` | qqmlobjectlistmodel.h:505-507 | one turn of a bulk insert's loop references one more entry and adopts no other item |
| `ObjectModel.ObjectListModel.ReferenceAll` | qqmlobjectlistmodel.h:505-507 | every non-null entry is referenced in turn, and every parentless entry is adopted |
| `ObjectModel.ObjectListModel.AppendAll` | qqmlobjectlistmodel.h:499-511 | an empty list changes nothing; otherwise all entries, null ones included, go to the end; the rows logged start at the old count; every entry is referenced |
| `ObjectModel.ObjectListModel.StoreEntry` | qqmlobjectlistmodel.h:517-520 | one turn of the offset loop stores a non-null entry after the entries stored before it, and moves the offset past it |
| `ObjectModel.ObjectListModel.InsertEach` | qqmlobjectlistmodel.h:530-535 | the loop splices the non-null entries, in order, into the list at idx and references each |
| `ObjectModel.ObjectListModel.PrependAll` | qqmlobjectlistmodel.h:512-525 | an empty list changes nothing; otherwise the non-null entries go to the front, in order, and are referenced |
| `ObjectModel.ObjectListModel.InsertAll` | qqmlobjectlistmodel.h:526-539 | an empty list changes nothing; otherwise the non-null entries go to idx, in order, and are referenced |
| `ObjectModel.ObjectListModel.Move` | qqmlobjectlistmodel.h:540-551 | move (idx, idx) changes nothing; otherwise the list is the moved one (same count and multiset, the item now at pos) and a removal then an insertion are logged |
| `ObjectModel.ObjectListModel.Remove` | qqmlobjectlistmodel.h:558-566 | an index outside [0, size) changes nothing; otherwise the list becomes old[..idx] + old[idx+1..], and the item is disconnected, unindexed and deleted exactly when the model owned it |
| `ObjectModel.ObjectListModel.RemoveItem` | qqmlobjectlistmodel.h:552-557 | null or an absent item changes nothing; otherwise the first occurrence is removed as remove (idx) does |
| `ObjectModel.ObjectListModel.ChangedRoles` | qqmlobjectlistmodel.h:677-681 | the roles of dataChanged: the notifier's role, followed by Qt::DisplayRole exactly when that role's name is the display role name |
| `ObjectModel.ObjectListModel.OnItemPropertyChanged` | qqmlobjectlistmodel.h:670-697 | dataChanged is logged for the item's row with the role, plus Qt::DisplayRole when it is the display property, exactly when the notifier has a role; the item is re-indexed exactly when the property is the uid property, and the index then agrees with every item's uid text again |
| `Demo.PageName` | app.cpp:50 | the text "Page " followed by the number |
| `Demo.SubName` | app.cpp:40 | the text "SubName " followed by the number |
| `Demo.PageNameInjective` | app.cpp:50 | pages with different numbers get different names |
| `Demo.SubNameInjective` | app.cpp:40 | sub-items added to lists of different lengths get different names |
| `Demo.NewSubProps` | app.h:11-22 | a new MySubmodel has subid -1 and an empty subname |
| `Demo.NewPageProps` | app.h:24-39 | a new MyModel has mainID -1, no value for `no`, and its own sub-list as `submodel` |
| `Demo.ConstructedWellTyped` | app.h:11-39 | a new MySubmodel has each property of MySubmodel (lines 15-16), and a new MyModel each property of MyModel (lines 28-33) except `no`, every value of its declared type |
| `Demo.NewPage` | app.cpp:47-51 | a fresh page owned by App, with mainID n, no n + 1, name "Page n+1" and the remark, and a fresh empty sub-list with display and uid role subname |
| `Demo.SettersGivePageProps` | app.cpp:48-51 | the four setters on a new page give exactly those property values |
| `Demo.NewSubItem` | app.cpp:38-40 | a fresh parentless sub-item with subid 1 and name "SubName n" |
| `Demo.ClearSubList` | app.cpp:30 | the sub-list of a page becomes empty, and each sub-item is deleted exactly when the sub-list owned it |
| `Demo.AddSubItem` | app.cpp:38-41 | the sub-list grows by exactly one parentless sub-item at the end, which it adopts, named after the old count |
| `Demo.AppendPage` | app.cpp:52 | `testModel->append (d)` for a page App owns: the page list grows by d, d keeps its owner, and `getByUid` of its name yields d |
| `Demo.App.constructor` | app.cpp:8-10 | the counter is 0 and the page list is empty, with display and uid role name |
| `Demo.App.PageNumbered` | app.cpp:46-55 | a page numbered id exists exactly when 0 <= id < counter, and it is at row id |
| `Demo.App.SubListAtNumbered` | app.cpp:27-33 | the one sub-list a handler given id may change is the sub-list of a listed page numbered id, and only that one |
| `Demo.App.BtnAddPage` | app.cpp:46-55 | one fresh page is appended with mainID == counter, no == counter + 1 and name "Page " + (counter + 1); `getByUid` of that name then yields it; counter grows by exactly 1; the numbering invariant is kept |
| `Demo.App.ListPage` | app.cpp:52-54 | appending the new page and counting it keeps the numbering invariant, and the page is indexed under its name |
| `Demo.App.BtnClearAllPages` | app.cpp:23-26 | the page list is empty and counter is 0; no page is deleted, since App owns them |
| `Demo.App.ClearListItemsAt` | app.cpp:29-31 | one turn of the loop clears the sub-list of row z when that page's mainID is id |
| `Demo.App.ClearPage` | app.cpp:30 | clearing the sub-list of the page at row id empties it, deletes exactly the sub-items it owned, and keeps every other sub-list |
| `Demo.App.BtnClearListItems` | app.cpp:27-33 | the sub-list of the page with mainID == id is emptied, and each of its sub-items is deleted exactly when that sub-list owned it; only that sub-list object and its sub-items may change, so the other pages' sub-lists (items, index, log) are untouched; the page list and the counter are unchanged |
| `Demo.App.AddListItemAt` | app.cpp:37-42 | one turn of the loop adds a sub-item to row z when that page's mainID is id |
| `Demo.App.BtnAddListItem` | app.cpp:35-44 | the page with mainID == id gets one sub-item at the end, adopted by that sub-list, with subid 1 and name "SubName " + its old sub-count; only that sub-list object may change, so the other pages' sub-lists (items, index, log) are untouched; the page list and the counter are unchanged |

## Left out

- Qt's meta-object reflection is not modelled: `staticMetaObject`, `QMetaProperty`, notifier signal indices, `sender ()` and `senderSignalIndex ()`. The item type's properties are an explicit list of descriptors.
- The signal and slot wiring is not modelled: `connect`, `disconnect` and `Qt::UniqueConnection`. Connections are the set of connected items, and the change handler is called directly with the item and the name of the property.
- `setData` calls `QObject::setProperty`, which converts values. The model writes only a value that already has the property's type, and only through a non-constant property.
- `ObjectModel.ObjectListModel.SetData`: for a role name that is not a declared property, `setProperty` would add a dynamic property to the item and return false. The model returns false and leaves the item's properties unchanged, since dynamic properties are not modelled.
- The Qt view protocol is kept only as a log of notifications. The `end*Rows` calls, `roleNames`, `rowCount` and the iterators are left out.
- `AppendAll`, `PrependAll` and `InsertAll` log `beginInsertRows` once the items are in the list, not before. Nothing else is logged in between, so the order of the log is the same.
- The QVariant list helpers are left out: `qListFromVariant`, `qListToVariant` and `toVarArray`. They are type erasure for QML.
- The QML-facing overloads of qqmlobjectlistmodel.h:578-595 are not separate members: `append`, `prepend`, `insert`, `remove`, `contains` and `indexOf` taking a `QObject *`. They first apply `qobject_cast`, which turns an object of another class into null, and then forward. So `append`, `prepend`, `insert` and `remove` of such an object change nothing. `contains` and `indexOf` of it ask about a null entry, which a list holds only after `append (QList)` stored one (line 504); the model's `Contains` and `IndexOf` answer that question too.
- `get`, `getFirst` and `getLast` (qqmlobjectlistmodel.h:599-610) are not separate members either. They upcast the result of `at`, `getByUid`, `first` and `last`, which the model has.
- `toList` (qqmlobjectlistmodel.h:573-575) is a plain accessor of the list, which the model holds as `items`.
- `deleteLater ()` is the `destroyed` flag. Deleting a page does not cascade to its sub-list.
- The QML engine setup in `App::App` is left out (`setContextProperty`, `engine.load`). It is I/O.
- `App::btnUpdateListItem` is declared in app.h but has no body, so it is left out.
- `QML_ENUM_CLASS`, the `QmlProperty` class and `QML_CONSTANT_PROPERTY` are left out. They hold no logic.
- The `get_NAMEs` accessor of `QML_LIST_PROPERTY` is left out, and so is `QML_OBJMODEL_PROPERTY`.
- Integers are unbounded. The 32-bit wrap-around of `int` for a counter near 2^31 is not modelled.
- `MyModel`'s constructor leaves `m_no` uninitialised. Until `set_no` runs, the model gives the page no value for `no` at all.
- `ObjectModel.ObjectListModel.Insert`, `InsertAll` and `Move` require the bounds that `QList::insert` and `QList::move` assert, instead of clamping the index.
- `ObjectModel.ObjectListModel.First` and `Last` require a non-empty list, since `QList::first` and `QList::last` demand one.
- `QmlHelpers.ListAt` requires an idx inside the backing list of an instance, since `QList::at` asserts it; the source reads out of bounds otherwise.
- `Demo.App.BtnAddPage`, `Demo.App.BtnClearListItems` and `Demo.App.BtnAddListItem` are modelled only from states that satisfy `Demo.App.Valid`, the numbering the App's own handlers keep (the page at row i numbered i). The page list is also exposed to QML, whose `insert`, `move`, `remove`, `clear` and `setData` calls could break that numbering; the handlers are not modelled from such states.
- `Demo.App.BtnAddPage` returns the new page as a ghost value, only to state its contract. The handler returns nothing.
