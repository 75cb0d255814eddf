/** The demo controller of app.h and app.cpp: App owns a list model of pages
    (MyModel), each page owns a list model of sub-items (MySubmodel), and the
    four button handlers the QML view calls add and clear pages and
    sub-items, numbering the pages with a counter.

    A page's m_submodel member is kept in App.submodels, keyed by the page,
    since an item object here carries only its property values; the page's
    "submodel" property holds the same list. */
module Demo {
  import opened QtString
  import opened ObjectModel

  /** QObject's own property, the first one of every meta-object. */
  const ObjectNameProperty: PropertyDescriptor := PropertyDescriptor("objectName", StringKind, true, true)

  /** The properties of MySubmodel, in meta-object order: objectName, then
      subid and subname from QML_WRITABLE_PROPERTY (writable and notifying). */
  const SubProperties: seq<PropertyDescriptor> := [
    ObjectNameProperty,
    PropertyDescriptor("subid", IntKind, true, true),
    PropertyDescriptor("subname", StringKind, true, true)
  ]

  /** The properties of MyModel, in meta-object order: objectName, the four
      QML_WRITABLE_PROPERTY members, and the CONSTANT read-only submodel. */
  const PageProperties: seq<PropertyDescriptor> := [
    ObjectNameProperty,
    PropertyDescriptor("mainID", IntKind, true, true),
    PropertyDescriptor("no", IntKind, true, true),
    PropertyDescriptor("name", StringKind, true, true),
    PropertyDescriptor("remark", StringKind, true, true),
    PropertyDescriptor("submodel", ObjectKind, false, false)
  ]

  /** The name btnAddPage gives the page it numbers n: "Page " and n + 1. */
  function PageName(n: int): (s: string)
    ensures |s| > 5 && s[..5] == "Page "
  {
    "Page " + Number(n + 1)
  }

  /** The name btnAddListItem gives a sub-item added to a list of n. */
  function SubName(n: int): (s: string)
    ensures |s| > 8 && s[..8] == "SubName "
  {
    "SubName " + Number(n)
  }

  /** Distinct pages get distinct names. */
  lemma PageNameInjective(a: int, b: int)
    requires PageName(a) == PageName(b)
    ensures a == b
  {
    assert PageName(a)[5..] == Number(a + 1);
    assert PageName(b)[5..] == Number(b + 1);
    NumberInjective(a + 1, b + 1);
  }

  /** Sub-items added to lists of different lengths get distinct names. */
  lemma SubNameInjective(a: int, b: int)
    requires SubName(a) == SubName(b)
    ensures a == b
  {
    assert SubName(a)[8..] == Number(a);
    assert SubName(b)[8..] == Number(b);
    NumberInjective(a, b);
  }

  /** Every property of decls that props has a value for holds a value of
      the declared type. */
  ghost predicate WellTyped(props: map<string, Value>, decls: seq<PropertyDescriptor>)
  {
    forall i :: 0 <= i < |decls| && decls[i].name in props ==> HasKind(props[decls[i].name], decls[i].kind)
  }

  /** The property values of a MySubmodel just constructed: m_subid = -1
      and an empty name. */
  function NewSubProps(): (props: map<string, Value>)
    ensures "subid" in props && props["subid"] == IntV(-1)
    ensures "subname" in props && props["subname"] == StrV("")
  {
    map["objectName" := StrV(""), "subid" := IntV(-1), "subname" := StrV("")]
  }

  /** The property values of a MyModel just constructed with the sub-list
      sub: m_mainID = -1 and empty texts. The constructor leaves m_no
      uninitialised; here it has no value at all. */
  function NewPageProps(sub: ObjectListModel): (props: map<string, Value>)
    ensures "mainID" in props && props["mainID"] == IntV(-1) && "no" !in props
    ensures "submodel" in props && props["submodel"] == ObjectV(sub)
  {
    map["objectName" := StrV(""), "mainID" := IntV(-1), "name" := StrV(""), "remark" := StrV(""),
        "submodel" := ObjectV(sub)]
  }

  /** A new MySubmodel has a value of the declared type for each of its
      properties; a new MyModel has one for each of its properties but no. */
  lemma ConstructedWellTyped(sub: ObjectListModel)
    ensures forall i :: 0 <= i < |SubProperties| ==> SubProperties[i].name in NewSubProps()
    ensures WellTyped(NewSubProps(), SubProperties)
    ensures forall i :: 0 <= i < |PageProperties| ==> (PageProperties[i].name in NewPageProps(sub) <==> PageProperties[i].name != "no")
    ensures WellTyped(NewPageProps(sub), PageProperties)
  {
    assert SubProperties[0].name == "objectName" && SubProperties[1].name == "subid" && SubProperties[2].name == "subname";
    assert PageProperties[0].name == "objectName" && PageProperties[1].name == "mainID" && PageProperties[3].name == "name";
    assert PageProperties[4].name == "remark" && PageProperties[5].name == "submodel";
  }

  /** The property values of the page btnAddPage makes when the counter
      is n. */
  function PageProps(n: int, sub: ObjectListModel): map<string, Value>
  {
    map["objectName" := StrV(""), "mainID" := IntV(n), "no" := IntV(n + 1), "name" := StrV(PageName(n)),
        "remark" := StrV("Remark text."), "submodel" := ObjectV(sub)]
  }

  /** The property values of the sub-item btnAddListItem adds to a list
      of n. */
  function SubProps(n: int): map<string, Value>
  {
    map["objectName" := StrV(""), "subid" := IntV(1), "subname" := StrV(SubName(n))]
  }

  /** The properties a sub-list is built with: display and uid role subname. */
  ghost predicate IsSubList(sub: ObjectListModel)
    reads sub`count, sub`items, sub`indexByUid, sub`connected
  {
    && sub.Valid()
    && sub.properties == SubProperties && sub.dispRoleName == "subname" && sub.uidRoleName == "subname"
  }

  /** after is before with one sub-item more at the end, the one
      btnAddListItem makes, owned by the list sub. */
  ghost predicate SubItemAdded(sub: ObjectListModel, before: seq<Item?>, after: seq<Item?>)
    reads after
  {
    && |after| == |before| + 1 && after[..|before|] == before
    && after[|before|] != null && after[|before|].props == SubProps(|before|) && after[|before|].parent == sub
  }

  /** The page btnAddPage makes when the counter is n: new MyModel (owner)
      with its empty sub-list, then set_mainID, set_no, set_name and
      set_remark. */
  method NewPage(owner: object, n: int) returns (d: Item, sub: ObjectListModel)
    ensures fresh(d) && fresh(sub)
    ensures d.props == PageProps(n, sub) && d.parent == owner
    ensures IsSubList(sub) && sub.items == []
  {
    sub := new ObjectListModel(SubProperties, "subname", "subname");
    d := new Item(NewPageProps(sub), owner);
    var changed := d.Write("mainID", IntV(n));
    changed := d.Write("no", IntV(n + 1));
    changed := d.Write("name", StrV(PageName(n)));
    changed := d.Write("remark", StrV("Remark text."));
    SettersGivePageProps(n, sub);
  }

  /** The four setters turn a new page's properties into PageProps. */
  lemma SettersGivePageProps(n: int, sub: ObjectListModel)
    ensures NewPageProps(sub)["mainID" := IntV(n)]["no" := IntV(n + 1)]["name" := StrV(PageName(n))]
                             ["remark" := StrV("Remark text.")] == PageProps(n, sub)
  {
  }

  /** The sub-item btnAddListItem adds to a list of n: new MySubmodel (),
      then set_subid and set_subname. */
  method NewSubItem(n: int) returns (item: Item)
    ensures fresh(item)
    ensures item.props == SubProps(n) && item.parent == null
  {
    item := new Item(NewSubProps(), null);
    var changed := item.Write("subid", IntV(1));
    changed := item.Write("subname", StrV(SubName(n)));
  }

  /** The body of the loop of btnClearListItems once the page is found:
      its sub-list is cleared, which deletes the sub-items it owns. */
  method ClearSubList(sub: ObjectListModel)
    requires IsSubList(sub)
    modifies sub, sub.items`destroyed
    ensures IsSubList(sub) && sub.items == []
    ensures forall x: Item :: x in old(sub.items) ==> x.destroyed == (old(x.destroyed) || x.parent == sub)
  {
    sub.Clear();
  }

  /** The body of the loop of btnAddListItem once the page is found:
      a new MySubmodel with subid 1 and name "SubName n", n the size of the
      sub-list, appended to it. */
  method AddSubItem(sub: ObjectListModel)
    requires IsSubList(sub)
    modifies sub
    ensures IsSubList(sub) && SubItemAdded(sub, old(sub.items), sub.items)
  {
    var item := NewSubItem(sub.Count());
    sub.Append(item);
  }

  /** testModel.append (d) in btnAddPage, for a page d that already has an
      owner: the page list grows by d, which keeps its owner and can then be
      looked up by its name. */
  method AppendPage(pages: ObjectListModel, d: Item)
    requires pages.Valid() && pages.uidRoleName == "name" && d.parent != null
    requires d.Property("name").StrV? && d.Property("name").s != ""
    modifies pages`items, pages`count, pages`indexByUid, pages`connected, pages`events, {d}`parent
    ensures pages.Valid() && pages.items == old(pages.items) + [d]
    ensures d.parent == old(d.parent) && pages.GetByUid(d.Property("name").s) == d
  {
    pages.Append(d);
  }

  class App {
    /** counter: the number of pages added since the last clear. */
    var counter: int
    /** testModel: the list of pages, with display and uid role name. */
    const testModel: ObjectListModel
    /** The m_submodel member of every page made so far. */
    var submodels: map<Item, ObjectListModel>

    /** The page p can stand at row i: it is numbered i and belongs to App. */
    ghost predicate IsPage(p: Item?, i: int)
      reads {p}`props, {p}`parent
    {
      p != null && p.parent == this && p.Property("mainID") == IntV(i)
    }

    /** The pages are numbered by their rows, 0 to counter - 1; every page
        has a sub-list of its own. */
    ghost predicate Valid()
      reads this, testModel`count, testModel`items, testModel`indexByUid, testModel`connected
      reads testModel.items`props, testModel.items`parent, submodels.Values
    {
      PagesValid() && SubListsValid()
    }

    /** The page list is well formed and holds the pages numbered by their
        rows, 0 to counter - 1, each with its sub-list. */
    ghost predicate PagesValid()
      reads this, testModel`count, testModel`items, testModel`indexByUid, testModel`connected
      reads testModel.items`props, testModel.items`parent
    {
      && testModel.Valid()
      && testModel.properties == PageProperties && testModel.dispRoleName == "name" && testModel.uidRoleName == "name"
      && |testModel.items| == counter
      && (forall i :: 0 <= i < |testModel.items| ==> IsPage(testModel.items[i], i))
      && ItemSet(testModel.items) <= submodels.Keys
    }

    /** Every page has a well-formed sub-list of its own. */
    ghost predicate SubListsValid()
      reads this, submodels.Values
    {
      && (forall p :: p in submodels ==> submodels[p] != testModel && IsSubList(submodels[p]))
      && (forall p, q :: p in submodels && q in submodels && p != q ==> submodels[p] != submodels[q])
    }

    /** The items of all sub-lists. */
    ghost function SubItems(): set<Item>
      reads this, submodels.Values
    {
      set p, x: Item | p in submodels && x in submodels[p].items :: x
    }

    /** App::App (): no page yet, and the counter at 0. */
    constructor ()
      ensures Valid()
      ensures counter == 0 && testModel.items == [] && submodels == map[]
    {
      counter := 0;
      testModel := new ObjectListModel(PageProperties, "name", "name");
      submodels := map[];
    }

    /** A page numbered id exists exactly when id is below the counter, and
        it stands at row id. */
    lemma PageNumbered(p: Item, id: int)
      requires Valid()
      ensures p in testModel.items && p.Property("mainID") == IntV(id) <==>
        0 <= id < counter && p == testModel.items[id]
    {
    }

    /** btnAddPage (): a new page numbered counter, owned by App and with
        an empty sub-list, is appended, and the counter moves on. */
    method BtnAddPage() returns (ghost page: Item)
      requires Valid()
      modifies this`counter, this`submodels
      modifies testModel`items, testModel`count, testModel`indexByUid, testModel`connected, testModel`events
      ensures Valid()
      ensures counter == old(counter) + 1
      ensures testModel.items == old(testModel.items) + [page]
      ensures fresh(page) && page.parent == this && page in submodels && fresh(submodels[page])
      ensures page.props == PageProps(old(counter), submodels[page])
      ensures submodels[page].items == [] && submodels == old(submodels)[page := submodels[page]]
      ensures testModel.GetByUid(PageName(old(counter))) == page
    {
      var d, sub := NewPage(this, counter);
      ListPage(d, sub);
      page := d;
    }

    /** The rest of btnAddPage once the page d with its sub-list sub is
        made: testModel.append (d) and counter++. */
    method ListPage(d: Item, sub: ObjectListModel)
      requires Valid()
      requires d.parent == this && d.Property("mainID") == IntV(counter) && d.Property("name") == StrV(PageName(counter))
      requires d !in submodels && sub != testModel && sub !in submodels.Values && IsSubList(sub)
      modifies this`counter, this`submodels, {d}`parent
      modifies testModel`items, testModel`count, testModel`indexByUid, testModel`connected, testModel`events
      ensures Valid()
      ensures counter == old(counter) + 1 && testModel.items == old(testModel.items) + [d]
      ensures submodels == old(submodels)[d := sub] && d.parent == this
      ensures testModel.GetByUid(PageName(old(counter))) == d
    {
      submodels := submodels[d := sub];
      AppendPage(testModel, d);
      counter := counter + 1;
      forall i | 0 <= i < |testModel.items|
        ensures IsPage(testModel.items[i], i)
      {
        if i < old(counter) {
          assert testModel.items[i] == old(testModel.items[i]);
        }
      }
    }

    /** btnClearAllPages (): the page list is emptied and the counter reset.
        The pages belong to App, so clear () deletes none of them. */
    method BtnClearAllPages()
      requires Valid()
      modifies this`counter, testModel`items, testModel`count, testModel`indexByUid, testModel`connected
      modifies testModel`events, testModel.items`destroyed
      ensures Valid()
      ensures testModel.items == [] && counter == 0 && submodels == old(submodels)
      ensures forall p: Item :: p in old(testModel.items) ==> p.destroyed == old(p.destroyed)
    {
      testModel.Clear();
      counter := 0;
    }

    /** The item list of every sub-list. */
    ghost function SubLists(): (m: map<Item, seq<Item?>>)
      reads this, submodels.Values
      ensures m.Keys == submodels.Keys
      ensures forall p :: p in m ==> m[p] == submodels[p].items
    {
      map p | p in submodels :: submodels[p].items
    }

    /** The sub-lists once the loop of btnClearListItems (id) has seen the
        first z pages, when they were before: that of the page numbered id
        is emptied if it came among them, the others are as they were. */
    ghost predicate ClearedUpTo(id: int, z: int, before: map<Item, seq<Item?>>)
      reads this, testModel`items, submodels.Values
    {
      && 0 <= z <= |testModel.items|
      && before.Keys == submodels.Keys
      && forall p :: p in submodels ==>
           submodels[p].items == if 0 <= id < z && p == testModel.items[id] then [] else before[p]
    }

    /** The sub-list of the page at row id, when there is one: the only
        sub-list btnClearListItems (id) and btnAddListItem (id) change. */
    ghost function SubListAt(id: int): (s: set<object>)
      reads this, testModel`items
      ensures |s| <= 1
    {
      if 0 <= id < |testModel.items| && testModel.items[id] != null && testModel.items[id] in submodels
      then {submodels[testModel.items[id]]} else {}
    }

    /** The one sub-list the handlers for id may change is that of the page
        numbered id: every other page's sub-list lies outside SubListAt (id). */
    lemma SubListAtNumbered(id: int, p: Item)
      requires Valid() && p in submodels
      ensures submodels[p] in SubListAt(id) <==> p in testModel.items && p.Property("mainID") == IntV(id)
    {
      PageNumbered(p, id);
      if 0 <= id < |testModel.items| {
        assert IsPage(testModel.items[id], id);
      }
    }

    /** The body of the loop of btnClearListItems (id) at the page numbered
        id, whose sub-list is the one object of target and holds doomed:
        the sub-list is emptied, and the sub-items it owns are deleted. */
    method ClearPage(id: int, ghost before: map<Item, seq<Item?>>, ghost doomed: seq<Item?>, ghost target: set<object>,
                     ghost owned: set<Item>)
      requires Valid() && 0 <= id < |testModel.items| && ClearedUpTo(id, id, before)
      requires testModel.items[id] in before && doomed == before[testModel.items[id]]
      requires testModel.items[id] in submodels && target == {submodels[testModel.items[id]]}
      requires forall x: Item :: x in doomed ==> (x in owned <==> x.parent in target)
      modifies target, doomed`destroyed
      ensures Valid() && ClearedUpTo(id, id + 1, before)
      ensures testModel.items == old(testModel.items) && counter == old(counter) && submodels == old(submodels)
      ensures forall x: Item :: x in doomed ==> x.destroyed == (old(x.destroyed) || x in owned)
    {
      var page := testModel.items[id];
      assert IsPage(page, id);
      var sub := submodels[page];
      ClearSubList(sub);
      forall p | p in submodels && p != page
        ensures submodels[p].items == before[p]
      {
        assert submodels[p] != sub;
      }
    }

    /** What btnClearListItems (id) may change, fixed when it starts: target
        holds the sub-list of the page at row id and doomed its items. */
    ghost predicate ClearTarget(id: int, before: map<Item, seq<Item?>>, doomed: seq<Item?>, target: set<object>)
      reads this, testModel`items
    {
      0 <= id < |testModel.items| ==>
        && testModel.items[id] in before && doomed == before[testModel.items[id]]
        && testModel.items[id] in submodels && target == {submodels[testModel.items[id]]}
    }

    /** One turn of the loop of btnClearListItems (id): the sub-list of
        page z is emptied if that page is numbered id. */
    method ClearListItemsAt(id: int, z: int, ghost before: map<Item, seq<Item?>>, ghost doomed: seq<Item?>,
                            ghost target: set<object>, ghost owned: set<Item>)
      requires Valid() && z < |testModel.items| && ClearedUpTo(id, z, before)
      requires ClearTarget(id, before, doomed, target)
      requires z == id ==> forall x: Item :: x in doomed ==> (x in owned <==> x.parent in target)
      modifies target, doomed`destroyed
      ensures Valid() && ClearedUpTo(id, z + 1, before)
      ensures testModel.items == old(testModel.items) && counter == old(counter) && submodels == old(submodels)
      ensures forall x: Item :: x in doomed ==> x.destroyed == (old(x.destroyed) || (z == id && x in owned))
    {
      var page := testModel.At(z);
      assert IsPage(page, z);
      if page.Property("mainID") == IntV(id) {
        ClearPage(id, before, doomed, target, owned);
      }
    }

    /** btnClearListItems (id): the sub-list of every page numbered id is
        emptied, and the sub-items it owned are deleted; no other sub-list
        and no other sub-item changes. */
    method BtnClearListItems(id: int)
      requires Valid()
      modifies SubListAt(id), FoundItems(id, |testModel.items|)`destroyed
      ensures Valid()
      ensures testModel.items == old(testModel.items) && counter == old(counter) && submodels == old(submodels)
      ensures forall p :: p in submodels ==>
        submodels[p].items == if p in testModel.items && p.Property("mainID") == IntV(id) then [] else old(submodels[p].items)
      ensures forall x: Item :: x in old(FoundItems(id, |testModel.items|)) ==>
        x.destroyed == (old(x.destroyed) || old(x.parent in SubListAt(id)))
    {
      ghost var before := SubLists();
      ghost var doomed := FoundItems(id, |testModel.items|);
      ghost var target := SubListAt(id);
      ghost var owned := set x: Item | x in doomed && x.parent in target;
      if 0 <= id < |testModel.items| {
        assert IsPage(testModel.items[id], id);
      }
      var z := 0;
      while z < testModel.Count()
        invariant Valid() && ClearedUpTo(id, z, before)
        invariant testModel.items == old(testModel.items) && counter == old(counter) && submodels == old(submodels)
        invariant ClearTarget(id, before, doomed, target)
        invariant forall x: Item :: x in doomed ==> x.destroyed == (old(x.destroyed) || (id < z && x in owned))
        decreases |old(testModel.items)| - z
      {
        ClearListItemsAt(id, z, before, doomed, target, owned);
        z := z + 1;
      }
      forall p | p in submodels
        ensures p in testModel.items && p.Property("mainID") == IntV(id) <==> 0 <= id < z && p == testModel.items[id]
      {
        PageNumbered(p, id);
      }
    }

    /** The sub-lists once the loop of btnAddListItem (id) has seen the
        first z pages, when they were before: that of the page numbered id
        has its new sub-item if it came among them, the others are as they
        were. */
    ghost predicate AddedUpTo(id: int, z: int, before: map<Item, seq<Item?>>)
      reads this, testModel`items, submodels.Values, FoundItems(id, z)
    {
      && 0 <= z <= |testModel.items|
      && before.Keys == submodels.Keys
      && forall p :: p in submodels ==>
           if 0 <= id < z && p == testModel.items[id]
           then SubItemAdded(submodels[p], before[p], submodels[p].items)
           else submodels[p].items == before[p]
    }

    /** The sub-items of the page numbered id, once the first z pages are seen. */
    ghost function FoundItems(id: int, z: int): seq<Item?>
      reads this, testModel`items, submodels.Values
    {
      if 0 <= id < z <= |testModel.items| && testModel.items[id] != null && testModel.items[id] in submodels
      then submodels[testModel.items[id]].items else []
    }

    /** target holds the sub-list of the page at row id, when there is one:
        what btnAddListItem (id) may change, fixed when it starts. */
    ghost predicate AddTarget(id: int, target: set<object>)
      reads this, testModel`items
    {
      0 <= id < |testModel.items| ==> testModel.items[id] in submodels && target == {submodels[testModel.items[id]]}
    }

    /** One turn of the loop of btnAddListItem (id): page z gets its new
        sub-item if it is numbered id. */
    method AddListItemAt(id: int, z: int, ghost before: map<Item, seq<Item?>>, ghost target: set<object>)
      requires Valid() && z < |testModel.items| && AddedUpTo(id, z, before) && AddTarget(id, target)
      modifies target
      ensures Valid() && AddedUpTo(id, z + 1, before)
      ensures testModel.items == old(testModel.items) && counter == old(counter) && submodels == old(submodels)
    {
      var page := testModel.At(z);
      assert IsPage(page, z);
      if page.Property("mainID") == IntV(id) {
        var sub := submodels[page];
        AddSubItem(sub);
        forall p | p in submodels && p != page
          ensures submodels[p].items == before[p]
        {
          assert submodels[p] != sub;
        }
      }
    }

    /** btnAddListItem (id): every page numbered id gets one sub-item more,
        with subid 1 and a name telling how many were there before; no
        other sub-list changes, and no sub-item that was there. */
    method BtnAddListItem(id: int)
      requires Valid()
      modifies SubListAt(id)
      ensures Valid()
      ensures testModel.items == old(testModel.items) && counter == old(counter) && submodels == old(submodels)
      ensures forall p :: p in submodels ==>
        if p in testModel.items && p.Property("mainID") == IntV(id)
        then SubItemAdded(submodels[p], old(submodels[p].items), submodels[p].items)
        else submodels[p].items == old(submodels[p].items)
    {
      ghost var before := SubLists();
      ghost var target := SubListAt(id);
      if 0 <= id < |testModel.items| {
        assert IsPage(testModel.items[id], id);
      }
      var z := 0;
      while z < testModel.Count()
        invariant Valid() && AddedUpTo(id, z, before) && AddTarget(id, target)
        invariant testModel.items == old(testModel.items) && counter == old(counter) && submodels == old(submodels)
        decreases |old(testModel.items)| - z
      {
        assert IsPage(testModel.items[z], z);
        AddListItemAt(id, z, before, target);
        z := z + 1;
      }
      forall p | p in submodels
        ensures p in testModel.items && p.Property("mainID") == IntV(id) <==> 0 <= id < z && p == testModel.items[id]
      {
        PageNumbered(p, id);
      }
    }
  }
}
