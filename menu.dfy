/** The navigation menu: one item per section, a highlight bar that follows
    the active section, and the array of item elements the highlight is
    measured from. */
module Menu {
  import opened Js

  /** An entry of the `items` prop. The menu reads only `id` and `caption` (the `label` field);
      `component` is whatever the owner stores beside them. */
  datatype MenuItem<C> = MenuItem(id: string, caption: string, component: C)

  /** A rendered item element; its offsets are measured by the browser and
      are taken here as given. */
  datatype Element = Element(offsetTop: int, offsetHeight: int)

  /** The `highlightPosition` state. */
  datatype Geometry = Geometry(top: int, height: int)

  predicate DistinctIds<C>(items: seq<MenuItem<C>>) {
    forall i, j :: 0 <= i < j < |items| ==> items[i].id != items[j].id
  }

  /** The index the highlight effect moves to, if it moves: the active
      section must be truthy, the ref array non-empty, and the first item
      with that id must have a mounted element. */
  function HighlightTarget<C>(items: seq<MenuItem<C>>, refs: seq<Option<Element>>,
                              activeSection: Option<string>): (r: Option<nat>)
    ensures r.Some? ==> (Truthy(activeSection) && r.value < |items| && r.value < |refs| &&
      refs[r.value].Some? && items[r.value].id == activeSection.value &&
      forall j :: 0 <= j < r.value ==> items[j].id != activeSection.value)
    ensures (!Truthy(activeSection) || |refs| == 0 ||
             forall i :: 0 <= i < |items| ==> items[i].id != activeSection.value) ==> r.None?
    ensures (Truthy(activeSection) &&
      exists i :: 0 <= i < |items| && i < |refs| && refs[i].Some? && items[i].id == activeSection.value &&
                  forall j :: 0 <= j < i ==> items[j].id != activeSection.value) ==> r.Some?
  {
    if Truthy(activeSection) && |refs| != 0 then
      var index := FindIndex(items, (item: MenuItem<C>) => item.id == activeSection.value);
      if 0 <= index && index < |refs| && refs[index].Some? then Some(index) else None
    else None
  }

  /** With distinct ids, making item `i`'s id the active section moves the
      highlight to `i`, provided its element is mounted. */
  lemma SelectingItemTargetsIt<C>(items: seq<MenuItem<C>>, refs: seq<Option<Element>>, i: nat)
    requires DistinctIds(items) && i < |items| && items[i].id != ""
    requires i < |refs| && refs[i].Some?
    ensures HighlightTarget(items, refs, Some(items[i].id)) == Some(i)
  {
    FindUnique(items, (item: MenuItem<C>) => item.id == items[i].id, i);
  }

  /** The `$active` flag of item `i`. */
  function ItemActive<C>(items: seq<MenuItem<C>>, activeSection: Option<string>, i: nat): (active: bool)
    requires i < |items|
    ensures active <==> activeSection == Some(items[i].id)
  {
    activeSection == Some(items[i].id)
  }

  /** With distinct ids, an active section naming item `k` marks item `k`
      and no other. */
  lemma ExactlyOneItemActive<C>(items: seq<MenuItem<C>>, k: nat)
    requires DistinctIds(items) && k < |items|
    ensures forall i :: 0 <= i < |items| ==> (ItemActive(items, Some(items[k].id), i) <==> i == k)
  {
  }

  /** `{activeSection && <HighlightBar/>}`: the bar is present exactly when
      the active section is truthy. */
  function HighlightShown(activeSection: Option<string>): (shown: bool)
    ensures shown ==> activeSection.Some?
    ensures activeSection.Some? && activeSection.value != "" ==> shown
  {
    Truthy(activeSection)
  }

  class MenuComponent<C> {
    const items: seq<MenuItem<C>>
    var highlightPosition: Geometry
    var activeIndex: nat
    /** `menuItemRefs.current`: `None` stands for a hole or a null ref. */
    var itemRefs: seq<Option<Element>>

    constructor (items: seq<MenuItem<C>>)
      ensures this.items == items
      ensures highlightPosition == Geometry(0, 0) && activeIndex == 0 && itemRefs == []
    {
      this.items := items;
      highlightPosition := Geometry(0, 0);
      activeIndex := 0;
      itemRefs := [];
    }

    /** The ref callback of item `index`: the element on mount, null on
        unmount. */
    method AttachRef(index: nat, element: Option<Element>)
      modifies this`itemRefs
      ensures itemRefs == Assign(old(itemRefs), index, element)
      ensures itemRefs[index] == element
    {
      itemRefs := Assign(itemRefs, index, element);
    }

    /** The effect on `[items]`: keep at most one ref per item. */
    method TrimRefs()
      modifies this`itemRefs
      ensures itemRefs == SliceTo(old(itemRefs), |items|)
      ensures |itemRefs| <= |items| && itemRefs == old(itemRefs)[..|itemRefs|]
    {
      itemRefs := SliceTo(itemRefs, |items|);
    }

    /** The effect on `[activeSection, items]`: move the highlight to the
        active item's element, or leave everything as it was. */
    method HighlightEffect(activeSection: Option<string>)
      modifies this`highlightPosition, this`activeIndex
      ensures match HighlightTarget(items, itemRefs, activeSection)
        case Some(i) =>
          activeIndex == i && items[i].id == activeSection.value &&
          highlightPosition == Geometry(itemRefs[i].value.offsetTop, itemRefs[i].value.offsetHeight)
        case None =>
          activeIndex == old(activeIndex) && highlightPosition == old(highlightPosition)
    {
      if Truthy(activeSection) && |itemRefs| != 0 {
        var index := FindIndex(items, (item: MenuItem<C>) => item.id == activeSection.value);
        if index >= 0 && index < |itemRefs| && itemRefs[index].Some? {
          var element := itemRefs[index].value;
          highlightPosition := Geometry(element.offsetTop, element.offsetHeight);
          activeIndex := index;
        }
      }
    }

    /** A click on item `i` asks the owner to make its id the active
        section, and changes nothing in the menu itself. */
    method Click(i: nat) returns (requested: string)
      requires i < |items|
      ensures requested == items[i].id
    {
      requested := items[i].id;
    }
  }
}
