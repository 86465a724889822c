/** The per-category exhibit viewer (components/ExhibitView.tsx): the list of
    the route category's exhibits, the selected position in it, the form
    draft, and the handlers that move the selection and save, add, edit and
    delete exhibits through the store. */
module ExhibitView {
  import opened Wrappers
  import opened Types
  import opened Lists
  import opened Storage

  /** The image given to a new exhibit whose draft has none. */
  const DefaultImage := "https://picsum.photos/600/400"

  /** The form's `Partial<Exhibit>`: every field may be missing. */
  datatype Draft = Draft(
    id: Option<string>,
    code: Option<string>,
    name: Option<string>,
    categoryId: Option<string>,
    image: Option<string>,
    description: Option<string>)

  /** The draft before any form has been opened. */
  const EmptyDraft := Draft(None, None, None, None, None, None)

  /** `handleOpenAdd`: empty code, name and description, the default image, the route category. */
  function AddDraft(categoryId: string): Draft {
    Draft(None, Some(""), Some(""), Some(categoryId), Some(DefaultImage), Some(""))
  }

  /** `handleOpenEdit`: a copy of the exhibit being edited. */
  function EditDraft(e: Exhibit): Draft {
    Draft(Some(e.id), Some(e.code), Some(e.name), Some(e.categoryId), Some(e.image), Some(e.description))
  }

  /** `{ ...e, ...d }`: each field the draft has overrides the exhibit's. */
  function Merge(e: Exhibit, d: Draft): (m: Exhibit)
    ensures d.id.Some? ==> m.id == d.id.value
    ensures d.id.None? ==> m.id == e.id
    ensures d.code.Some? ==> m.code == d.code.value
    ensures d.code.None? ==> m.code == e.code
    ensures d.name.Some? ==> m.name == d.name.value
    ensures d.name.None? ==> m.name == e.name
    ensures d.categoryId.Some? ==> m.categoryId == d.categoryId.value
    ensures d.categoryId.None? ==> m.categoryId == e.categoryId
    ensures d.image.Some? ==> m.image == d.image.value
    ensures d.image.None? ==> m.image == e.image
    ensures d.description.Some? ==> m.description == d.description.value
    ensures d.description.None? ==> m.description == e.description
  {
    Exhibit(d.id.GetOr(e.id), d.code.GetOr(e.code), d.name.GetOr(e.name),
            d.categoryId.GetOr(e.categoryId), d.image.GetOr(e.image), d.description.GetOr(e.description))
  }

  /** A merge with a draft that has every field is that draft's record; in
      particular an edit draft saved unchanged gives back the exhibit. */
  lemma MergeFullDraft(e: Exhibit, f: Exhibit)
    ensures Merge(e, EditDraft(f)) == f
    ensures Merge(e, EmptyDraft) == e
  {
  }

  /** The exhibit the create path builds: the new id, the route category, the
      draft's code and name, an empty description and the default image unless
      the draft has non-empty ones. */
  function NewExhibit(d: Draft, categoryId: string, newId: string): (e: Exhibit)
    ensures e.id == newId && e.categoryId == categoryId && e.image != ""
    ensures Truthy(d.code) && Truthy(d.name) ==> e.code == d.code.value && e.name == d.name.value
    ensures Truthy(d.image) ==> e.image == d.image.value
    ensures !Truthy(d.image) ==> e.image == DefaultImage
    ensures Truthy(d.description) ==> e.description == d.description.value
    ensures !Truthy(d.description) ==> e.description == ""
  {
    Exhibit(newId, d.code.GetOr(""), d.name.GetOr(""), categoryId,
            if Truthy(d.image) then d.image.value else DefaultImage,
            if Truthy(d.description) then d.description.value else "")
  }

  function IdIs(id: string): Exhibit -> bool {
    (e: Exhibit) => e.id == id
  }

  function IdIsNot(id: string): Exhibit -> bool {
    (e: Exhibit) => e.id != id
  }

  /** `cats.find(c => c.id === id)`: the first category with that id, if any. */
  function FindCategory(cs: seq<Category>, id: string): (r: Option<Category>)
    ensures r.None? <==> forall i :: 0 <= i < |cs| ==> cs[i].id != id
    ensures r.Some? ==> exists i :: 0 <= i < |cs| && cs[i] == r.value && r.value.id == id &&
                                   forall j :: 0 <= j < i ==> cs[j].id != id
  {
    Find(cs, (c: Category) => c.id == id)
  }

  /** The edit path: every exhibit whose id is the draft's is merged with the
      draft; every other exhibit, of any category, stays as it was. */
  function Edited(all: seq<Exhibit>, d: Draft): (r: seq<Exhibit>)
    ensures |r| == |all|
    ensures forall i :: 0 <= i < |all| ==>
              r[i] == if all[i].id == d.id.GetOr("") then Merge(all[i], d) else all[i]
  {
    ReplaceWhere(all, IdIs(d.id.GetOr("")), (e: Exhibit) => Merge(e, d))
  }

  /** The delete path: every exhibit with that id goes, the rest stay in order. */
  function Removed(es: seq<Exhibit>, id: string): (r: seq<Exhibit>)
    ensures |r| <= |es|
    ensures forall i :: 0 <= i < |r| ==> r[i].id != id && r[i] in es
    ensures forall i :: 0 <= i < |es| && es[i].id != id ==> es[i] in r
  {
    Filter(es, IdIsNot(id))
  }

  /** `handleSave`'s new global list, computed from the stored list `all`:
      None when the name or the code is missing or empty; the edit path when
      editing a draft that has an id; the create path otherwise. */
  function SaveResult(all: seq<Exhibit>, d: Draft, editing: bool, categoryId: string, newId: string)
    : Option<seq<Exhibit>>
  {
    if !Truthy(d.name) || !Truthy(d.code) then None
    else if editing && Truthy(d.id) then Some(Edited(all, d))
    else Some(all + [NewExhibit(d, categoryId, newId)])
  }

  /** A save is refused exactly when the name or the code is missing or empty
      (no trimming). An edit keeps the length and merges the draft into the
      exhibits with its id only, whatever their category; a create keeps every
      stored exhibit in place and appends one exhibit of the route category. */
  lemma SaveResultCases(all: seq<Exhibit>, d: Draft, editing: bool, categoryId: string, newId: string)
    ensures var r := SaveResult(all, d, editing, categoryId, newId);
            (r.None? <==> !Truthy(d.name) || !Truthy(d.code)) &&
            (r.Some? && editing && Truthy(d.id) ==>
               |r.value| == |all| &&
               forall i :: 0 <= i < |all| ==>
                 r.value[i] == if all[i].id == d.id.value then Merge(all[i], d) else all[i]) &&
            (r.Some? && !(editing && Truthy(d.id)) ==>
               |r.value| == |all| + 1 && r.value[..|all|] == all &&
               r.value[|all|] == NewExhibit(d, categoryId, newId) &&
               r.value[|all|].categoryId == categoryId)
  {
  }

  /** The selection the clamp effect leaves: an index past the end of a
      non-empty list moves to the last position; otherwise it stays. */
  function Clamped(index: int, length: int): (r: int)
    ensures r <= index
    ensures 0 <= index && 0 < length ==> 0 <= r < length
    ensures index < length || length == 0 ==> r == index
    ensures 0 < length <= index ==> r == length - 1
  {
    if length > 0 && index >= length then length - 1 else index
  }

  /** A new exhibit lands at the end of its category's list; the lists of the
      other categories do not change. */
  lemma CreatedIsLastOfCategory(all: seq<Exhibit>, d: Draft, categoryId: string, newId: string, k: string)
    ensures var e := NewExhibit(d, categoryId, newId);
            ByCategory(all + [e], k) == if k == categoryId then ByCategory(all, k) + [e] else ByCategory(all, k)
  {
    ByCategoryAppend(all, NewExhibit(d, categoryId, newId), k);
  }

  /** After a create, the route category's list is its earlier list with the
      new exhibit at the end: the position the create selects. */
  lemma CreatedPosition(all: seq<Exhibit>, d: Draft, categoryId: string, newId: string)
    ensures var local := ByCategory(all + [NewExhibit(d, categoryId, newId)], categoryId);
            |local| == |ByCategory(all, categoryId)| + 1 &&
            local[|local| - 1] == NewExhibit(d, categoryId, newId) &&
            local[..|local| - 1] == ByCategory(all, categoryId)
  {
    CreatedIsLastOfCategory(all, d, categoryId, newId, categoryId);
    var before := ByCategory(all, categoryId);
    assert (before + [NewExhibit(d, categoryId, newId)])[..|before|] == before;
  }

  /** An edit whose target exhibits are outside category `k`, before and after
      the merge, leaves the list of `k` as it was. */
  lemma {:induction false} EditedLeavesOtherCategories(all: seq<Exhibit>, d: Draft, k: string)
    requires forall i :: 0 <= i < |all| && all[i].id == d.id.GetOr("") ==>
               all[i].categoryId != k && Merge(all[i], d).categoryId != k
    ensures ByCategory(Edited(all, d), k) == ByCategory(all, k)
  {
    FilterAgree(Edited(all, d), all, InCategory(k));
  }

  /** Saving an edit draft opened on a stored exhibit, unchanged, leaves the
      global list as it was (ids distinct). */
  lemma EditedWithOwnDraft(all: seq<Exhibit>, k: nat)
    requires k < |all| && DistinctExhibitIds(all)
    ensures Edited(all, EditDraft(all[k])) == all
  {
  }

  /** Deleting from the global list and then taking a category's part is the
      same as deleting from that category's part. */
  lemma RemovedByCategory(all: seq<Exhibit>, id: string, k: string)
    ensures ByCategory(Removed(all, id), k) == Removed(ByCategory(all, k), id)
  {
    FilterCommutes(all, IdIsNot(id), InCategory(k));
  }

  /** With distinct ids, deleting the exhibit at position `i` removes exactly
      that position. */
  lemma RemovedAt(es: seq<Exhibit>, i: nat)
    requires i < |es| && DistinctExhibitIds(es)
    ensures Removed(es, es[i].id) == es[..i] + es[i + 1..]
  {
    FilterDropsOne(es, i, IdIsNot(es[i].id));
  }

  /** After deleting the selected exhibit (ids distinct) and clamping, the
      selection shows the exhibit that followed it, or the one before it when
      the last one was deleted; a list of N with the last selected shrinks to
      N-1 with position N-2 selected. */
  lemma ClampAfterRemovingSelected(es: seq<Exhibit>, i: nat)
    requires i < |es| && DistinctExhibitIds(es)
    ensures var r := Removed(es, es[i].id);
            |r| == |es| - 1 &&
            (|r| > 0 ==> r[Clamped(i, |r|)] == if i < |es| - 1 then es[i + 1] else es[i - 1]) &&
            (i == |es| - 1 && |es| >= 2 ==> Clamped(i, |r|) == |es| - 2)
  {
    RemovedAt(es, i);
  }

  class Viewer {
    const store: Store
    /** The `categoryId` route parameter. */
    var routeId: string
    /** The `category` state: None is the "not found" display. */
    var category: Option<Category>
    /** The `exhibits` state: the route category's exhibits on screen. */
    var exhibits: seq<Exhibit>
    var selectedIndex: int
    /** The `currentExhibit` state: the form draft. */
    var draft: Draft
    var isEditing: bool
    var isModalOpen: bool

    /** The list on screen is the route category's part of the stored list. */
    ghost predicate Synced()
      reads this, store
    {
      store.exhibits.Some? && exhibits == ByCategory(store.exhibits.value, routeId)
    }

    /** The selection is a position of the list whenever the list has one. */
    predicate InRange()
      reads this
    {
      0 <= selectedIndex && (exhibits != [] ==> selectedIndex < |exhibits|)
    }

    constructor (store: Store)
      ensures this.store == store && routeId == ""
      ensures category == None && exhibits == [] && selectedIndex == 0
      ensures draft == EmptyDraft && !isEditing && !isModalOpen
    {
      this.store := store;
      routeId := "";
      category := None;
      exhibits := [];
      selectedIndex := 0;
      draft := EmptyDraft;
      isEditing := false;
      isModalOpen := false;
    }

    /** The `init` effect on entering the route of category `routeId`: with an
        id, the category is looked up (None when no category has it), the list
        becomes that category's exhibits and the selection resets to 0; both
        collections are seeded if absent. Without an id nothing is loaded. */
    method Enter(routeId: string)
      modifies this, store
      ensures this.routeId == routeId
      ensures routeId == "" ==>
                category == old(category) && exhibits == old(exhibits) &&
                selectedIndex == old(selectedIndex) &&
                store.categories == old(store.categories) && store.exhibits == old(store.exhibits)
      ensures routeId != "" ==>
                var cats := old(store.categories).GetOr(store.categorySeed);
                store.categories == Some(cats) &&
                store.exhibits == Some(old(store.exhibits).GetOr(store.exhibitSeed)) &&
                category == FindCategory(cats, routeId) &&
                selectedIndex == 0 && Synced() && InRange()
      ensures draft == old(draft) && isEditing == old(isEditing) && isModalOpen == old(isModalOpen)
    {
      this.routeId := routeId;
      if routeId != "" {
        var cats := store.GetCategories();
        category := FindCategory(cats, routeId);
        exhibits := store.GetExhibitsByCategory(routeId);
        selectedIndex := 0;
      }
    }

    /** The clamp effect, run whenever the list's length or the selection changes. */
    method Clamp()
      modifies this`selectedIndex
      ensures selectedIndex == Clamped(old(selectedIndex), |exhibits|)
      ensures old(selectedIndex) >= 0 ==> InRange()
    {
      if |exhibits| > 0 && selectedIndex >= |exhibits| {
        selectedIndex := |exhibits| - 1;
      }
    }

    /** `handleNext`: one step forward unless the last exhibit is selected. */
    method Next()
      modifies this`selectedIndex
      ensures selectedIndex == if old(selectedIndex) < |exhibits| - 1 then old(selectedIndex) + 1 else old(selectedIndex)
      ensures old(InRange()) ==> InRange()
    {
      if selectedIndex < |exhibits| - 1 {
        selectedIndex := selectedIndex + 1;
      }
    }

    /** `handlePrev`: one step back unless the first exhibit is selected. */
    method Prev()
      modifies this`selectedIndex
      ensures selectedIndex == if old(selectedIndex) > 0 then old(selectedIndex) - 1 else old(selectedIndex)
      ensures old(InRange()) ==> InRange()
    {
      if selectedIndex > 0 {
        selectedIndex := selectedIndex - 1;
      }
    }

    /** A click on the `i`-th entry of the list on screen. */
    method Select(i: int)
      requires 0 <= i < |exhibits|
      modifies this`selectedIndex
      ensures selectedIndex == i && InRange()
    {
      selectedIndex := i;
    }

    /** `handleOpenAdd`. */
    method OpenAdd()
      modifies this`draft, this`isEditing, this`isModalOpen
      ensures draft == AddDraft(routeId) && !isEditing && isModalOpen
    {
      draft := AddDraft(routeId);
      isEditing := false;
      isModalOpen := true;
    }

    /** `handleOpenEdit`. */
    method OpenEdit(e: Exhibit)
      modifies this`draft, this`isEditing, this`isModalOpen
      ensures draft == EditDraft(e) && isEditing && isModalOpen
    {
      draft := EditDraft(e);
      isEditing := true;
      isModalOpen := true;
    }

    /** The code, name and description inputs, and a completed image upload (its encoded image). */
    method SetCode(code: string)
      modifies this`draft
      ensures draft == old(draft).(code := Some(code))
    {
      draft := draft.(code := Some(code));
    }

    method SetName(name: string)
      modifies this`draft
      ensures draft == old(draft).(name := Some(name))
    {
      draft := draft.(name := Some(name));
    }

    method SetDescription(description: string)
      modifies this`draft
      ensures draft == old(draft).(description := Some(description))
    {
      draft := draft.(description := Some(description));
    }

    method SetImage(image: string)
      modifies this`draft
      ensures draft == old(draft).(image := Some(image))
    {
      draft := draft.(image := Some(image));
    }

    /** `handleGenerateDescription`, with the service's answer `text` as a
        parameter: refused without a name or without a category. */
    method GenerateDescription(text: string)
      modifies this`draft
      ensures if !Truthy(old(draft).name) || category.None? then draft == old(draft)
              else draft == old(draft).(description := Some(text))
    {
      if !Truthy(draft.name) || category.None? {
        return;
      }
      draft := draft.(description := Some(text));
    }

    /** `handleSave`. A refused draft reads and writes nothing. Otherwise the
        stored list (seeded if absent) is edited or extended, saved whole, and
        its route-category part becomes the list on screen. An edit keeps the
        selection; a create selects the new exhibit, the last of the list. */
    method Save(newId: string)
      modifies this`exhibits, this`selectedIndex, this`isModalOpen, store
      ensures var all := old(store.exhibits).GetOr(store.exhibitSeed);
              var r := SaveResult(all, old(draft), old(isEditing), routeId, newId);
              if r.None? then
                store.exhibits == old(store.exhibits) && exhibits == old(exhibits) &&
                selectedIndex == old(selectedIndex) && isModalOpen == old(isModalOpen)
              else
                store.exhibits == r && Synced() && !isModalOpen &&
                selectedIndex == if old(isEditing) && Truthy(old(draft).id) then old(selectedIndex) else |exhibits| - 1
      ensures Truthy(old(draft).name) && Truthy(old(draft).code) && !(old(isEditing) && Truthy(old(draft).id)) ==>
                var all := old(store.exhibits).GetOr(store.exhibitSeed);
                0 <= selectedIndex < |exhibits| &&
                exhibits[selectedIndex] == NewExhibit(old(draft), routeId, newId) &&
                exhibits[..selectedIndex] == ByCategory(all, routeId) &&
                (old(Synced()) ==> selectedIndex == |old(exhibits)|)
      ensures store.categories == old(store.categories)
      ensures routeId == old(routeId) && category == old(category)
      ensures draft == old(draft) && isEditing == old(isEditing)
    {
      if !Truthy(draft.name) || !Truthy(draft.code) {
        return;
      }
      ghost var shown := exhibits;
      ghost var wasSynced := Synced();
      var all := store.GetExhibits();
      assert wasSynced ==> shown == ByCategory(all, routeId);
      var updated: seq<Exhibit>;
      var newIndex := selectedIndex;
      if isEditing && Truthy(draft.id) {
        updated := Edited(all, draft);
      } else {
        var created := NewExhibit(draft, routeId, newId);
        updated := all + [created];
        CreatedPosition(all, draft, routeId, newId);
        newIndex := |ByCategory(updated, routeId)| - 1;
      }
      store.SaveExhibits(updated);
      exhibits := ByCategory(updated, routeId);
      selectedIndex := newIndex;
      isModalOpen := false;
    }

    /** `handleDelete`: only when confirmed, every exhibit with that id leaves
        the stored list (seeded if absent), which is saved whole, and leaves
        the list on screen; the selection is left to the clamp effect. */
    method Delete(id: string, confirmed: bool)
      modifies this, store
      ensures confirmed ==>
                store.exhibits == Some(Removed(old(store.exhibits).GetOr(store.exhibitSeed), id)) &&
                exhibits == Removed(old(exhibits), id) &&
                (old(Synced()) ==> Synced())
      ensures !confirmed ==> store.exhibits == old(store.exhibits) && exhibits == old(exhibits)
      ensures selectedIndex == old(selectedIndex)
      ensures store.categories == old(store.categories)
      ensures routeId == old(routeId) && category == old(category)
      ensures draft == old(draft) && isEditing == old(isEditing) && isModalOpen == old(isModalOpen)
    {
      if confirmed {
        var all := store.GetExhibits();
        var updated := Removed(all, id);
        store.SaveExhibits(updated);
        RemovedByCategory(all, id, routeId);
        exhibits := Removed(exhibits, id);
      }
    }
  }
}
