/** The category administration screen (components/CategoryManager.tsx): the
    in-memory list, the form draft, and the handlers that save, add, edit and
    delete categories through the store. */
module CategoryManager {
  import opened Wrappers
  import opened Types
  import opened Lists
  import opened Storage

  /** The icon given to a new category whose draft has none. */
  const DefaultIcon := "https://picsum.photos/id/1047/200/200"

  /** The form's `Partial<Category>`: every field may be missing. */
  datatype Draft = Draft(id: Option<string>, code: Option<string>, title: Option<string>, icon: Option<string>)

  /** The draft before any form has been opened. */
  const EmptyDraft := Draft(None, None, None, None)

  /** `handleOpenAdd`: empty code and title, the default icon, no id. */
  function AddDraft(): Draft {
    Draft(None, Some(""), Some(""), Some(DefaultIcon))
  }

  /** `handleOpenEdit`: a copy of the category being edited. */
  function EditDraft(c: Category): Draft {
    Draft(Some(c.id), Some(c.code), Some(c.title), Some(c.icon))
  }

  /** The category the add path builds: the new id, the draft's code and title,
      and the draft's icon unless it is missing or empty. */
  function NewCategory(d: Draft, newId: string): (c: Category)
    ensures c.id == newId && c.icon != ""
    ensures Truthy(d.code) && Truthy(d.title) ==> c.code == d.code.value && c.title == d.title.value
    ensures Truthy(d.icon) ==> c.icon == d.icon.value
    ensures !Truthy(d.icon) ==> c.icon == DefaultIcon
  {
    Category(newId, d.code.GetOr(""), d.title.GetOr(""), if Truthy(d.icon) then d.icon.value else DefaultIcon)
  }

  /** The draft taken as a whole record (`currentCategory as Category`): each
      field the draft has is taken as it is; a missing field becomes "". An
      edit draft taken as a record is the category it was opened on. */
  function AsCategory(d: Draft): (c: Category)
    ensures d.id.Some? ==> c.id == d.id.value
    ensures d.code.Some? ==> c.code == d.code.value
    ensures d.title.Some? ==> c.title == d.title.value
    ensures d.icon.Some? ==> c.icon == d.icon.value
    ensures d.id.None? ==> c.id == ""
    ensures d.code.None? ==> c.code == ""
    ensures d.title.None? ==> c.title == ""
    ensures d.icon.None? ==> c.icon == ""
    ensures forall k: Category {:trigger EditDraft(k)} :: d == EditDraft(k) ==> c == k
  {
    Category(d.id.GetOr(""), d.code.GetOr(""), d.title.GetOr(""), d.icon.GetOr(""))
  }

  function IdIs(id: string): Category -> bool {
    (c: Category) => c.id == id
  }

  function IdIsNot(id: string): Category -> bool {
    (c: Category) => c.id != id
  }

  function Ids(cs: seq<Category>): (ids: seq<string>)
    ensures |ids| == |cs| && forall i :: 0 <= i < |cs| ==> ids[i] == cs[i].id
  {
    seq(|cs|, i requires 0 <= i < |cs| => cs[i].id)
  }

  /** The edit path: every category whose id is the draft's becomes the draft,
      wholesale; all others stay where they are. */
  function Replaced(cs: seq<Category>, d: Draft): (r: seq<Category>)
    ensures |r| == |cs|
    ensures forall i :: 0 <= i < |cs| ==>
              r[i] == if cs[i].id == d.id.GetOr("") then AsCategory(d) else cs[i]
  {
    ReplaceWhere(cs, IdIs(d.id.GetOr("")), (c: Category) => AsCategory(d))
  }

  /** The delete path: every category with that id goes, the rest stay in order. */
  function Removed(cs: seq<Category>, id: string): (r: seq<Category>)
    ensures |r| <= |cs|
    ensures forall i :: 0 <= i < |r| ==> r[i].id != id && r[i] in cs
    ensures forall i :: 0 <= i < |cs| && cs[i].id != id ==> cs[i] in r
  {
    Filter(cs, IdIsNot(id))
  }

  /** `handleSave`'s new list, computed from the in-memory list `cs`: None when
      the code or the title is missing or empty (nothing is saved); the edit
      path when editing a draft that has an id; the add path otherwise. */
  function SaveResult(cs: seq<Category>, d: Draft, editing: bool, newId: string): (r: Option<seq<Category>>)
    ensures r.None? <==> !Truthy(d.code) || !Truthy(d.title)
    ensures r.Some? && editing && Truthy(d.id) ==>
              |r.value| == |cs| && Ids(r.value) == Ids(cs) &&
              forall i :: 0 <= i < |cs| ==>
                r.value[i] == if cs[i].id == d.id.value then AsCategory(d) else cs[i]
    ensures r.Some? && !(editing && Truthy(d.id)) ==>
              |r.value| == |cs| + 1 && r.value[..|cs|] == cs &&
              r.value[|cs|] == Category(newId, d.code.value, d.title.value,
                                        if Truthy(d.icon) then d.icon.value else DefaultIcon)
  {
    if !Truthy(d.code) || !Truthy(d.title) then None
    else if editing && Truthy(d.id) then
      ReplacedKeepsIds(cs, d);
      Some(Replaced(cs, d))
    else
      var r := cs + [NewCategory(d, newId)];
      assert r[..|cs|] == cs;
      Some(r)
  }

  /** Editing keeps the list's ids, in order, so distinct ids stay distinct. */
  lemma ReplacedKeepsIds(cs: seq<Category>, d: Draft)
    requires d.id.Some?
    ensures Ids(Replaced(cs, d)) == Ids(cs)
    ensures DistinctCategoryIds(cs) ==> DistinctCategoryIds(Replaced(cs, d))
  {
  }

  /** Saving an edit draft opened on a listed category, unchanged, leaves the
      list as it was (ids distinct). */
  lemma ReplacedWithOwnDraft(cs: seq<Category>, k: nat)
    requires k < |cs| && DistinctCategoryIds(cs)
    ensures Replaced(cs, EditDraft(cs[k])) == cs
  {
  }

  /** Saving the same edit twice has the effect of saving it once. */
  lemma ReplacedIdempotent(cs: seq<Category>, d: Draft)
    ensures Replaced(Replaced(cs, d), d) == Replaced(cs, d)
  {
  }

  /** The delete keeps the survivors in order with their multiplicities, and
      removes nothing when no category has the id. */
  lemma RemovedIsOrderedSelection(cs: seq<Category>, id: string)
    ensures IsSubsequence(Removed(cs, id), cs)
    ensures forall c :: multiset(Removed(cs, id))[c] == if c.id != id then multiset(cs)[c] else 0
    ensures (forall i :: 0 <= i < |cs| ==> cs[i].id != id) ==> Removed(cs, id) == cs
  {
    FilterIsSubsequence(cs, IdIsNot(id));
    FilterCounts(cs, IdIsNot(id));
    if forall i :: 0 <= i < |cs| ==> cs[i].id != id {
      FilterKeepsAll(cs, IdIsNot(id));
    }
  }

  /** With distinct ids, deleting the category at position `i` removes exactly
      that position. */
  lemma RemovedAt(cs: seq<Category>, i: nat)
    requires i < |cs| && DistinctCategoryIds(cs)
    ensures Removed(cs, cs[i].id) == cs[..i] + cs[i + 1..]
  {
    FilterDropsOne(cs, i, IdIsNot(cs[i].id));
  }

  /** Deleting the category just added under a fresh id gives back the list
      as it was before the add. */
  lemma AddThenRemoveRestores(cs: seq<Category>, d: Draft, newId: string)
    requires forall i :: 0 <= i < |cs| ==> cs[i].id != newId
    ensures Removed(cs + [NewCategory(d, newId)], newId) == cs
  {
    FilterAppend(cs, [NewCategory(d, newId)], IdIsNot(newId));
    FilterKeepsAll(cs, IdIsNot(newId));
    assert Filter([NewCategory(d, newId)], IdIsNot(newId)) == [];
  }

  /** Adding under a fresh id keeps the ids distinct. */
  lemma AddKeepsIdsDistinct(cs: seq<Category>, d: Draft, newId: string)
    requires DistinctCategoryIds(cs)
    requires forall i :: 0 <= i < |cs| ==> cs[i].id != newId
    ensures DistinctCategoryIds(cs + [NewCategory(d, newId)])
  {
  }

  class Manager {
    const store: Store
    /** The `categories` state: the list on screen. */
    var categories: seq<Category>
    /** The `currentCategory` state: the form draft. */
    var draft: Draft
    var isEditing: bool
    var isModalOpen: bool

    constructor (store: Store)
      ensures this.store == store
      ensures categories == [] && draft == EmptyDraft && !isEditing && !isModalOpen
    {
      this.store := store;
      categories := [];
      draft := EmptyDraft;
      isEditing := false;
      isModalOpen := false;
    }

    /** `fetchCategories`: the list on screen becomes the stored list (seeded if absent). */
    method Fetch()
      modifies this, store
      ensures categories == old(store.categories).GetOr(store.categorySeed)
      ensures store.categories == Some(categories)
      ensures store.exhibits == old(store.exhibits)
      ensures draft == old(draft) && isEditing == old(isEditing) && isModalOpen == old(isModalOpen)
    {
      categories := store.GetCategories();
    }

    /** `handleOpenAdd`. */
    method OpenAdd()
      modifies this
      ensures draft == AddDraft() && !isEditing && isModalOpen
      ensures categories == old(categories)
    {
      draft := AddDraft();
      isEditing := false;
      isModalOpen := true;
    }

    /** `handleOpenEdit`. */
    method OpenEdit(c: Category)
      modifies this
      ensures draft == EditDraft(c) && isEditing && isModalOpen
      ensures categories == old(categories)
    {
      draft := EditDraft(c);
      isEditing := true;
      isModalOpen := true;
    }

    /** The code and title inputs, and a completed icon upload (its encoded image). */
    method SetCode(code: string)
      modifies this`draft
      ensures draft == old(draft).(code := Some(code))
    {
      draft := draft.(code := Some(code));
    }

    method SetTitle(title: string)
      modifies this`draft
      ensures draft == old(draft).(title := Some(title))
    {
      draft := draft.(title := Some(title));
    }

    method SetIcon(icon: string)
      modifies this`draft
      ensures draft == old(draft).(icon := Some(icon))
    {
      draft := draft.(icon := Some(icon));
    }

    /** `handleSave`: a refused draft changes nothing; otherwise the new list
        (built from the list on screen, not from a fresh read) is saved whole,
        becomes the list on screen, and the form closes. */
    method Save(newId: string)
      modifies this, store
      ensures var r := SaveResult(old(categories), old(draft), old(isEditing), newId);
              if r.None? then
                categories == old(categories) && store.categories == old(store.categories) &&
                isModalOpen == old(isModalOpen)
              else
                categories == r.value && store.categories == r && !isModalOpen
      ensures store.exhibits == old(store.exhibits)
      ensures draft == old(draft) && isEditing == old(isEditing)
    {
      if !Truthy(draft.code) || !Truthy(draft.title) {
        return;
      }
      var updated := categories;
      if isEditing && Truthy(draft.id) {
        updated := Replaced(updated, draft);
      } else {
        updated := updated + [NewCategory(draft, newId)];
      }
      store.SaveCategories(updated);
      categories := updated;
      isModalOpen := false;
    }

    /** `handleDelete`: only when confirmed, the list on screen without that id
        is saved and shown. The exhibit collection is not touched: exhibits of
        the deleted category stay stored. */
    method Delete(id: string, confirmed: bool)
      modifies this, store
      ensures confirmed ==> categories == Removed(old(categories), id) && store.categories == Some(categories)
      ensures !confirmed ==> categories == old(categories) && store.categories == old(store.categories)
      ensures store.exhibits == old(store.exhibits)
      ensures draft == old(draft) && isEditing == old(isEditing) && isModalOpen == old(isModalOpen)
    {
      if confirmed {
        var updated := Removed(categories, id);
        store.SaveCategories(updated);
        categories := updated;
      }
    }
  }
}
