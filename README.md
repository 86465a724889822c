# Museum catalog record logic in Dafny

This project models the record logic of a small browser catalog of categories
and exhibits. It has three parts.

- **The record store** (`Storage`). Two collections live in browser key-value
  storage, each under its own key. Reading a missing key seeds it with the
  built-in defaults and writes them back. Saving overwrites a whole collection.
  "Exhibits of a category" is a filter on `categoryId` that keeps the order.
- **The category administration screen** (`CategoryManager`). It holds an
  in-memory list and a form draft. Saving validates the draft, then either
  replaces the category with the draft's id or appends a new category with
  the draft's icon, or the default icon when that is missing or empty. Deleting removes by id, only after confirmation, and does not
  cascade to exhibits.
- **The per-category exhibit viewer** (`ExhibitView`). It holds the filtered
  list of one category and a selection index. Entering a category resets the
  index to 0. Next and previous stay inside the list. A clamp step pulls the
  index back after deletions. A create selects the new exhibit. Saves and
  deletes go through the global list in the store.

`Types` holds the two record shapes and the seed data. `Lists` gives the
JavaScript array operations the code is built from (`filter`, `map` over
matching elements, `find`) and proves their properties once. `Scenarios`
holds verified scenarios on a fresh store (seed, add, delete without cascade,
create and select, delete and clamp). Each is proved from the method
contracts together with the lemmas about the lists involved.

Each screen handler is a method of a class whose fields are the component's
state (`categories`, `exhibits`, `selectedIndex`, the draft, the editing and
modal flags). The store is a class with two `Option<seq<…>>` fields: `None`
means the key is absent. The new-record id (`Date.now()`), the confirmation
answer (`confirm()`), an uploaded image and the generated description are
method parameters.

Three details of the code's behaviour, which the model follows:
- Validation tests JavaScript truthiness (`!draft.code`): a missing or empty
  field is refused. A field of spaces is accepted, because nothing is trimmed.
- On the category edit path the draft replaces the record wholesale. No
  default icon is applied there. The default icon only applies when adding.
- The delete confirmation's wording says a category's exhibits are removed
  with it. The code removes only the category
  (components/CategoryManager.tsx:33-38).

## Model

| member | source | states |
|---|---|---|
| `Types.InitialCategoriesShape` | types.ts:20-24 | the seed has three categories with distinct ids '1', '2', '3' and codes C001–C003, in that order |
| `Types.InitialExhibitsShape` | types.ts:26-43 | the seed has two exhibits with distinct ids '101' (E001) and '102' (E002), both in category '1' |
| `Types.SeedExhibitsNameSeedCategories` | types.ts:20-43 | every seeded exhibit's categoryId is the id of a seeded category |
| `Lists.Filter` | services/storageService.ts:39 | `filter`: the result is no longer than the input; it holds only accepted elements of the input and every accepted element of the input |
| `Lists.FilterIsSubsequence` | services/storageService.ts:37-40 | the filter keeps the relative order of the input |
| `Lists.FilterCounts` | services/storageService.ts:37-40 | every accepted element keeps its multiplicity and every rejected one is gone, so with the ordering lemma the filter is fully determined |
| `Lists.FilterAppend` | components/ExhibitView.tsx:70-72 | filtering distributes over concatenation |
| `Lists.FilterKeepsAll` | components/CategoryManager.tsx:34 | a filter that rejects nothing returns the list unchanged |
| `Lists.FilterCommutes` | components/ExhibitView.tsx:87-90 | two filters give the same result in either order |
| `Lists.FilterDropsOne` | components/ExhibitView.tsx:88 | a filter that rejects exactly one position removes exactly that position |
| `Lists.FilterAgree` | components/ExhibitView.tsx:79 | lists that agree wherever either keeps an element filter to the same list |
| `Lists.ReplaceWhere` | components/ExhibitView.tsx:58-60 | `map(x => hit ? f(x) : x)`: the length is kept, exactly the hit positions are rewritten, and all other positions are unchanged |
| `Lists.Find` | components/ExhibitView.tsx:26 | `find`: None exactly when nothing matches; otherwise the first matching element |
| `Storage.ByCategory` | services/storageService.ts:37-40 | the category's exhibits: only exhibits of that category taken from the list, every such exhibit present, never longer than the whole list |
| `Storage.ByCategoryIsOrderedSelection` | services/storageService.ts:37-40 | the list is an order-preserving subsequence with the multiplicities of the matching exhibits, and empty (not an error) when none match |
| `Storage.ByCategoryAppend` | components/ExhibitView.tsx:70-72 | an appended exhibit joins the end of its own category's list; other categories' lists are unchanged |
| `Storage.SeedCategoryOne` | types.ts:26-43 | category '1' of the seed lists the whole seed exhibit list |
| `Storage.Store.constructor` | services/storageService.ts:3-4 | an empty store has neither key; its seeds are the built-in defaults. Only this constructor fixes the seeds, so the store methods promise the store's own seeds, which equal the defaults on every constructed store |
| `Storage.Store.GetCategories` | services/storageService.ts:11-19 | an absent entry is seeded, written and returned; a present entry is returned and nothing is written; the exhibit entry is untouched |
| `Storage.Store.SaveCategories` | services/storageService.ts:21-24 | full overwrite of the category entry; the exhibit entry is untouched |
| `Storage.Store.GetExhibits` | services/storageService.ts:27-35 | as GetCategories, for the exhibit entry and its seed |
| `Storage.Store.GetExhibitsByCategory` | services/storageService.ts:37-40 | reads (seeding if absent) and returns the category's part of the stored list |
| `Storage.Store.SaveExhibits` | services/storageService.ts:42-45 | full overwrite of the exhibit entry; the category entry is untouched |
| `CategoryManager.NewCategory` | components/CategoryManager.tsx:73-78 | the added category has the new id and the draft's code and title; its icon is the draft's, or DEFAULT_ICON when that is missing or empty, so it is never empty |
| `CategoryManager.AsCategory` | components/CategoryManager.tsx:70 | the draft taken as a record keeps every field the draft has; a missing field becomes '' (see Left out); an edit draft taken as a record is the category it was opened on |
| `CategoryManager.Replaced` | components/CategoryManager.tsx:68-71 | the length is kept; every category with the draft's id becomes the draft wholesale; every other category is unchanged |
| `CategoryManager.Removed` | components/CategoryManager.tsx:34 | no category with the id remains; every other category is kept |
| `CategoryManager.SaveResult` | components/CategoryManager.tsx:58-80 | refused exactly when code or title is missing or empty; the edit path keeps the length and the id sequence and replaces by id; the add path keeps the prior list as a prefix and appends one category |
| `CategoryManager.ReplacedKeepsIds` | components/CategoryManager.tsx:68-71 | an edit keeps the sequence of ids, so distinct ids stay distinct |
| `CategoryManager.ReplacedWithOwnDraft` | components/CategoryManager.tsx:52-56 | saving an edit draft opened on a listed category, unchanged, leaves the list as it was (ids distinct) |
| `CategoryManager.ReplacedIdempotent` | components/CategoryManager.tsx:68-71 | saving the same edit twice equals saving it once |
| `CategoryManager.RemovedIsOrderedSelection` | components/CategoryManager.tsx:34 | a delete keeps the survivors in order with their multiplicities, and is the identity when no category has the id |
| `CategoryManager.RemovedAt` | components/CategoryManager.tsx:34 | with distinct ids, deleting the category at position i removes exactly position i |
| `CategoryManager.AddThenRemoveRestores` | components/CategoryManager.tsx:73-79 | deleting a category just added under a fresh id restores the list from before the add |
| `CategoryManager.AddKeepsIdsDistinct` | components/CategoryManager.tsx:73-79 | adding under a fresh id keeps ids distinct |
| `CategoryManager.Manager.constructor` | components/CategoryManager.tsx:7-11 | initial state: empty list, empty draft, not editing, modal closed |
| `CategoryManager.Manager.Fetch` | components/CategoryManager.tsx:16-26 | the list on screen becomes the stored list, seeded if absent; exhibits are untouched |
| `CategoryManager.Manager.OpenAdd` | components/CategoryManager.tsx:42-50 | the draft has empty code and title and the default icon; not editing; modal open |
| `CategoryManager.Manager.OpenEdit` | components/CategoryManager.tsx:52-56 | the draft is a copy of the category; editing; modal open |
| `CategoryManager.Manager.SetCode` | components/CategoryManager.tsx:184 | only the draft's code changes |
| `CategoryManager.Manager.SetTitle` | components/CategoryManager.tsx:195 | only the draft's title changes |
| `CategoryManager.Manager.SetIcon` | components/CategoryManager.tsx:87-97 | a completed upload sets only the draft's icon |
| `CategoryManager.Manager.Save` | components/CategoryManager.tsx:58-85 | a refused draft changes nothing and saves nothing; otherwise the list built from the in-memory list is saved whole, becomes the list on screen, and the modal closes; exhibits are untouched |
| `CategoryManager.Manager.Delete` | components/CategoryManager.tsx:32-40 | only when confirmed, the in-memory list without the id is saved and shown; unconfirmed changes nothing; the exhibit entry is never touched (no cascade) |
| `ExhibitView.Merge` | components/ExhibitView.tsx:59 | `{...ex, ...draft}`: each field the draft has overrides the exhibit's; each field it lacks keeps the exhibit's |
| `ExhibitView.MergeFullDraft` | components/ExhibitView.tsx:59 | merging a draft that has every field gives that draft's record, and merging an empty draft keeps the exhibit |
| `ExhibitView.NewExhibit` | components/ExhibitView.tsx:62-69 | the new exhibit has the new id, the route category, and the draft's code and name; its image is the draft's when non-empty and https://picsum.photos/600/400 otherwise; its description is the draft's when non-empty and '' otherwise |
| `ExhibitView.FindCategory` | components/ExhibitView.tsx:26 | None exactly when no category has the id; otherwise the first category with it |
| `ExhibitView.Edited` | components/ExhibitView.tsx:57-60 | the length is kept; every exhibit with the draft's id becomes `{...ex, ...draft}`; every other exhibit, of any category, is unchanged |
| `ExhibitView.Removed` | components/ExhibitView.tsx:88 | no exhibit with the id remains; every other exhibit is kept |
| `ExhibitView.SaveResultCases` | components/ExhibitView.tsx:48-74 | the contract of `SaveResult`, handleSave's list computation: refused exactly when name or code is missing or empty; an edit keeps the length and merges by id only; a create keeps the stored list as a prefix and appends one exhibit of the route category |
| `ExhibitView.Clamped` | components/ExhibitView.tsx:40-44 | an index at or past the end of a non-empty list becomes length-1; an in-range index, or any index of an empty list, is left alone; so a non-negative index ends inside a non-empty list and is never raised |
| `ExhibitView.CreatedIsLastOfCategory` | components/ExhibitView.tsx:70-72 | after a create the route category's list gains the new exhibit at its end; other categories' lists are unchanged |
| `ExhibitView.CreatedPosition` | components/ExhibitView.tsx:71-73 | the new index (filtered length minus 1) is the new exhibit's position in the recomputed list, behind the category's earlier exhibits |
| `ExhibitView.EditedLeavesOtherCategories` | components/ExhibitView.tsx:57-60 | an edit whose targets lie outside category k, before and after the merge, leaves k's list unchanged |
| `ExhibitView.EditedWithOwnDraft` | components/ExhibitView.tsx:107-111 | saving an edit draft opened on a stored exhibit, unchanged, leaves the global list as it was (ids distinct) |
| `ExhibitView.RemovedByCategory` | components/ExhibitView.tsx:87-90 | deleting from the global list and then filtering equals deleting from the filtered list |
| `ExhibitView.RemovedAt` | components/ExhibitView.tsx:88 | with distinct ids, deleting the exhibit at position i removes exactly position i |
| `ExhibitView.ClampAfterRemovingSelected` | components/ExhibitView.tsx:39-44 | after deleting the selected exhibit and clamping, the selection shows the next exhibit, or the previous one if the last was deleted; with N exhibits and N-1 selected the index becomes N-2 |
| `ExhibitView.Viewer.constructor` | components/ExhibitView.tsx:10-18 | initial state: no category, empty list, index 0, empty draft, modal closed |
| `ExhibitView.Viewer.Enter` | components/ExhibitView.tsx:21-37 | with a route id: the category is looked up (None is "not found"), the list becomes the category's exhibits, index 0, both keys seeded if absent; without an id nothing loads |
| `ExhibitView.Viewer.Clamp` | components/ExhibitView.tsx:39-44 | the index becomes its clamped value and is in range afterwards |
| `ExhibitView.Viewer.Next` | components/ExhibitView.tsx:135-139 | increments only below length-1, a no-op at the last exhibit; keeps the index in range |
| `ExhibitView.Viewer.Prev` | components/ExhibitView.tsx:141-145 | decrements only above 0, a no-op at the first exhibit; keeps the index in range |
| `ExhibitView.Viewer.Select` | components/ExhibitView.tsx:189-192 | a click on a listed entry selects its position |
| `ExhibitView.Viewer.OpenAdd` | components/ExhibitView.tsx:95-105 | the draft is empty code, name and description, the default image, the route category; not editing; modal open |
| `ExhibitView.Viewer.OpenEdit` | components/ExhibitView.tsx:107-111 | the draft is a copy of the exhibit; editing; modal open |
| `ExhibitView.Viewer.SetCode` | components/ExhibitView.tsx:368 | only the draft's code changes |
| `ExhibitView.Viewer.SetName` | components/ExhibitView.tsx:378 | only the draft's name changes |
| `ExhibitView.Viewer.SetDescription` | components/ExhibitView.tsx:398 | only the draft's description changes |
| `ExhibitView.Viewer.SetImage` | components/ExhibitView.tsx:113-122 | a completed upload sets only the draft's image |
| `ExhibitView.Viewer.GenerateDescription` | components/ExhibitView.tsx:124-133 | refused without a name or a category; otherwise only the draft's description becomes the generated text |
| `ExhibitView.Viewer.Save` | components/ExhibitView.tsx:46-83 | a refused draft reads and writes nothing; otherwise the stored list is edited or extended, saved whole, and its route part is shown; an edit keeps the index; a create selects the new exhibit at the end, which is the old list's length |
| `ExhibitView.Viewer.Delete` | components/ExhibitView.tsx:85-93 | only when confirmed, the id leaves both the stored list and the list on screen, which stay in step; the index is left to the clamp; unconfirmed changes nothing |
| `Scenarios.SeedOnFirstRead` | services/storageService.ts:11-35 | on an empty store two reads of each collection both return the seed |
| `Scenarios.SaveThenRead` | services/storageService.ts:21-45 | any saved list, even an empty one, is read back exactly; saving categories leaves the exhibit key absent |
| `Scenarios.AddCategory` | components/CategoryManager.tsx:58-85 | adding C004 to the seed gives four categories, the new one last with the default icon |
| `Scenarios.DeleteCategoryKeepsExhibits` | components/CategoryManager.tsx:32-40 | deleting category '1' leaves two categories and all seeded exhibits |
| `Scenarios.SeedListing` | services/storageService.ts:37-40 | category '1' of the seed lists E001 then E002 |
| `Scenarios.CreateExhibit` | components/ExhibitView.tsx:62-81 | creating in category '1', which has 2 exhibits, shows 3 and selects index 2, the new exhibit |
| `Scenarios.DeleteSelectedLast` | components/ExhibitView.tsx:85-91 | deleting the selected last of two exhibits, then clamping, selects index 0, the remaining exhibit |
| `Scenarios.NavigationBounds` | components/ExhibitView.tsx:135-145 | previous at 0 and next at the last index are no-ops |
| `Scenarios.CategoryLookup` | components/ExhibitView.tsx:24-27 | an unknown id gives "not found"; a seeded id finds its category |

## Left out

- `fileToBase64` (services/storageService.ts:48-55) is not modelled. It wraps the browser's `FileReader` with callbacks. An upload is the string that `SetIcon` or `SetImage` receives. A failed conversion changes nothing, so it has no method.
- The simulated latency (`delay`) and asynchronous interleaving are not modelled. Each handler is one atomic step. React's state updates and effects are not scheduled: the clamp effect is the method `Viewer.Clamp`, which the caller runs after a handler.
- JSON serialisation and `localStorage` are abstracted. Each key is an `Option<seq<…>>` field, and a round trip through JSON is taken as lossless. Storage exceptions (for example a full quota) are not modelled.
- The id from `Date.now()` is a parameter. Its uniqueness is not assumed. Lemmas that need distinct ids take them as a precondition.
- `confirm()` is a boolean parameter. `alert()`, the loading flags, the caught exception in `fetchCategories`, and all rendering are left out.
- services/geminiService.ts is not part of this model. It is an external text-generation call that returns generated text or a fixed fallback. Its answer is the `text` parameter of `Viewer.GenerateDescription`.
- App.tsx, components/Layout.tsx and components/Home.tsx are not part of this model. They hold routing and presentation only. The route parameter is the argument of `Viewer.Enter`, and an absent parameter is the empty string.
- CategoryManager.Replaced: a draft field that is missing becomes the empty string. The source stores the draft object as it is, and JSON then drops the missing field. Every edit draft (`{...cat}`, components/CategoryManager.tsx:53) has all four fields. The add draft has no id and never reaches the edit path, so only a hand-built draft shows the difference.
- Storage.Store.GetCategories, Storage.Store.GetExhibits, Storage.Store.GetExhibitsByCategory: they promise the store's seed fields (`categorySeed`, `exhibitSeed`), not the literals `InitialCategories` and `InitialExhibits`. The constructor sets those fields to the literals and nothing else writes them, but a method handed a store it did not build cannot use that fact. The seeds are fields so that the solver does not unfold the long seed texts in every proof. `Scenarios.SeedOnFirstRead` proves the link on a freshly built store.
