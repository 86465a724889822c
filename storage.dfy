/** The record store (services/storageService.ts): two collections, each kept
    whole under its own key of the browser's key-value storage, seeded with the
    built-in defaults the first time a missing key is read. */
module Storage {
  import opened Wrappers
  import opened Types
  import opened Lists

  /** The exhibits of one category: the filter on `categoryId`. */
  function InCategory(categoryId: string): Exhibit -> bool {
    (e: Exhibit) => e.categoryId == categoryId
  }

  /** `getExhibitsByCategory` on a given global list: exactly the exhibits of the
      category, each as often as in `all`, in the order of `all`. */
  function ByCategory(all: seq<Exhibit>, categoryId: string): (r: seq<Exhibit>)
    ensures |r| <= |all|
    ensures forall i :: 0 <= i < |r| ==> r[i].categoryId == categoryId && r[i] in all
    ensures forall i :: 0 <= i < |all| && all[i].categoryId == categoryId ==> all[i] in r
  {
    Filter(all, InCategory(categoryId))
  }

  /** The filter is an order-preserving subsequence with the multiplicities of the
      matching exhibits; a category with no exhibit gives the empty list. */
  lemma ByCategoryIsOrderedSelection(all: seq<Exhibit>, categoryId: string)
    ensures IsSubsequence(ByCategory(all, categoryId), all)
    ensures forall e :: multiset(ByCategory(all, categoryId))[e] ==
                        if e.categoryId == categoryId then multiset(all)[e] else 0
    ensures (forall i :: 0 <= i < |all| ==> all[i].categoryId != categoryId) ==>
              ByCategory(all, categoryId) == []
  {
    FilterIsSubsequence(all, InCategory(categoryId));
    FilterCounts(all, InCategory(categoryId));
  }

  /** Appending an exhibit adds it to the end of its own category's list and
      leaves every other category's list as it was. */
  lemma ByCategoryAppend(all: seq<Exhibit>, e: Exhibit, categoryId: string)
    ensures ByCategory(all + [e], categoryId) ==
              if e.categoryId == categoryId then ByCategory(all, categoryId) + [e]
              else ByCategory(all, categoryId)
  {
    FilterAppend(all, [e], InCategory(categoryId));
    assert Filter([e], InCategory(categoryId)) == Filter([], InCategory(categoryId)) + (if e.categoryId == categoryId then [e] else []);
  }

  /** Both seeded exhibits belong to category '1', so its list is the whole seed. */
  lemma SeedCategoryOne()
    ensures ByCategory(InitialExhibits, "1") == InitialExhibits
  {
  }

  class Store {
    /** The built-in defaults written to an absent key. */
    const categorySeed: seq<Category>
    const exhibitSeed: seq<Exhibit>

    /** The entry under the key 'history_app_categories'; None when the key is
        absent. The two keys differ, so each collection is its own field. */
    var categories: Option<seq<Category>>
    /** The entry under the key 'history_app_exhibits'; None when the key is absent. */
    var exhibits: Option<seq<Exhibit>>

    /** A store with neither key present, as on a first visit. */
    constructor ()
      ensures categories == None && exhibits == None
      ensures categorySeed == InitialCategories && exhibitSeed == InitialExhibits
    {
      categorySeed := InitialCategories;
      exhibitSeed := InitialExhibits;
      categories := None;
      exhibits := None;
    }

    /** `getCategories`: an absent entry is seeded with the defaults, which are
        written and returned; a present entry is returned and nothing is written. */
    method GetCategories() returns (r: seq<Category>)
      modifies this
      ensures old(categories).None? ==> r == categorySeed
      ensures old(categories).Some? ==> r == old(categories).value
      ensures categories == Some(r)
      ensures exhibits == old(exhibits)
    {
      if categories.None? {
        categories := Some(categorySeed);
        r := categorySeed;
      } else {
        r := categories.value;
      }
    }

    /** `saveCategories`: the whole entry is overwritten with `cs`. */
    method SaveCategories(cs: seq<Category>)
      modifies this
      ensures categories == Some(cs)
      ensures exhibits == old(exhibits)
    {
      categories := Some(cs);
    }

    /** `getExhibits`: as GetCategories, on the exhibit entry and its defaults. */
    method GetExhibits() returns (r: seq<Exhibit>)
      modifies this
      ensures old(exhibits).None? ==> r == exhibitSeed
      ensures old(exhibits).Some? ==> r == old(exhibits).value
      ensures exhibits == Some(r)
      ensures categories == old(categories)
    {
      if exhibits.None? {
        exhibits := Some(exhibitSeed);
        r := exhibitSeed;
      } else {
        r := exhibits.value;
      }
    }

    /** `getExhibitsByCategory`: reads the global list (seeding it if absent)
        and returns the exhibits of `categoryId`. */
    method GetExhibitsByCategory(categoryId: string) returns (r: seq<Exhibit>)
      modifies this
      ensures exhibits == Some(old(exhibits).GetOr(exhibitSeed))
      ensures r == ByCategory(exhibits.value, categoryId)
      ensures categories == old(categories)
    {
      var all := GetExhibits();
      r := ByCategory(all, categoryId);
    }

    /** `saveExhibits`: the whole entry is overwritten with `es`. */
    method SaveExhibits(es: seq<Exhibit>)
      modifies this
      ensures exhibits == Some(es)
      ensures categories == old(categories)
    {
      exhibits := Some(es);
    }
  }
}
