/** Verified scenarios of the catalog on a first visit (empty storage), each
    proved from the contracts of the store and the two screens and from the
    lemmas about the lists they hold. */
module Scenarios {
  import opened Wrappers
  import opened Types
  import opened Storage
  import CategoryManager
  import ExhibitView

  /** The first read of each collection seeds it; the second read returns
      the same list. */
  method SeedOnFirstRead() returns (cats1: seq<Category>, cats2: seq<Category>, exs1: seq<Exhibit>, exs2: seq<Exhibit>)
    ensures cats1 == InitialCategories && cats2 == InitialCategories
    ensures exs1 == InitialExhibits && exs2 == InitialExhibits
  {
    var store := new Store();
    cats1 := store.GetCategories();
    cats2 := store.GetCategories();
    exs1 := store.GetExhibits();
    exs2 := store.GetExhibits();
  }

  /** A saved list is read back exactly, even an empty one (no re-seeding),
      and saving one collection leaves the other's key absent. */
  method SaveThenRead(cs: seq<Category>, es: seq<Exhibit>) returns (readCs: seq<Category>, readEs: seq<Exhibit>, untouched: seq<Exhibit>)
    ensures readCs == cs && readEs == es
    ensures untouched == InitialExhibits
  {
    var store := new Store();
    store.SaveCategories(cs);
    untouched := store.GetExhibits();
    store.SaveExhibits(es);
    readCs := store.GetCategories();
    readEs := store.GetExhibits();
  }

  /** Adding C004 / 测试 on the management screen gives four categories, the
      new one last with the default icon. */
  method AddCategory(newId: string) returns (listed: seq<Category>)
    ensures |listed| == 4 && listed[..3] == InitialCategories
    ensures listed[3] == Category(newId, "C004", "测试", CategoryManager.DefaultIcon)
  {
    var store := new Store();
    var manager := new CategoryManager.Manager(store);
    manager.Fetch();
    manager.OpenAdd();
    manager.SetCode("C004");
    manager.SetTitle("测试");
    manager.Save(newId);
    listed := store.GetCategories();
  }

  /** Deleting category '1' leaves two categories and every exhibit, its own
      included. */
  method DeleteCategoryKeepsExhibits() returns (cats: seq<Category>, exs: seq<Exhibit>)
    ensures cats == InitialCategories[1..] && |cats| == 2
    ensures exs == InitialExhibits
  {
    var store := new Store();
    var manager := new CategoryManager.Manager(store);
    manager.Fetch();
    manager.Delete("1", true);
    cats := store.GetCategories();
    exs := store.GetExhibits();
    InitialCategoriesShape();
    assert CategoryManager.Removed(InitialCategories, "1") == InitialCategories[1..] by {
      CategoryManager.RemovedAt(InitialCategories, 0);
    }
  }

  /** Category '1' of the seed lists E001 then E002. */
  method SeedListing() returns (listed: seq<Exhibit>)
    ensures |listed| == 2 && listed[0].code == "E001" && listed[1].code == "E002"
  {
    var store := new Store();
    listed := store.GetExhibitsByCategory("1");
    SeedCategoryOne();
    InitialExhibitsShape();
  }

  /** Creating an exhibit in category '1', which has two, shows three and
      selects the new one at position 2. */
  method CreateExhibit(newId: string) returns (count: int, selected: int, shown: Exhibit)
    ensures count == 3 && selected == 2
    ensures shown.id == newId && shown.categoryId == "1" && shown.code == "E003"
  {
    var store := new Store();
    var viewer := new ExhibitView.Viewer(store);
    viewer.Enter("1");
    SeedCategoryOne();
    viewer.OpenAdd();
    viewer.SetCode("E003");
    viewer.SetName("平型关大捷");
    viewer.Save(newId);
    count := |viewer.exhibits|;
    selected := viewer.selectedIndex;
    shown := viewer.exhibits[selected];
  }

  /** Deleting the last of two exhibits while it is selected, then clamping,
      selects position 0, which shows the remaining exhibit. */
  method DeleteSelectedLast() returns (count: int, selected: int, shown: Exhibit)
    ensures count == 1 && selected == 0 && shown == InitialExhibits[0]
  {
    var store := new Store();
    var viewer := new ExhibitView.Viewer(store);
    viewer.Enter("1");
    SeedCategoryOne();
    viewer.Select(1);
    viewer.Delete("102", true);
    viewer.Clamp();
    InitialExhibitsShape();
    ExhibitView.ClampAfterRemovingSelected(InitialExhibits, 1);
    count := |viewer.exhibits|;
    selected := viewer.selectedIndex;
    shown := viewer.exhibits[selected];
  }

  /** Previous at the first exhibit and next at the last are no-ops. */
  method NavigationBounds() returns (afterPrev: int, afterNext1: int, afterNext2: int)
    ensures afterPrev == 0 && afterNext1 == 1 && afterNext2 == 1
  {
    var store := new Store();
    var viewer := new ExhibitView.Viewer(store);
    viewer.Enter("1");
    SeedCategoryOne();
    viewer.Prev();
    afterPrev := viewer.selectedIndex;
    viewer.Next();
    afterNext1 := viewer.selectedIndex;
    viewer.Next();
    afterNext2 := viewer.selectedIndex;
  }

  /** The viewer for an id no category has shows "not found"; the seeded
      category '2' is found. */
  method CategoryLookup() returns (missing: bool, found: bool)
    ensures missing && found
  {
    var store := new Store();
    var viewer := new ExhibitView.Viewer(store);
    viewer.Enter("9");
    missing := viewer.category.None?;
    viewer.Enter("2");
    found := viewer.category == Some(InitialCategories[1]);
  }
}
