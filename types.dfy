/** The two record shapes of the catalog and the built-in seed collections
    written to an empty store (types.ts). */
module Types {

  /** A category: a named grouping with a display code, a title and an icon
      (a URL or an embedded image string). */
  datatype Category = Category(id: string, code: string, title: string, icon: string)

  /** An exhibit: one catalogued item; `categoryId` names the category it belongs to. */
  datatype Exhibit = Exhibit(
    id: string,
    code: string,
    name: string,
    categoryId: string,
    image: string,
    description: string)

  const InitialCategories: seq<Category> := [
    Category("1", "C001", "主要战役", "https://picsum.photos/id/1047/200/200"),
    Category("2", "C002", "抗战英雄", "https://picsum.photos/id/1011/200/200"),
    Category("3", "C003", "历史文物", "https://picsum.photos/id/1073/200/200")
  ]

  const InitialExhibits: seq<Exhibit> := [
    Exhibit("101", "E001", "台儿庄战役纪念馆", "1",
            "https://picsum.photos/id/203/600/400",
            "台儿庄战役是抗日战争初期中国军队取得的一次重大胜利。"),
    Exhibit("102", "E002", "百团大战", "1",
            "https://picsum.photos/id/204/600/400",
            "百团大战是八路军在华北地区发动的一次规模最大、持续时间最长的战略性进攻战役。")
  ]

  /** Every record of the list has its own identifier. */
  predicate DistinctCategoryIds(cs: seq<Category>) {
    forall i, j :: 0 <= i < j < |cs| ==> cs[i].id != cs[j].id
  }

  predicate DistinctExhibitIds(es: seq<Exhibit>) {
    forall i, j :: 0 <= i < j < |es| ==> es[i].id != es[j].id
  }

  /** The seed categories: three records with ids '1'..'3' and codes C001..C003, in that order. */
  lemma InitialCategoriesShape()
    ensures |InitialCategories| == 3
    ensures DistinctCategoryIds(InitialCategories)
    ensures InitialCategories[0].id == "1" && InitialCategories[0].code == "C001"
    ensures InitialCategories[1].id == "2" && InitialCategories[1].code == "C002"
    ensures InitialCategories[2].id == "3" && InitialCategories[2].code == "C003"
  {
  }

  /** The seed exhibits: two records, '101' (E001) then '102' (E002), both in category '1'. */
  lemma InitialExhibitsShape()
    ensures |InitialExhibits| == 2
    ensures DistinctExhibitIds(InitialExhibits)
    ensures InitialExhibits[0].id == "101" && InitialExhibits[0].code == "E001"
    ensures InitialExhibits[1].id == "102" && InitialExhibits[1].code == "E002"
    ensures forall e :: e in InitialExhibits ==> e.categoryId == "1"
  {
  }

  /** The seed data is referentially consistent: each seeded exhibit names a seeded category. */
  lemma SeedExhibitsNameSeedCategories()
    ensures forall e :: e in InitialExhibits ==>
              exists c :: c in InitialCategories && c.id == e.categoryId
  {
  }
}
