/** The records of `types.ts`: a logged food entry, the draft it is built
    from, and the closed enumeration of food categories. */
module Types {
  import opened Wrappers

  /** `FoodCategory`: eight members, each carrying a display string. */
  datatype FoodCategory = Protein | Fruits | Vegetables | Dairy | Grains | Snacks | Drinks | Other

  /** The string value of each enumeration member. */
  function CategoryName(c: FoodCategory): string {
    match c
    case Protein => "Proteins"
    case Fruits => "Fruits"
    case Vegetables => "Vegetables"
    case Dairy => "Dairy"
    case Grains => "Grains"
    case Snacks => "Snacks"
    case Drinks => "Drinks"
    case Other => "Other"
  }

  /** The members in declaration order (what `Object.values` lists). */
  const AllCategories: seq<FoodCategory> :=
    [Protein, Fruits, Vegetables, Dairy, Grains, Snacks, Drinks, Other]

  /** The category names the estimator's response schema asks for, in the
      order its description lists them. */
  const SchemaCategoryNames: seq<string> :=
    ["Proteins", "Fruits", "Vegetables", "Dairy", "Grains", "Snacks", "Drinks", "Other"]

  /** Reads a category string back into the enumeration; `None` for any
      string that is not one of the eight values. */
  function ParseCategory(s: string): (r: Option<FoodCategory>)
    ensures r.Some? ==> CategoryName(r.value) == s
  {
    if s == "Proteins" then Some(Protein)
    else if s == "Fruits" then Some(Fruits)
    else if s == "Vegetables" then Some(Vegetables)
    else if s == "Dairy" then Some(Dairy)
    else if s == "Grains" then Some(Grains)
    else if s == "Snacks" then Some(Snacks)
    else if s == "Drinks" then Some(Drinks)
    else if s == "Other" then Some(Other)
    else None
  }

  /** A string is a category value when some enumeration member carries it. */
  predicate IsCategoryName(s: string) {
    ParseCategory(s).Some?
  }

  /** Every member's string parses back to that member. */
  lemma ParseCategoryName(c: FoodCategory)
    ensures ParseCategory(CategoryName(c)) == Some(c)
  {
    match c
    case Protein =>
    case Fruits =>
    case Vegetables =>
    case Dairy =>
    case Grains =>
    case Snacks =>
    case Drinks =>
    case Other =>
  }

  /** `ParseCategory` is exactly the inverse of `CategoryName`: a string
      parses to `c` if and only if it is `c`'s value. */
  lemma ParseCategoryIff(s: string, c: FoodCategory)
    ensures ParseCategory(s) == Some(c) <==> CategoryName(c) == s
  {
    ParseCategoryName(c);
  }

  /** The eight string values are pairwise distinct. */
  lemma CategoryNamesDistinct(c1: FoodCategory, c2: FoodCategory)
    ensures CategoryName(c1) == CategoryName(c2) ==> c1 == c2
  {
    ParseCategoryName(c1);
    ParseCategoryName(c2);
  }

  /** The enumeration has exactly eight members, listed once each. */
  lemma AllCategoriesComplete()
    ensures |AllCategories| == 8
    ensures forall c: FoodCategory :: c in AllCategories
    ensures forall i, j :: 0 <= i < j < |AllCategories| ==> AllCategories[i] != AllCategories[j]
  {
    forall c: FoodCategory
      ensures c in AllCategories
    {
      match c
      case Protein => assert AllCategories[0] == c;
      case Fruits => assert AllCategories[1] == c;
      case Vegetables => assert AllCategories[2] == c;
      case Dairy => assert AllCategories[3] == c;
      case Grains => assert AllCategories[4] == c;
      case Snacks => assert AllCategories[5] == c;
      case Drinks => assert AllCategories[6] == c;
      case Other => assert AllCategories[7] == c;
    }
  }

  /** The schema's list names precisely the enumeration's values: each schema
      string is some member's value, and each member's value is in the list. */
  lemma SchemaMatchesCategories()
    ensures |SchemaCategoryNames| == |AllCategories|
    ensures forall i :: 0 <= i < |AllCategories| ==> SchemaCategoryNames[i] == CategoryName(AllCategories[i])
    ensures forall s :: s in SchemaCategoryNames <==> IsCategoryName(s)
  {
    forall s | IsCategoryName(s)
      ensures s in SchemaCategoryNames
    {
      var c := ParseCategory(s).value;
      assert CategoryName(c) == s;
      assert c in AllCategories;
    }
  }

  /** The fields a caller supplies to `addEntry`: `FoodEntry` without `id`,
      `timestamp` and `totalCalories`. The category is a plain string. */
  datatype Draft = Draft(
    foodItem: string,
    category: string,
    servingSize: real,
    unit: string,
    caloriesPerUnit: real)

  /** `FoodEntry`. Its category is a plain string, so values outside the
      enumeration are admitted. */
  datatype FoodEntry = FoodEntry(
    id: string,
    timestamp: int,
    foodItem: string,
    category: string,
    servingSize: real,
    unit: string,
    caloriesPerUnit: real,
    totalCalories: int)

  /** The five draft fields of an entry. */
  function DraftOf(e: FoodEntry): Draft {
    Draft(e.foodItem, e.category, e.servingSize, e.unit, e.caloriesPerUnit)
  }

  /** Spreads a draft and adds the three omitted fields. */
  function Complete(d: Draft, id: string, timestamp: int, totalCalories: int): (e: FoodEntry)
    ensures DraftOf(e) == d
    ensures e.id == id && e.timestamp == timestamp && e.totalCalories == totalCalories
  {
    FoodEntry(id, timestamp, d.foodItem, d.category, d.servingSize, d.unit, d.caloriesPerUnit, totalCalories)
  }

  /** An entry is nothing more than its draft plus the three omitted fields. */
  lemma EntryIsDraftPlusOmitted(e: FoodEntry)
    ensures Complete(DraftOf(e), e.id, e.timestamp, e.totalCalories) == e
  {
  }

  /** The entry type admits a category outside the enumeration. */
  lemma EntryAdmitsUnlistedCategory()
    ensures exists e: FoodEntry :: !IsCategoryName(e.category)
  {
    var e := FoodEntry("a", 0, "Cake", "Desserts", 1.0, "slice", 300.0, 300);
    assert !IsCategoryName(e.category);
  }
}
