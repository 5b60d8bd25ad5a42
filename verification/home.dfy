/** The home page's product list: the category and search filter, the
    `category` URL parameter it accepts, and the category buttons that
    write that parameter back. */
module Home {
  import opened Results
  import opened Text
  import Lists
  import opened Products

  const AllItems: string := "All Items"

  /** The category buttons, in display order. */
  const Categories: seq<string> := [AllItems, "Meals", "Snacks", "Beverages"]

  /** The product's name or description contains the term, ignoring ASCII case. */
  predicate MatchesSearch(term: string, p: Product) {
    Includes(Lower(p.name), Lower(term)) || Includes(Lower(p.description), Lower(term))
  }

  /** `filterProducts`: keep the active category unless it is "All Items",
      then, for a non-empty term, keep the products whose name or
      description contains it. The list is exactly the shown products of
      the input, in their input order. */
  function FilterProducts(products: seq<Product>, activeCategory: string, searchTerm: string): (r: seq<Product>)
    ensures |r| <= |products|
    ensures forall x :: x in r <==> x in products && Shown(activeCategory, searchTerm, x)
    ensures Lists.IsSubsequence(r, products)
    ensures forall x :: multiset(r)[x] == if Shown(activeCategory, searchTerm, x) then multiset(products)[x] else 0
  {
    var byCategory :=
      if activeCategory != AllItems then Lists.Filter(products, (p: Product) => p.category == activeCategory)
      else products;
    CategoryStageMembers(products, activeCategory);
    SearchStageMembers(byCategory, searchTerm);
    StagesKeepOrder(products, activeCategory, searchTerm);
    StagesKeepCounts(products, activeCategory, searchTerm);
    if |searchTerm| > 0 then Lists.Filter(byCategory, (p: Product) => MatchesSearch(searchTerm, p))
    else byCategory
  }

  /** When a product is on the list, stated without the filter's own
      machinery: in the active category (any, for "All Items"), and with
      the lower-cased term occurring somewhere in the lower-cased name or
      description. */
  ghost predicate Shown(activeCategory: string, searchTerm: string, p: Product) {
    (activeCategory == AllItems || p.category == activeCategory) &&
    (Occurs(Lower(p.name), Lower(searchTerm)) || Occurs(Lower(p.description), Lower(searchTerm)))
  }

  lemma MatchesSearchIffOccurs(term: string, p: Product)
    ensures MatchesSearch(term, p) <==>
      Occurs(Lower(p.name), Lower(term)) || Occurs(Lower(p.description), Lower(term))
  {
    var name, description, needle := Lower(p.name), Lower(p.description), Lower(term);
    IncludesIffOccurs(name, needle);
    IncludesIffOccurs(description, needle);
  }

  /** The empty term occurs in every name, so skipping the text filter for
      an empty term agrees with applying it. */
  lemma EmptyTermMatchesEverything(term: string, p: Product)
    requires |term| == 0
    ensures MatchesSearch(term, p)
  {
    IncludesEmpty(Lower(p.name));
  }

  /** The category stage keeps exactly the input's products in the active
      category (all of them for "All Items"). */
  lemma CategoryStageMembers(products: seq<Product>, activeCategory: string)
    ensures var byCategory :=
              if activeCategory != AllItems then Lists.Filter(products, (p: Product) => p.category == activeCategory)
              else products;
            forall x :: x in byCategory <==> x in products && (activeCategory == AllItems || x.category == activeCategory)
  {
    if activeCategory != AllItems {
      var inCategory := (p: Product) => p.category == activeCategory;
      var byCategory := Lists.Filter(products, inCategory);
      Lists.FilterMembers(products, inCategory);
      forall x ensures x in byCategory <==> x in products && x.category == activeCategory {
        if x in byCategory {
          var k :| 0 <= k < |byCategory| && byCategory[k] == x;
        }
        if x in products && x.category == activeCategory {
          var k :| 0 <= k < |products| && products[k] == x;
          assert inCategory(products[k]);
        }
      }
    }
  }

  /** The search stage keeps exactly the products in which the lower-cased
      term occurs in the lower-cased name or description. */
  lemma SearchStageMembers(byCategory: seq<Product>, searchTerm: string)
    ensures var r :=
              if |searchTerm| > 0 then Lists.Filter(byCategory, (p: Product) => MatchesSearch(searchTerm, p))
              else byCategory;
            forall x :: x in r <==>
              (x in byCategory &&
               (Occurs(Lower(x.name), Lower(searchTerm)) || Occurs(Lower(x.description), Lower(searchTerm))))
  {
    var matches := (p: Product) => MatchesSearch(searchTerm, p);
    var r := if |searchTerm| > 0 then Lists.Filter(byCategory, matches) else byCategory;
    if |searchTerm| > 0 {
      Lists.FilterMembers(byCategory, matches);
    }
    forall x ensures x in r <==>
      (x in byCategory &&
       (Occurs(Lower(x.name), Lower(searchTerm)) || Occurs(Lower(x.description), Lower(searchTerm))))
    {
      MatchesSearchIffOccurs(searchTerm, x);
      if |searchTerm| == 0 {
        EmptyTermMatchesEverything(searchTerm, x);
      } else {
        if x in r {
          var k :| 0 <= k < |r| && r[k] == x;
        }
        if x in byCategory && matches(x) {
          var k :| 0 <= k < |byCategory| && byCategory[k] == x;
        }
      }
    }
  }

  /** The two stages keep every occurrence of a shown product and none of
      the others. */
  lemma StagesKeepCounts(products: seq<Product>, activeCategory: string, searchTerm: string)
    ensures var byCategory :=
              if activeCategory != AllItems then Lists.Filter(products, (p: Product) => p.category == activeCategory)
              else products;
            var r :=
              if |searchTerm| > 0 then Lists.Filter(byCategory, (p: Product) => MatchesSearch(searchTerm, p))
              else byCategory;
            forall x :: multiset(r)[x] == if Shown(activeCategory, searchTerm, x) then multiset(products)[x] else 0
  {
    var inCategory := (p: Product) => p.category == activeCategory;
    var matches := (p: Product) => MatchesSearch(searchTerm, p);
    var byCategory := if activeCategory != AllItems then Lists.Filter(products, inCategory) else products;
    var r := if |searchTerm| > 0 then Lists.Filter(byCategory, matches) else byCategory;
    forall x ensures multiset(r)[x] == if Shown(activeCategory, searchTerm, x) then multiset(products)[x] else 0 {
      if activeCategory != AllItems {
        Lists.FilterCounts(products, inCategory, x);
      }
      MatchesSearchIffOccurs(searchTerm, x);
      if |searchTerm| > 0 {
        Lists.FilterCounts(byCategory, matches, x);
      } else {
        EmptyTermMatchesEverything(searchTerm, x);
      }
    }
  }

  /** Both stages keep the products' order. */
  lemma StagesKeepOrder(products: seq<Product>, activeCategory: string, searchTerm: string)
    ensures var byCategory :=
              if activeCategory != AllItems then Lists.Filter(products, (p: Product) => p.category == activeCategory)
              else products;
            Lists.IsSubsequence(byCategory, products) &&
            (|searchTerm| > 0 ==>
               Lists.IsSubsequence(Lists.Filter(byCategory, (p: Product) => MatchesSearch(searchTerm, p)), products))
  {
    var inCategory := (p: Product) => p.category == activeCategory;
    var byCategory := if activeCategory != AllItems then Lists.Filter(products, inCategory) else products;
    if activeCategory != AllItems {
      Lists.FilterIsSubsequence(products, inCategory);
    } else {
      Lists.SubsequenceOfSelf(products);
    }
    if |searchTerm| > 0 {
      var matches := (p: Product) => MatchesSearch(searchTerm, p);
      Lists.FilterIsSubsequence(byCategory, matches);
      Lists.SubsequenceTransitive(Lists.Filter(byCategory, matches), byCategory, products);
    }
  }

  /** On "All Items" with an empty search the whole catalogue is listed. */
  lemma InitialViewListsEverything(products: seq<Product>)
    ensures FilterProducts(products, AllItems, "") == products
  {
  }

  /** Searching ignores the case of the term: a term and its lower-cased
      form list the same products. */
  lemma SearchIgnoresTermCase(products: seq<Product>, activeCategory: string, searchTerm: string)
    ensures FilterProducts(products, activeCategory, searchTerm) ==
            FilterProducts(products, activeCategory, Lower(searchTerm))
  {
    assert Lower(Lower(searchTerm)) == Lower(searchTerm);
    var byCategory := if activeCategory != AllItems then Lists.Filter(products, (p: Product) => p.category == activeCategory) else products;
    if |searchTerm| > 0 {
      Lists.FilterAgrees(byCategory, (p: Product) => MatchesSearch(searchTerm, p),
                         (p: Product) => MatchesSearch(Lower(searchTerm), p));
    }
  }

  // ---------------------------------------------------------------------
  // The `category` URL parameter.

  /** The effect on the search parameters: a non-empty `category` that names
      one of the buttons becomes the active category; anything else, an
      absent parameter included, leaves the active category as it was. */
  function AcceptCategoryParam(activeCategory: string, param: Option<string>): (r: string)
    ensures param.Some? && param.value in Categories ==> r == param.value
    ensures !(param.Some? && param.value in Categories) ==> r == activeCategory
  {
    if param.Some? && |param.value| > 0 && param.value in Categories then param.value else activeCategory
  }

  /** What the page shows after a category button is pressed. */
  datatype View = View(activeCategory: string, categoryParam: Option<string>)

  /** `handleCategoryChange`: the category becomes active, and the URL carries
      it, except "All Items", which clears the parameters. */
  function HandleCategoryChange(category: string): (v: View)
    ensures v.activeCategory == category
    ensures v.categoryParam.None? <==> category == AllItems
    ensures v.categoryParam.Some? ==> v.categoryParam.value == category
  {
    View(category, if category == AllItems then None else Some(category))
  }

  /** Pressing a button and then reacting to the URL it wrote keeps the
      pressed category active. */
  lemma CategoryChangeIsStable(category: string)
    ensures var v := HandleCategoryChange(category);
            AcceptCategoryParam(v.activeCategory, v.categoryParam) == category
  {
  }

  /** Reloading the page from the URL a button wrote restores that category
      exactly when it is one of the buttons. */
  lemma ReloadRestoresCategory(category: string)
    ensures AcceptCategoryParam(AllItems, HandleCategoryChange(category).categoryParam) == category
            <==> category in Categories
  {
    if category !in Categories {
      assert category != AllItems;
    }
  }

  /** Removing the parameter (navigating back to a bare URL) does not reset
      the active category. */
  lemma RemovedParamKeepsCategory(activeCategory: string)
    ensures AcceptCategoryParam(activeCategory, None) == activeCategory
  {
  }
}
