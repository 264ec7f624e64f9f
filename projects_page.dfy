/** The catalog page: the search/category filter and the list of categories offered. */
module ProjectsPage {
  import opened Lists
  import opened Strings
  import opened Records

  /** The category value that stands for "every category". */
  const AllCategories: string := "all"

  /** The lower-cased title or description contains the lower-cased search term. */
  predicate MatchesSearch(p: Project, searchTerm: string): (r: bool)
    ensures searchTerm == "" ==> r
    ensures r ==> |searchTerm| <= |p.title| || |searchTerm| <= |p.description|
  {
    Includes(Lower(p.title), Lower(searchTerm)) || Includes(Lower(p.description), Lower(searchTerm))
  }

  /** The filter is "all" or names the project's category. */
  predicate MatchesCategory(p: Project, categoryFilter: string): (r: bool)
    ensures categoryFilter == AllCategories ==> r
    ensures categoryFilter != AllCategories ==> (r <==> p.category == categoryFilter)
  {
    categoryFilter == AllCategories || p.category == categoryFilter
  }

  /** `filteredProjects`: the catalog projects that match both the search and the category. */
  function FilteredProjects(catalog: seq<Project>, searchTerm: string, categoryFilter: string): (r: seq<Project>)
    ensures SubsequenceOf(r, catalog)
    ensures forall p :: p in r <==>
              p in catalog && MatchesSearch(p, searchTerm) && MatchesCategory(p, categoryFilter)
    ensures forall p :: multiset(r)[p] ==
              if MatchesSearch(p, searchTerm) && MatchesCategory(p, categoryFilter) then multiset(catalog)[p] else 0
  {
    Filter(catalog, (p: Project) => MatchesSearch(p, searchTerm) && MatchesCategory(p, categoryFilter))
  }

  /** With an empty search and "all" categories, every project is listed, in catalog order. */
  lemma UnfilteredListsAll(catalog: seq<Project>)
    ensures FilteredProjects(catalog, "", AllCategories) == catalog
  {
    forall p: Project
      ensures MatchesSearch(p, "")
    {
      IncludesEmpty(Lower(p.title));
    }
  }

  /** `allProjects.map(p => p.category)`. */
  function CategoryOf(catalog: seq<Project>): (r: seq<string>)
    ensures |r| == |catalog|
    ensures forall i :: 0 <= i < |catalog| ==> r[i] == catalog[i].category
  {
    seq(|catalog|, i requires 0 <= i < |catalog| => catalog[i].category)
  }

  /** `categories`: "all" first, then each category of the catalog once, in the order of its
      first occurrence. */
  function Categories(catalog: seq<Project>): (r: seq<string>)
    ensures |r| >= 1 && r[0] == AllCategories
    ensures NoDuplicates(r[1..])
    ensures forall p :: p in catalog ==> p.category in r[1..]
    ensures forall c :: c in r[1..] ==> c in CategoryOf(catalog)
  {
    var names := CategoryOf(catalog);
    var distinct := Unique(names);
    assert forall p :: p in catalog ==> p.category in names by {
      forall p | p in catalog
        ensures p.category in names
      {
        var i :| 0 <= i < |catalog| && catalog[i] == p;
        assert names[i] == p.category;
      }
    }
    assert ([AllCategories] + distinct)[1..] == distinct;
    [AllCategories] + distinct
  }

  /** The categories after "all" appear in the order in which the catalog first uses them. */
  lemma {:induction false} CategoriesInFirstOccurrenceOrder(catalog: seq<Project>, i: nat, j: nat)
    requires 1 <= i < j < |Categories(catalog)|
    ensures IndexOf(CategoryOf(catalog), Categories(catalog)[i])
          < IndexOf(CategoryOf(catalog), Categories(catalog)[j])
  {
    AfterAllInFirstOccurrenceOrder(AllCategories, CategoryOf(catalog), i, j);
  }

  /** The order argument on a list of names with a head put in front, away from the catalog. */
  lemma {:induction false} AfterAllInFirstOccurrenceOrder<T(!new)>(head: T, names: seq<T>, i: nat, j: nat)
    requires 1 <= i < j <= |Unique(names)|
    ensures IndexOf(names, ([head] + Unique(names))[i]) < IndexOf(names, ([head] + Unique(names))[j])
  {
    var u := Unique(names);
    UniqueInFirstOccurrenceOrder(names, i - 1, j - 1);
    assert ([head] + u)[i] == u[i - 1] && ([head] + u)[j] == u[j - 1];
  }
}
