/** The projects listing page: free-text search, the multi-select category filter, the
    category checkbox list and the page state that drives them. */
module Catalog {
  import opened Text
  import opened Seqs
  import opened Projects

  /** The search predicate: an empty query matches everything; otherwise the lower-cased
      query must occur in the lower-cased title, description or one of the tags. */
  predicate SearchMatch(p: Project, query: string)
  {
    var q := Lower(query);
    query == "" ||
    Contains(Lower(p.title), q) ||
    (p.description.Some? && Contains(Lower(p.description.value), q)) ||
    (exists t :: t in p.tags && Contains(Lower(t), q))
  }

  /** The category predicate: no selection means no restriction, otherwise the record's
      category must be one of the selected labels, compared exactly. */
  predicate CategoryMatch(p: Project, selected: seq<string>)
  {
    |selected| == 0 || p.category in selected
  }

  predicate Keep(p: Project, query: string, selected: seq<string>)
  {
    SearchMatch(p, query) && CategoryMatch(p, selected)
  }

  /** The callback handed to `filter`. */
  function KeepFn(query: string, selected: seq<string>): Project -> bool
  {
    p => Keep(p, query, selected)
  }

  function SearchFn(query: string): Project -> bool
  {
    p => SearchMatch(p, query)
  }

  /** `projects.items.filter(project => searchMatch && categoryMatch)`. */
  function FilterProjects(items: seq<Project>, query: string, selected: seq<string>): (r: seq<Project>)
    ensures IsSubseq(r, items)
    ensures forall p :: p in r <==> p in items && SearchMatch(p, query) && CategoryMatch(p, selected)
    ensures forall p :: multiset(r)[p] == if Keep(p, query, selected) then multiset(items)[p] else 0
  {
    var r := Filter(items, KeepFn(query, selected));
    FilterSubseq(items, KeepFn(query, selected));
    assert forall p :: p in r <==> p in items && Keep(p, query, selected) by {
      forall p ensures p in r <==> p in items && Keep(p, query, selected) {
        FilterMembership(items, KeepFn(query, selected), p);
      }
    }
    assert forall p :: multiset(r)[p] == if Keep(p, query, selected) then multiset(items)[p] else 0 by {
      forall p ensures multiset(r)[p] == if Keep(p, query, selected) then multiset(items)[p] else 0 {
        FilterCount(items, KeepFn(query, selected), p);
      }
    }
    r
  }

  /** The search predicate in terms of substring occurrence: the query is empty, or its
      lower-cased form occurs at some index of the lower-cased title, of the lower-cased
      description when there is one, or of some lower-cased tag. */
  lemma SearchMatchIff(p: Project, query: string)
    ensures SearchMatch(p, query) <==>
      var q := Lower(query);
      query == "" ||
      (exists i :: OccursAt(Lower(p.title), q, i)) ||
      (p.description.Some? && exists i :: OccursAt(Lower(p.description.value), q, i)) ||
      (exists t, i :: t in p.tags && OccursAt(Lower(t), q, i))
  {
    var q := Lower(query);
    ContainsIff(Lower(p.title), q);
    if p.description.Some? {
      ContainsIff(Lower(p.description.value), q);
    }
    forall t | t in p.tags ensures Contains(Lower(t), q) <==> exists i :: OccursAt(Lower(t), q, i) {
      ContainsIff(Lower(t), q);
    }
  }

  /** With no query and no selected category every project is shown, in order. */
  lemma FilterShowsAll(items: seq<Project>)
    ensures FilterProjects(items, "", []) == items
  {
    FilterKeepsAll(items, KeepFn("", []));
  }

  /** With no category selected the category dimension is the identity: only the search
      narrows the list. */
  lemma FilterNoCategory(items: seq<Project>, query: string)
    ensures FilterProjects(items, query, []) == Filter(items, SearchFn(query))
  {
    FilterAgree(items, KeepFn(query, []), SearchFn(query));
  }

  /** Widening a non-empty category selection never hides a project, and the projects
      shown before stay in the same order. */
  lemma FilterWidenCategories(items: seq<Project>, query: string, sel1: seq<string>, sel2: seq<string>)
    requires sel1 != []
    requires forall c :: c in sel1 ==> c in sel2
    ensures IsSubseq(FilterProjects(items, query, sel1), FilterProjects(items, query, sel2))
  {
    FilterMonotone(items, KeepFn(query, sel1), KeepFn(query, sel2));
  }

  /** The label of the sentinel entry in the category vocabulary. */
  const AllCategories: string := "All Categories"

  function NotEqual(x: string): string -> bool
  {
    y => y != x
  }

  /** `filters.categories.filter(cat => cat !== "All Categories")`: the checkbox labels. */
  function CategoryOptions(vocabulary: seq<string>): (r: seq<string>)
    ensures forall c :: c in r <==> c in vocabulary && c != AllCategories
    ensures IsSubseq(r, vocabulary)
    ensures forall c :: multiset(r)[c] == if c == AllCategories then 0 else multiset(vocabulary)[c]
  {
    var r := Filter(vocabulary, NotEqual(AllCategories));
    FilterSubseq(vocabulary, NotEqual(AllCategories));
    assert forall c :: c in r <==> c in vocabulary && c != AllCategories by {
      forall c ensures c in r <==> c in vocabulary && c != AllCategories {
        FilterMembership(vocabulary, NotEqual(AllCategories), c);
      }
    }
    assert forall c :: multiset(r)[c] == if c == AllCategories then 0 else multiset(vocabulary)[c] by {
      forall c ensures multiset(r)[c] == if c == AllCategories then 0 else multiset(vocabulary)[c] {
        FilterCount(vocabulary, NotEqual(AllCategories), c);
      }
    }
    r
  }

  /** `toggleCategory`: a selected label is removed (every occurrence), an unselected one
      is appended. */
  function Toggled(selected: seq<string>, c: string): (r: seq<string>)
    ensures c in r <==> c !in selected
    ensures forall x :: x != c ==> (x in r <==> x in selected)
    ensures c !in selected ==> r == selected + [c]
    ensures c in selected ==> IsSubseq(r, selected)
    ensures c in selected ==> forall x :: x != c ==> multiset(r)[x] == multiset(selected)[x]
  {
    if c in selected then
      var r := Filter(selected, NotEqual(c));
      FilterSubseq(selected, NotEqual(c));
      assert forall x :: x in r <==> x in selected && x != c by {
        forall x ensures x in r <==> x in selected && x != c {
          FilterMembership(selected, NotEqual(c), x);
        }
      }
      assert forall x :: x != c ==> multiset(r)[x] == multiset(selected)[x] by {
        forall x | x != c ensures multiset(r)[x] == multiset(selected)[x] {
          FilterCount(selected, NotEqual(c), x);
        }
      }
      r
    else
      selected + [c]
  }

  /** Toggling keeps a duplicate-free selection duplicate-free; the selection starts
      empty, so it never holds a label twice. */
  lemma ToggledNoDup(selected: seq<string>, c: string)
    requires NoDup(selected)
    ensures NoDup(Toggled(selected, c))
  {
    if c in selected {
      FilterNoDup(selected, NotEqual(c));
    } else {
      AppendNoDup(selected, c);
    }
  }

  /** Toggling the same label twice gives back the same set of labels, and exactly the
      same list when the label was not selected. */
  lemma ToggleTwice(selected: seq<string>, c: string)
    ensures forall x :: x in Toggled(Toggled(selected, c), c) <==> x in selected
    ensures c !in selected ==> Toggled(Toggled(selected, c), c) == selected
  {
    if c !in selected {
      var once := selected + [c];
      assert c in once;
      FilterAppend(selected, [c], NotEqual(c));
      FilterKeepsAll(selected, NotEqual(c));
      assert Filter([c], NotEqual(c)) == [];
    }
  }

  /** Selecting one more label in a non-empty selection never hides a project. */
  lemma ToggleOnWidens(items: seq<Project>, query: string, selected: seq<string>, c: string)
    requires selected != [] && c !in selected
    ensures IsSubseq(FilterProjects(items, query, selected),
                     FilterProjects(items, query, Toggled(selected, c)))
  {
    FilterWidenCategories(items, query, selected, Toggled(selected, c));
  }

  /** The state of the listing page: the search box and the ticked categories. */
  class ProjectsPage {
    const items: seq<Project>
    const vocabulary: seq<string>
    var searchQuery: string
    var selectedCategories: seq<string>

    ghost predicate Valid()
      reads this
    {
      NoDup(selectedCategories)
    }

    /** The page starts with an empty query and nothing ticked. */
    constructor (items: seq<Project>, vocabulary: seq<string>)
      ensures Valid()
      ensures this.items == items && this.vocabulary == vocabulary
      ensures searchQuery == "" && selectedCategories == []
      ensures FilteredProjects() == items
    {
      this.items := items;
      this.vocabulary := vocabulary;
      searchQuery := "";
      selectedCategories := [];
      new;
      FilterShowsAll(items);
    }

    /** The checkbox labels. */
    function Categories(): (r: seq<string>)
      reads this
      ensures forall c :: c in r <==> c in vocabulary && c != AllCategories
      ensures IsSubseq(r, vocabulary)
      ensures forall c :: multiset(r)[c] == if c == AllCategories then 0 else multiset(vocabulary)[c]
    {
      CategoryOptions(vocabulary)
    }

    /** Whether a checkbox is ticked. */
    function IsSelected(c: string): bool
      reads this
    {
      c in selectedCategories
    }

    /** The projects rendered as cards, in catalog order. */
    function FilteredProjects(): (r: seq<Project>)
      reads this
      ensures IsSubseq(r, items)
      ensures forall p :: p in r <==> p in items && Keep(p, searchQuery, selectedCategories)
      ensures forall p :: multiset(r)[p] == if Keep(p, searchQuery, selectedCategories) then multiset(items)[p] else 0
    {
      FilterProjects(items, searchQuery, selectedCategories)
    }

    /** The search box's change handler, and its clear button with q == "". */
    method SetSearchQuery(q: string)
      requires Valid()
      modifies this
      ensures Valid()
      ensures searchQuery == q && selectedCategories == old(selectedCategories)
    {
      searchQuery := q;
    }

    /** The checkbox handler. */
    method ToggleCategory(c: string)
      requires Valid()
      modifies this
      ensures Valid()
      ensures selectedCategories == Toggled(old(selectedCategories), c)
      ensures searchQuery == old(searchQuery)
      ensures IsSelected(c) <==> !old(IsSelected(c))
    {
      ToggledNoDup(selectedCategories, c);
      selectedCategories := Toggled(selectedCategories, c);
    }

    /** "Clear all filters": afterwards only the search narrows the list. */
    method ClearCategories()
      requires Valid()
      modifies this
      ensures Valid()
      ensures selectedCategories == [] && searchQuery == old(searchQuery)
      ensures FilteredProjects() == Filter(items, SearchFn(searchQuery))
    {
      selectedCategories := [];
      FilterNoCategory(items, searchQuery);
    }
  }
}
