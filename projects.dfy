/** The projects page: the category-and-tag filter, the capped tag bar, the
    filter buttons and the tag badges of a project card. */
module Projects {
  import opened Seqs
  import opened Catalog

  /** One entry of the static project list; absent optional fields read as
      `None` and an absent `featured` flag as false. */
  datatype Project = Project(
    id: string,
    title: string,
    description: string,
    image: string,
    tags: seq<string>,
    category: string,
    liveUrl: Option<string>,
    githubUrl: Option<string>,
    featured: bool)

  /** The category buttons, in order; "All" is the wildcard. */
  const Categories: seq<string> := ["All", "Full-Stack", "Frontend", "Backend"]

  /** At most this many tag buttons are offered. */
  const MaxTagButtons: nat := 8

  /** At most this many tag badges are drawn on a card. */
  const MaxCardTags: nat := 4

  /** The page state: the selected category and the selected tag. */
  datatype Filters = Filters(category: string, selectedTag: Option<string>)

  /** `useState('All')` and `useState(null)`. */
  const Initial: Filters := Filters("All", None)

  /** `selectedCategory === 'All' || project.category === selectedCategory` */
  function MatchesCategory(p: Project, category: string): (passes: bool)
    ensures category == "All" ==> passes
    ensures category != "All" ==> (passes <==> p.category == category)
  {
    category == "All" || p.category == category
  }

  /** `matchesCategory && matchesTag`: in the initial state every project passes,
      and a passing project has the chosen category and carries the chosen tag. */
  function Matches(f: Filters, p: Project): (passes: bool)
    ensures f.category == "All" && !TagChosen(f.selectedTag) ==> passes
    ensures passes && f.category != "All" ==> p.category == f.category
    ensures passes && TagChosen(f.selectedTag) ==> f.selectedTag.value in p.tags
  {
    MatchesCategory(p, f.category) && HasSelectedTag(p.tags, f.selectedTag)
  }

  function Matcher(f: Filters): Project -> bool {
    p => Matches(f, p)
  }

  function ProjectTags(p: Project): seq<string> { p.tags }

  /** `filteredProjects` */
  function FilteredProjects(projects: seq<Project>, f: Filters): (r: seq<Project>)
    ensures forall i :: 0 <= i < |r| ==> Matches(f, r[i]) && r[i] in projects
  {
    Filter(projects, Matcher(f))
  }

  /** With no tag chosen, the "All" button shows the whole list and every other
      category button shows exactly the projects of that category, in list order. */
  lemma {:induction false} CategoryButtonsShow(projects: seq<Project>, k: nat)
    requires k < |Categories|
    ensures k == 0 ==> FilteredProjects(projects, Filters(Categories[k], None)) == projects
    ensures k > 0 ==> FilteredProjects(projects, Filters(Categories[k], None)) ==
                      Filter(projects, (p: Project) => p.category == Categories[k])
  {
    if projects != [] {
      CategoryButtonsShow(projects[1..], k);
    }
  }

  /** A project is shown exactly when it passes both tests, as often as it is
      listed, and the projects shown keep the list order. */
  lemma FilteredProjectsKeep(projects: seq<Project>, f: Filters, p: Project)
    ensures p in FilteredProjects(projects, f) <==> p in projects && Matches(f, p)
    ensures multiset(FilteredProjects(projects, f))[p] == if Matches(f, p) then multiset(projects)[p] else 0
    ensures IsSubsequence(FilteredProjects(projects, f), projects)
  {
    FilterMembership(projects, Matcher(f), p);
    FilterCount(projects, Matcher(f), p);
    FilterIsSubsequence(projects, Matcher(f));
  }

  /** Adding a tag constraint where there was none keeps a subsequence of the
      previous result, so never more projects. */
  lemma TagNarrowsResult(projects: seq<Project>, category: string, tag: string)
    ensures IsSubsequence(FilteredProjects(projects, Filters(category, Some(tag))), FilteredProjects(projects, Filters(category, None)))
    ensures |FilteredProjects(projects, Filters(category, Some(tag)))| <= |FilteredProjects(projects, Filters(category, None))|
  {
    FilterNarrower(projects, Matcher(Filters(category, None)), Matcher(Filters(category, Some(tag))));
  }

  /** The same state applied to its own result changes nothing. */
  lemma FilteredProjectsIdempotent(projects: seq<Project>, f: Filters)
    ensures FilteredProjects(FilteredProjects(projects, f), f) == FilteredProjects(projects, f)
  {
    FilterIdempotent(projects, Matcher(f));
  }

  /** `setSelectedCategory(category)`: the tag selection is kept. */
  function SelectCategory(f: Filters, category: string): (g: Filters)
    ensures g.category == category && g.selectedTag == f.selectedTag
  {
    f.(category := category)
  }

  /** The "All Tech" button: drops the tag and keeps the category. */
  function SelectAllTech(f: Filters): (g: Filters)
    ensures g.category == f.category && g.selectedTag == None && !TagChosen(g.selectedTag)
  {
    f.(selectedTag := None)
  }

  /** A tag button: toggles between that tag and no tag, keeping the category. */
  function ClickTag(f: Filters, tag: string): (g: Filters)
    ensures g.category == f.category
    ensures g.selectedTag == if f.selectedTag == Some(tag) then None else Some(tag)
  {
    f.(selectedTag := ToggleTag(f.selectedTag, tag))
  }

  /** The "Clear filters" button: back to category "All" and no tag. */
  function ClearFilters(f: Filters): (g: Filters)
    ensures g == Initial
  {
    Filters("All", None)
  }

  /** After "Clear filters" every project is shown, in list order. */
  lemma ClearFiltersShowsAll(projects: seq<Project>, f: Filters)
    ensures FilteredProjects(projects, ClearFilters(f)) == projects
  {
    FilterKeepsAll(projects, Matcher(ClearFilters(f)));
  }

  /** `allTags`: every tag of every project, each once, in first-occurrence order. */
  function AllTags(projects: seq<Project>): (r: seq<string>)
    ensures NoDuplicates(r)
    ensures forall tag :: tag in r <==> exists p :: p in projects && tag in p.tags
  {
    Dedup(FlatMap(projects, ProjectTags))
  }

  /** `allTags.slice(0, 8)`: the tags offered as buttons. */
  function TagButtons(projects: seq<Project>): (r: seq<string>)
    ensures |r| <= MaxTagButtons
    ensures r <= AllTags(projects)
    ensures |r| == MaxTagButtons || r == AllTags(projects)
    ensures NoDuplicates(r)
  {
    Take(AllTags(projects), MaxTagButtons)
  }

  /** The tag buttons follow the first occurrences of the tags across the projects. */
  lemma TagButtonsFirstOccurrenceOrder(projects: seq<Project>, i: nat, j: nat)
    requires i < j < |TagButtons(projects)|
    ensures IndexOf(FlatMap(projects, ProjectTags), TagButtons(projects)[i]) <
            IndexOf(FlatMap(projects, ProjectTags), TagButtons(projects)[j])
  {
    DedupFirstOccurrenceOrder(FlatMap(projects, ProjectTags), i, j);
  }

  /** `tags.slice(0, 4)`: the badges drawn on a card. */
  function CardTags(tags: seq<string>): (r: seq<string>)
    ensures r <= tags
    ensures |r| == if |tags| < MaxCardTags then |tags| else MaxCardTags
  {
    Take(tags, MaxCardTags)
  }

  /** The `+N` badge, drawn only when more than four tags exist. */
  function OverflowBadge(tags: seq<string>): (n: Option<nat>)
    ensures n.Some? <==> |tags| > MaxCardTags
  {
    if |tags| > MaxCardTags then Some(|tags| - MaxCardTags) else None
  }

  /** The drawn badges and the `+N` count together account for every tag. */
  lemma CardBadgesCountAllTags(tags: seq<string>)
    ensures |CardTags(tags)| + (if OverflowBadge(tags).Some? then OverflowBadge(tags).value else 0) == |tags|
    ensures OverflowBadge(tags).Some? ==> OverflowBadge(tags).value > 0 && |CardTags(tags)| == MaxCardTags
  {
  }
}
