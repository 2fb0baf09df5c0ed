/** The blog listing page: featured/regular split, the search-and-tag filter
    over the regular posts, the de-duplicated tag bar, the filter buttons and
    the visibility of the featured section. */
module Blog {
  import opened Seqs
  import opened Text
  import opened Catalog

  /** One entry of the static post list; an absent `featured` flag reads as false. */
  datatype Post = Post(
    slug: string,
    title: string,
    excerpt: string,
    date: string,
    readingTime: string,
    tags: seq<string>,
    featured: bool)

  /** The page state: the search box text and the selected tag. */
  datatype Filters = Filters(query: string, selectedTag: Option<string>)

  /** `useState('')` and `useState(null)`. */
  const Initial: Filters := Filters("", None)

  predicate IsFeatured(p: Post) { p.featured }

  predicate IsRegular(p: Post) { !p.featured }

  function PostTags(p: Post): seq<string> { p.tags }

  /** `blogPosts.filter((p) => p.featured)` */
  function FeaturedPosts(posts: seq<Post>): (r: seq<Post>)
    ensures forall i :: 0 <= i < |r| ==> r[i].featured && r[i] in posts
  {
    Filter(posts, IsFeatured)
  }

  /** `blogPosts.filter((p) => !p.featured)` */
  function RegularPosts(posts: seq<Post>): (r: seq<Post>)
    ensures forall i :: 0 <= i < |r| ==> !r[i].featured && r[i] in posts
  {
    Filter(posts, IsRegular)
  }

  /** Every post is either featured or regular, never both and never neither. */
  lemma FeaturedRegularPartition(posts: seq<Post>)
    ensures multiset(FeaturedPosts(posts)) + multiset(RegularPosts(posts)) == multiset(posts)
  {
    forall p
      ensures (multiset(FeaturedPosts(posts)) + multiset(RegularPosts(posts)))[p] == multiset(posts)[p]
    {
      FilterCount(posts, IsFeatured, p);
      FilterCount(posts, IsRegular, p);
    }
  }

  /** The text test: the lower-cased query occurs in the lower-cased title,
      excerpt, or any one tag. */
  function MatchesSearch(p: Post, query: string): (found: bool)
    ensures query == "" ==> found
    ensures found ==> exists s :: s in [p.title, p.excerpt] + p.tags && |query| <= |s|
  {
    var q := Lower(query);
    || Includes(Lower(p.title), q)
    || Includes(Lower(p.excerpt), q)
    || exists tag :: tag in p.tags && Includes(Lower(tag), q)
  }

  /** `matchesSearch && matchesTag`: with an empty query and no tag every post
      passes, and a post passing a chosen tag carries that tag. */
  function Matches(f: Filters, p: Post): (passes: bool)
    ensures f.query == "" && !TagChosen(f.selectedTag) ==> passes
    ensures passes && TagChosen(f.selectedTag) ==> f.selectedTag.value in p.tags
  {
    MatchesSearch(p, f.query) && HasSelectedTag(p.tags, f.selectedTag)
  }

  function Matcher(f: Filters): Post -> bool {
    p => Matches(f, p)
  }

  function RegularMatcher(f: Filters): Post -> bool {
    p => IsRegular(p) && Matches(f, p)
  }

  /** `filteredPosts`: the regular posts that pass both tests, in list order. */
  function FilteredPosts(posts: seq<Post>, f: Filters): (r: seq<Post>)
    ensures forall i :: 0 <= i < |r| ==> !r[i].featured && Matches(f, r[i]) && r[i] in posts
  {
    Filter(RegularPosts(posts), Matcher(f))
  }

  /** A post is listed exactly when it is a regular post passing both tests, and
      then as often as it occurs in the post list. */
  lemma FilteredPostsKeep(posts: seq<Post>, f: Filters, p: Post)
    ensures p in FilteredPosts(posts, f) <==> p in posts && !p.featured && Matches(f, p)
    ensures multiset(FilteredPosts(posts, f))[p] ==
            if !p.featured && Matches(f, p) then multiset(posts)[p] else 0
  {
    FilterMembership(RegularPosts(posts), Matcher(f), p);
    FilterMembership(posts, IsRegular, p);
    FilterCount(RegularPosts(posts), Matcher(f), p);
    FilterCount(posts, IsRegular, p);
  }

  /** The listing keeps the order of the regular posts and of the whole post list. */
  lemma FilteredPostsInOrder(posts: seq<Post>, f: Filters)
    ensures IsSubsequence(FilteredPosts(posts, f), RegularPosts(posts))
    ensures IsSubsequence(FilteredPosts(posts, f), posts)
    ensures FilteredPosts(posts, f) == Filter(posts, RegularMatcher(f))
  {
    FilterIsSubsequence(RegularPosts(posts), Matcher(f));
    FilterFilter(posts, IsRegular, Matcher(f), RegularMatcher(f));
    FilterIsSubsequence(posts, RegularMatcher(f));
  }

  /** With an empty query and no tag every regular post is listed, since every
      string includes the empty string. */
  lemma NoFilterListsAllRegular(posts: seq<Post>, f: Filters)
    requires f.query == "" && !TagChosen(f.selectedTag)
    ensures FilteredPosts(posts, f) == RegularPosts(posts)
  {
    var regular := RegularPosts(posts);
    assert Lower(f.query) == "";
    assert forall i :: 0 <= i < |regular| ==> Matcher(f)(regular[i]);
    FilterKeepsAll(regular, Matcher(f));
  }

  /** Re-running the filter on its own result with the same state changes nothing. */
  lemma FilteredPostsIdempotent(posts: seq<Post>, f: Filters)
    ensures Filter(FilteredPosts(posts, f), Matcher(f)) == FilteredPosts(posts, f)
    ensures FilteredPosts(FilteredPosts(posts, f), f) == FilteredPosts(posts, f)
  {
    var r := FilteredPosts(posts, f);
    FilterIdempotent(RegularPosts(posts), Matcher(f));
    FilterKeepsAll(r, IsRegular);
  }

  /** Selecting a tag where none was selected lists a subsequence of what was
      listed before, so never more posts. */
  lemma TagNarrowsListing(posts: seq<Post>, query: string, tag: string)
    ensures IsSubsequence(FilteredPosts(posts, Filters(query, Some(tag))), FilteredPosts(posts, Filters(query, None)))
    ensures |FilteredPosts(posts, Filters(query, Some(tag)))| <= |FilteredPosts(posts, Filters(query, None))|
  {
    FilterNarrower(RegularPosts(posts), Matcher(Filters(query, None)), Matcher(Filters(query, Some(tag))));
  }

  /** The text test in terms of positions: the lower-cased query occurs somewhere in
      the lower-cased title, the excerpt or a tag. A tag need only contain the query. */
  lemma MatchesSearchIffOccurs(p: Post, query: string)
    ensures MatchesSearch(p, query) <==>
            || Occurs(Lower(p.title), Lower(query))
            || Occurs(Lower(p.excerpt), Lower(query))
            || exists tag :: tag in p.tags && Occurs(Lower(tag), Lower(query))
  {
    IncludesIffOccurs(Lower(p.title), Lower(query));
    IncludesIffOccurs(Lower(p.excerpt), Lower(query));
    forall tag | tag in p.tags
      ensures Includes(Lower(tag), Lower(query)) <==> Occurs(Lower(tag), Lower(query))
    {
      IncludesIffOccurs(Lower(tag), Lower(query));
    }
  }

  /** A post tagged only "TypeScript" is found by the query "Script": the tag test
      is a case-insensitive substring test, not tag equality. */
  lemma TagSearchIsSubstring()
    ensures var p := Post("", "", "", "", "", ["TypeScript"], false);
            MatchesSearch(p, "Script") && "Script" !in p.tags
  {
    var tag, q := "TypeScript", "Script";
    assert tag[4..10] == q;
    LowerSlice(tag, 4, 10);
    assert OccursAt(Lower(tag), Lower(q), 4);
    IncludesIffOccurs(Lower(tag), Lower(q));
    assert tag in [tag] && Includes(Lower(tag), Lower(q));
  }

  /** `allTags`: every tag of every post, each once, in first-occurrence order. */
  function AllTags(posts: seq<Post>): (r: seq<string>)
    ensures NoDuplicates(r)
    ensures forall tag :: tag in r <==> exists p :: p in posts && tag in p.tags
  {
    Dedup(FlatMap(posts, PostTags))
  }

  /** Tag buttons appear in the order in which the tags first occur across the posts. */
  lemma AllTagsFirstOccurrenceOrder(posts: seq<Post>, i: nat, j: nat)
    requires i < j < |AllTags(posts)|
    ensures IndexOf(FlatMap(posts, PostTags), AllTags(posts)[i]) < IndexOf(FlatMap(posts, PostTags), AllTags(posts)[j])
  {
    DedupFirstOccurrenceOrder(FlatMap(posts, PostTags), i, j);
  }

  /** Typing in the search box replaces the query and keeps the tag. */
  function SetQuery(f: Filters, query: string): (g: Filters)
    ensures g.query == query && g.selectedTag == f.selectedTag
  {
    f.(query := query)
  }

  /** The "All" button: any selected tag is dropped, the query is kept. */
  function SelectAll(f: Filters): (g: Filters)
    ensures g.query == f.query && g.selectedTag == None && !TagChosen(g.selectedTag)
  {
    f.(selectedTag := None)
  }

  /** A tag button: toggles between that tag and no tag, keeping the query. */
  function ClickTag(f: Filters, tag: string): (g: Filters)
    ensures g.query == f.query
    ensures g.selectedTag == if f.selectedTag == Some(tag) then None else Some(tag)
  {
    f.(selectedTag := ToggleTag(f.selectedTag, tag))
  }

  /** The "Clear filters" button: empty query and no tag, whatever the state. */
  function ClearFilters(f: Filters): (g: Filters)
    ensures g == Initial
  {
    Filters("", None)
  }

  /** The featured list is non-empty exactly when some post of the list is featured. */
  lemma FeaturedPostsExist(posts: seq<Post>)
    ensures |FeaturedPosts(posts)| > 0 <==> exists p :: p in posts && p.featured
  {
    if |FeaturedPosts(posts)| > 0 {
      assert FeaturedPosts(posts)[0] in posts;
    }
    if exists p :: p in posts && p.featured {
      var p :| p in posts && p.featured;
      FilterMembership(posts, IsFeatured, p);
    }
  }

  /** The featured section is drawn exactly when the query is empty, no tag is
      chosen and some post is featured; the listing below then holds every regular post. */
  function ShowFeatured(posts: seq<Post>, f: Filters): (shown: bool)
    ensures shown <==> f.query == "" && !TagChosen(f.selectedTag) && exists p :: p in posts && p.featured
    ensures shown ==> FilteredPosts(posts, f) == RegularPosts(posts)
  {
    FeaturedPostsExist(posts);
    if f.query == "" && !TagChosen(f.selectedTag) && |FeaturedPosts(posts)| > 0 then
      NoFilterListsAllRegular(posts, f);
      true
    else false
  }

  /** Whenever the featured section is drawn, it and the listing together show every
      post as often as it occurs in the post list. */
  lemma FeaturedSectionCompletesListing(posts: seq<Post>, f: Filters)
    ensures ShowFeatured(posts, f) ==>
            multiset(FeaturedPosts(posts)) + multiset(FilteredPosts(posts, f)) == multiset(posts)
  {
    if ShowFeatured(posts, f) {
      NoFilterListsAllRegular(posts, f);
      FeaturedRegularPartition(posts);
    }
  }

  /** After "Clear filters" the listing holds every regular post and the featured
      section is back whenever there is a featured post. */
  lemma ClearFiltersRestoresPage(posts: seq<Post>, f: Filters)
    ensures FilteredPosts(posts, ClearFilters(f)) == RegularPosts(posts)
    ensures ShowFeatured(posts, ClearFilters(f)) <==> |FeaturedPosts(posts)| > 0
  {
    NoFilterListsAllRegular(posts, ClearFilters(f));
  }
}
