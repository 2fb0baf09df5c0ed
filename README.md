# Portfolio site: catalogue filters and typewriter headline

This project models the three pieces of real logic in a static portfolio and
blog site, and proves properties of them in Dafny:

- **Blog listing** (`src/app/blog/page.tsx`). The posts are split into featured
  and regular posts. The regular posts pass a stable filter: a case-insensitive
  substring search of the query in the title, the excerpt or any tag, AND an
  optional exact tag selection. The page also has the tag bar (every tag once,
  in first-occurrence order), the "All" and tag-toggle buttons, "Clear filters"
  and the rule for showing the featured section.
- **Projects listing** (`src/app/projects/page.tsx`). A stable filter by category
  (`"All"` is a wildcard) AND an optional tag. The page also has the tag bar
  capped at eight buttons, the same toggle and reset buttons, and the card rule
  that draws at most four tag badges plus a `+N` badge.
- **Typewriter headline** (`src/components/home/HeroSection.tsx`). Three state
  variables (`currentRole`, `displayText`, `isDeleting`) advance on each timer
  tick. A tick types one character, pauses and starts deleting, deletes one
  character, or moves on to the next of the four roles.

Layout of the Dafny files:

| file | module | contents |
|---|---|---|
| `seqs.dfy` | `Seqs` | `filter`, `flatMap`, `slice(0, n)` and `[...new Set(xs)]` on sequences, with subsequence, counting, idempotence and first-occurrence lemmas |
| `text.dfy` | `Text` | ASCII `toLowerCase` and `includes`, with the substring characterisation |
| `catalog.dfy` | `Catalog` | the `selectedTag` state both pages share: JavaScript truthiness, the tag test and the toggle |
| `blog.dfy` | `Blog` | the blog listing page |
| `projects.dfy` | `Projects` | the projects page |
| `hero.dfy` | `Hero` | the typewriter: a pure `Tick` on a `Frame` value, and the class `Typewriter` whose `Step` updates the fields in place and is proved equal to `Tick` |

The two pages compute their listings with expressions (`filter`, `some`,
`includes`, `Set`, ternary toggles), so they are modelled as functions and
lemmas. The typewriter changes its state step by step, so it is a class with
the three fields and a `Step` method that keeps the invariant.

Behaviour of the code worth noting:

- `src/app/blog/page.tsx:187` matches a tag when the lower-cased query is a
  substring of the lower-cased tag, so the tag need not equal the query
  (`Blog.TagSearchIsSubstring`).
- `src/app/projects/page.tsx:166` keeps the category as a string that starts at
  `"All"`. It is never unset.
- Tags are ordered arrays (`src/app/blog/page.tsx:14`,
  `src/app/projects/page.tsx:13`). The order decides the tag bar, the
  eight-button cap at `src/app/projects/page.tsx:224` and the four-badge cap at
  `src/app/projects/page.tsx:149`.
- `src/app/blog/page.tsx:189` and `src/app/projects/page.tsx:171` test
  `!selectedTag`, which is JavaScript truthiness, so a selected empty string
  `""` acts like no selection (`Catalog.TagChosen`). In the same way,
  `!searchQuery` at `src/app/blog/page.tsx:256` means `query == ""`.

## Model

| member | source | states |
|---|---|---|
| Seqs.Filter | src/app/blog/page.tsx:183-192 | a stable filter returns no more elements than it was given; each one passes the test and comes from the input |
| Seqs.FilterIsSubsequence | src/app/blog/page.tsx:183 | the result of a filter is a subsequence of its input, in the input's order |
| Seqs.FilterMembership | src/app/blog/page.tsx:183 | an element is in the result iff it is in the input and passes the test |
| Seqs.FilterCount | src/app/projects/page.tsx:169 | each passing element keeps all its occurrences and every other element has none, so the result is fixed up to order, and the order is fixed by the subsequence lemma |
| Seqs.FilterKeepsAll | src/app/projects/page.tsx:169 | when every element passes, the filter returns its input unchanged |
| Seqs.FilterIdempotent | src/app/projects/page.tsx:169-173 | filtering a filtered list again with the same test returns it unchanged |
| Seqs.FilterFilter | src/app/blog/page.tsx:180-183 | filtering by one test and then another equals one filter by their conjunction |
| Seqs.FilterNarrower | src/app/projects/page.tsx:171 | a stricter test keeps a subsequence of a looser test's result, and never more elements |
| Seqs.FlatMap | src/app/blog/page.tsx:72 | `flatMap` holds exactly the elements of the per-entry lists |
| Seqs.FlatMapAppend | src/app/blog/page.tsx:72 | `flatMap` keeps the order of the entries: the result for a concatenation is the result for its first part followed by the result for its second part, and one entry contributes exactly its own list; so the flattened tags run post by post, in list order |
| Seqs.Take | src/app/projects/page.tsx:224 | `slice(0, n)` is a prefix of length `min(n, length)` |
| Seqs.IndexOf | src/app/blog/page.tsx:72 | the index returned is the first occurrence of the element |
| Seqs.Dedup | src/app/blog/page.tsx:72 | `[...new Set(xs)]` has no duplicates, holds exactly the elements of `xs`, and is no longer than `xs` |
| Seqs.DedupFirstOccurrenceOrder | src/app/blog/page.tsx:72 | the de-duplicated elements are in the order of their first occurrences in `xs` |
| Text.LowerChar | src/app/blog/page.tsx:185 | ASCII lower-casing never yields an upper-case letter; it shifts `A`..`Z` by 32 and leaves every other character alone |
| Text.Lower | src/app/blog/page.tsx:185 | `toLowerCase` keeps the length and lower-cases each character in place |
| Text.LowerIdempotent | src/app/blog/page.tsx:185 | lower-casing twice is lower-casing once |
| Text.Includes | src/app/blog/page.tsx:185 | every string includes the empty string, and a match needs a query no longer than the text |
| Text.IncludesIffOccurs | src/app/blog/page.tsx:185-187 | `s.includes(q)` holds iff `q` occurs as a contiguous block at some position of `s` |
| Catalog.TagChosen | src/app/blog/page.tsx:189 | the selection counts as a chosen tag iff it is neither `null` nor `''`, the two falsy values of `selectedTag` |
| Catalog.HasSelectedTag | src/app/projects/page.tsx:171 | with no tag or `''` selected every entry passes; otherwise an entry passes iff the selected tag is one of its tags, compared exactly and case-sensitively |
| Catalog.ToggleTag | src/app/blog/page.tsx:240 | clicking a tag yields no selection iff that tag was selected; otherwise that tag is selected |
| Catalog.ToggleTwice | src/app/blog/page.tsx:240 | clicking the same tag twice restores a selection of that tag and otherwise ends with no selection |
| Blog.FeaturedPosts | src/app/blog/page.tsx:179 | the featured list holds only featured posts of the list |
| Blog.RegularPosts | src/app/blog/page.tsx:180 | the regular list holds only non-featured posts of the list |
| Blog.FeaturedRegularPartition | src/app/blog/page.tsx:179-180 | the featured and regular lists together hold every post exactly as often as the list does |
| Blog.MatchesSearch | src/app/blog/page.tsx:184-187 | the search test of one post: an empty query passes every post, and a passing query is no longer than the title, the excerpt or some tag (its full meaning is in `Blog.MatchesSearchIffOccurs`) |
| Blog.Matches | src/app/blog/page.tsx:191 | with an empty query and no tag chosen every post passes; a post that passes a chosen tag carries that tag |
| Blog.FilteredPosts | src/app/blog/page.tsx:182-193 | every listed post is a non-featured post of the list that passes both the search test and the tag test |
| Blog.FilteredPostsKeep | src/app/blog/page.tsx:182-193 | a post is listed iff it is a regular post passing both tests, as often as it occurs; so no featured post is ever listed |
| Blog.FilteredPostsInOrder | src/app/blog/page.tsx:179-183 | the listing is a subsequence of the regular posts and of all posts, and equals one filter over all posts |
| Blog.NoFilterListsAllRegular | src/app/blog/page.tsx:184-189 | an empty query with no tag lists every regular post, because every string includes `''` |
| Blog.FilteredPostsIdempotent | src/app/blog/page.tsx:182-193 | filtering the listing again with the same query and tag returns the same listing |
| Blog.TagNarrowsListing | src/app/blog/page.tsx:189 | selecting a tag where none was selected gives a subsequence of the previous listing, never a longer one |
| Blog.MatchesSearchIffOccurs | src/app/blog/page.tsx:184-187 | a post passes the search iff the lower-cased query occurs in its lower-cased title, its excerpt or some tag |
| Blog.TagSearchIsSubstring | src/app/blog/page.tsx:187 | a post tagged only `TypeScript` passes the query `Script`: the tag test is a case-insensitive substring test and not tag equality |
| Blog.AllTags | src/app/blog/page.tsx:72 | the tag bar has no duplicates and holds exactly the tags of the posts |
| Blog.AllTagsFirstOccurrenceOrder | src/app/blog/page.tsx:72 | the tag bar lists the tags in the order of their first occurrences across the posts |
| Blog.SetQuery | src/app/blog/page.tsx:217 | typing replaces the query and keeps the selected tag |
| Blog.SelectAll | src/app/blog/page.tsx:225 | the "All" button clears the tag and keeps the query |
| Blog.ClickTag | src/app/blog/page.tsx:240 | a tag button keeps the query and toggles between that tag and no tag |
| Blog.ClearFilters | src/app/blog/page.tsx:283-286 | "Clear filters" gives the initial state: empty query, no tag |
| Blog.FeaturedPostsExist | src/app/blog/page.tsx:179 | the featured list is non-empty iff some post of the list is featured |
| Blog.ShowFeatured | src/app/blog/page.tsx:256 | the featured section is drawn iff the query is empty, no tag is chosen (`null` or `''`) and some post is featured; the listing below it then holds every regular post |
| Blog.FeaturedSectionCompletesListing | src/app/blog/page.tsx:256 | when the featured section is shown, it and the listing together show every post as often as it occurs in the post list |
| Blog.ClearFiltersRestoresPage | src/app/blog/page.tsx:283-286 | after "Clear filters" every regular post is listed, and the featured section is back iff there is a featured post |
| Projects.FilteredProjects | src/app/projects/page.tsx:169-173 | every project shown is in the list and passes both the category and the tag tests |
| Projects.MatchesCategory | src/app/projects/page.tsx:170 | `"All"` matches every project; any other category matches a project iff its category is exactly equal |
| Projects.Matches | src/app/projects/page.tsx:172 | with category `"All"` and no tag chosen every project passes; a passing project has the chosen category unless it is `"All"`, and carries the chosen tag when one is chosen |
| Projects.CategoryButtonsShow | src/app/projects/page.tsx:85 | with no tag chosen, the `"All"` button shows the whole list and each other category button shows exactly the projects of that category, in list order |
| Projects.FilteredProjectsKeep | src/app/projects/page.tsx:169-173 | a project is shown iff it passes both tests, as often as it is listed, and the result keeps the list order |
| Projects.TagNarrowsResult | src/app/projects/page.tsx:171-172 | adding a tag where none was selected gives a subsequence of the old result, never a longer one |
| Projects.FilteredProjectsIdempotent | src/app/projects/page.tsx:169-173 | the same filter state applied to its own result returns it unchanged |
| Projects.SelectCategory | src/app/projects/page.tsx:195 | a category button sets the category and keeps the tag |
| Projects.SelectAllTech | src/app/projects/page.tsx:212 | the "All Tech" button clears the tag and keeps the category |
| Projects.ClickTag | src/app/projects/page.tsx:227 | a tag button keeps the category and toggles between that tag and no tag |
| Projects.ClearFilters | src/app/projects/page.tsx:254-257 | "Clear filters" gives category `"All"` and no tag |
| Projects.ClearFiltersShowsAll | src/app/projects/page.tsx:254-257 | after "Clear filters" the result is the whole project list, in order |
| Projects.AllTags | src/app/projects/page.tsx:86 | the tag list has no duplicates and holds exactly the tags of the projects |
| Projects.TagButtons | src/app/projects/page.tsx:224 | at most eight distinct buttons are offered; they are a prefix of the tag list, and they are all of it when it is shorter than eight |
| Projects.TagButtonsFirstOccurrenceOrder | src/app/projects/page.tsx:86 | the tag buttons follow the first occurrences of the tags across the projects |
| Projects.CardTags | src/app/projects/page.tsx:149 | a card draws the first `min(4, n)` tags |
| Projects.OverflowBadge | src/app/projects/page.tsx:154-158 | the `+N` badge is drawn iff there are more than four tags |
| Projects.CardBadgesCountAllTags | src/app/projects/page.tsx:149-158 | the drawn badges plus the `+N` count equal the number of tags, and `N` is positive whenever the badge is drawn |
| Hero.Tick | src/components/home/HeroSection.tsx:29-43 | a tick keeps the role index in range and keeps the displayed text a prefix of the current role |
| Hero.TypesNextChar | src/components/home/HeroSection.tsx:30-32 | while typing an incomplete role, a tick appends exactly the role's next character |
| Hero.PausesWhenComplete | src/components/home/HeroSection.tsx:33-34 | with the role fully typed, a tick keeps the text and starts deleting |
| Hero.DeletesLastChar | src/components/home/HeroSection.tsx:37-38 | while deleting a non-empty text, a tick removes exactly its last character |
| Hero.AdvancesRole | src/components/home/HeroSection.tsx:39-41 | with the text deleted, a tick stops deleting and moves to role `(currentRole + 1) % 4` |
| Hero.Run | src/components/home/HeroSection.tsx:25-47 | any number of ticks keeps the role index in range and the text a prefix of the current role |
| Hero.RoleCycle | src/components/home/HeroSection.tsx:29-43 | from an empty text, `2 * len(role) + 2` ticks type the role, pause, delete it and move to the next role |
| Hero.Typewriter.constructor | src/components/home/HeroSection.tsx:21-23 | the component starts at role 0 with an empty text and not deleting |
| Hero.Typewriter.TypingSpeed | src/components/home/HeroSection.tsx:27 | the delay is 50 ms iff deleting and 100 ms iff typing |
| Hero.Typewriter.Step | src/components/home/HeroSection.tsx:29-43 | one firing updates the three fields in place exactly as `Tick` does and keeps the invariant |

## Left out

- Text.Lower: models `toLowerCase` on ASCII letters only. JavaScript lower-cases all of Unicode, and some characters change length when lower-cased.
- Hero.Typewriter.Step: lengths are counted in characters, where JavaScript counts UTF-16 code units. The four roles are ASCII, so the two agree for them.
- Timers: `setTimeout` delays and their clean-up are not modelled. Each firing is one `Step` call. The 2000 ms pause before deleting is folded into the tick that sets `isDeleting`. The inner timeout at `HeroSection.tsx:34` is never cleared, and that timing concern is not modelled.
- React itself: `useState` setters, re-rendering and the `useMemo` cache around `filteredPosts` are not modelled. Each state is a value passed to pure functions, and the memo does not change the result.
- `formatDate` (`src/app/blog/page.tsx:74-81`) is left out. It relies on `Date` parsing and locale formatting, whose behaviour is not visible here.
- The blog card shows the first three tags (`src/app/blog/page.tsx:165`). This is presentational and not modelled; `Seqs.Take` is the same rule.
- The markdown renderer `renderContent` and the `TableOfContents` heading scan in `src/app/blog/[slug]/page.tsx` are not part of this model.
- Contact form submission (`src/app/contact/page.tsx`) is a network POST with asynchronous state, and is not modelled.
- The header scroll listener, menu toggle and active-link highlighting (`src/components/layout/Header.tsx`) are DOM event handling, and are not modelled.
- The theme toggle and its context (`src/components/ui/ThemeToggle.tsx`) are not modelled. The context module is not part of this model.
- The Button, Card and Badge class-name composition and the remaining pages and sections only render static data, and are not modelled.
- The static sample data (the six posts and six projects) are not modelled as constants. All lemmas hold for every post and project list.
