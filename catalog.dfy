/** The single-tag selection shared by the blog and projects pages: the
    `selectedTag: string | null` state, its tag test and its toggle. */
module Catalog {

  datatype Option<T> = None | Some(value: T)

  /** JavaScript truthiness of `selectedTag`: `null` and `''` both read as "no tag". */
  function TagChosen(selected: Option<string>): (chosen: bool)
    ensures chosen <==> selected !in {None, Some("")}
  {
    selected.Some? && selected.value != ""
  }

  /** `!selectedTag || tags.includes(selectedTag)`: exact, case-sensitive membership. */
  function HasSelectedTag(tags: seq<string>, selected: Option<string>): (passes: bool)
    ensures selected in {None, Some("")} ==> passes
    ensures selected !in {None, Some("")} ==> (passes <==> selected.value in tags)
  {
    !TagChosen(selected) || selected.value in tags
  }

  /** `setSelectedTag(selectedTag === tag ? null : tag)`: clicking the selected tag
      clears the selection, clicking any other tag selects it instead. */
  function ToggleTag(selected: Option<string>, tag: string): (next: Option<string>)
    ensures next == None <==> selected == Some(tag)
    ensures next != None ==> next == Some(tag)
  {
    if selected == Some(tag) then None else Some(tag)
  }

  /** Clicking a tag twice from any state leaves it unselected, unless it started selected. */
  lemma ToggleTwice(selected: Option<string>, tag: string)
    ensures ToggleTag(ToggleTag(selected, tag), tag) == if selected == Some(tag) then Some(tag) else None
  {
  }
}
