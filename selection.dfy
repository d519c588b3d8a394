/** The current selection of the app: the id of the movie whose details are
    shown, or none. */
module Selection {
  import opened Wrappers

  /** `handleSelectMovie`'s updater: selecting the selected id again clears
      the selection; any other id becomes the selection. */
  function Select(current: Option<string>, id: string): (next: Option<string>)
    ensures next.None? <==> current == Some(id)
    ensures next.Some? ==> next.value == id
  {
    if current == Some(id) then None else Some(id)
  }

  /** `handleCloseMovie`'s updater: no selection, whatever was selected, so
      no details panel either. */
  function Close(current: Option<string>): (next: Option<string>)
    ensures next.None? && !DetailsOpen(next)
  {
    None
  }

  /** The details panel is rendered when the selection is truthy: present and
      not the empty string. */
  predicate DetailsOpen(selected: Option<string>)
  {
    selected.Some? && selected.value != ""
  }

  /** The panel shows for exactly the selections that are present and
      non-empty: `null` and `""` are the falsy selections. */
  lemma DetailsShown(selected: Option<string>)
    ensures !DetailsOpen(selected) <==> selected == None || selected == Some("")
  {
  }

  /** Two clicks on the same id: the selection ends up on that id only if it
      started there, and is cleared otherwise. */
  lemma SelectTwice(current: Option<string>, id: string)
    ensures Select(Select(current, id), id) == if current == Some(id) then Some(id) else None
  {
  }

  /** Clicking a non-empty id that is not selected opens its details. */
  lemma SelectOpens(current: Option<string>, id: string)
    requires current != Some(id) && id != ""
    ensures DetailsOpen(Select(current, id)) && Select(current, id).value == id
  {
  }
}
