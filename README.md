# Popcorn: watched list and selection, modelled in Dafny

Popcorn is a single-page movie browser. The user searches a movie database,
opens one title's details, rates it, and keeps a list of watched movies.
This project models the state logic of `src/App.jsx`:

- the **watched list**. Add appends an entry. Delete drops every entry with
  a given `imdbID`. `isWatched` tests membership. `watchedUserRating`
  returns the rating of the first entry with that id;
- the **selection**. Selecting the selected id again clears it. Close
  always clears it. The details panel is shown only while the selection is
  truthy (present and not empty);
- the **details panel's own state**. This is the user rating and the
  rating-decision counter (`countRef`). It also builds the new watched
  entry, including the parse of the API's `"<N> min"` runtime text.

Files:

- `wrappers.dfy`: `Option`.
- `watched_list.dfy`, module `WatchedList`: the `Entry` record and the
  list operations as functions, with lemmas about them.
- `selection.dfy`, module `Selection`: the toggle and the truthiness test
  that decides whether the panel is open.
- `movie_details.dfy`, module `MovieDetails`: the runtime parse, the
  counter update and the entry builder.
- `app.dfy`, module `Popcorn`: class `App`. Its fields are the component's
  state cells (`watched`, `selectedId`, and the mounted panel's
  `userRating` and `countRef.current`). Its methods are the handlers, each
  stated against the pure functions. `Valid()` says that while no panel is
  mounted, its state is what a fresh mount starts from. It also says that
  a truthy rating has been counted at least once, so an entry added through
  the button records at least one rating decision. `AddOffered()` is
  the render guard of the "Add to list" button (App.jsx:366 and :373). The
  method `RateAddDelete` is a client scenario. It rates a movie, adds it,
  checks that it is listed once with that rating, deletes it, and checks
  that the original list is back.

Modelling choices:

- The initial rating `""` and the number 0 are both falsy in JavaScript.
  Both are modelled as the integer 0. `Truthy(r)` is `r != 0`.
- The counter is bumped by an effect whose dependency is `userRating`. That
  effect runs only when the rating CHANGES. So the counter grows by one when
  the rating is set to a truthy value different from the current one.
  Setting the same value again does not count, because the effect runs
  only when `userRating` changes (`NextDecisionCount`).
- `MovieDetails` is rendered without a `key`. So when one open selection
  replaces another, React keeps the same panel instance, and the rating and
  counter carry over to the newly selected movie. The panel unmounts, and
  its state resets, only when the selection becomes falsy.
  `App.SelectMovie` states exactly this.
- `handleAddWatched` itself does not check for duplicate ids. Uniqueness is
  kept only by the render guard. `AddPreservesUnique` and `App.HandleAdd`
  prove that the guard suffices. `AddDuplicateThenDelete` shows what
  happens without it: the add/delete round trip also loses the earlier
  entry.
- State updates are applied at once and in order. React's batching of
  state updates happens within one event, so it does not change the
  sequential result modelled here.

## Model

| member | source | states |
|---|---|---|
| WatchedList.Ids | src/App.jsx:270 | the id list has one id per entry, in the same positions |
| WatchedList.IsWatched | src/App.jsx:270 | `isWatched` holds exactly when some entry has the id |
| WatchedList.Add | src/App.jsx:28-31 | the list grows by one; the old entries are unchanged, in order, as a prefix; the new entry is last; the watched ids are the old ones plus the new id |
| WatchedList.Delete | src/App.jsx:33-35 | never longer; an entry remains iff it was there and its id differs; the id is no longer watched afterwards; deleting an absent id leaves the list unchanged |
| WatchedList.FindIndex | src/App.jsx:271-273 | absent iff the id is not watched; otherwise the position of an entry with that id, and no earlier entry has it |
| WatchedList.FindWatched | src/App.jsx:271-273 | `find` is absent iff the id is not watched; otherwise it returns the first entry of the list with that id |
| WatchedList.WatchedUserRating | src/App.jsx:271-273 | absent exactly when the id is not watched; otherwise the `userRating` of the first entry with that id |
| WatchedList.DeleteConcat | src/App.jsx:34 | the filter works entry by entry: it distributes over concatenation |
| WatchedList.DeleteKeepsOrder | src/App.jsx:34 | the remaining entries keep their original relative order (subsequence) |
| WatchedList.DeleteCounts | src/App.jsx:34 | each entry with another id keeps its multiplicity; entries with the id are all removed |
| WatchedList.DeleteIdempotent | src/App.jsx:34 | deleting the same id twice is the same as once |
| WatchedList.DeleteKeepsAbsent | src/App.jsx:34 | an id that is absent stays absent after a delete |
| WatchedList.DeletePreservesUnique | src/App.jsx:34 | a list with unique ids still has unique ids after a delete |
| WatchedList.DeleteShrinks | src/App.jsx:34 | deleting a watched id makes the list strictly shorter |
| WatchedList.AddPreservesUnique | src/App.jsx:366 | adding keeps ids unique exactly when the old ids were unique and the guard holds (id not watched): the guard is enough and needed |
| WatchedList.AddThenDelete | src/App.jsx:28-35 | adding an entry with an unwatched id and deleting that id restores the list exactly |
| WatchedList.AddDuplicateThenDelete | src/App.jsx:28-35 | adding an already-watched id and deleting it equals deleting it from the old list, which is strictly shorter than the old list |
| WatchedList.AddKeepsFirstMatch | src/App.jsx:271-273 | after an add, the lookup still returns the earlier entry when the id was watched, else the new one when the id matches, else nothing |
| WatchedList.AddedRatingIsShown | src/App.jsx:270-273 | after adding an unwatched movie, the shown rating for its id is the rating it was added with |
| Selection.Select | src/App.jsx:20-22 | the selection is cleared iff the same id was selected; otherwise it becomes the id |
| Selection.Close | src/App.jsx:24-26 | closing always leaves no selection, so no details panel |
| Selection.DetailsShown | src/App.jsx:55-61 | the panel is hidden exactly for the falsy selections `null` and `""` |
| Selection.SelectTwice | src/App.jsx:21 | two selections of one id restore it only if it started selected, and clear it otherwise |
| Selection.SelectOpens | src/App.jsx:55-61 | selecting a non-empty id that is not selected opens its details panel |
| MovieDetails.LeadingToken | src/App.jsx:295 | `split(" ").at(0)` is a prefix without spaces, ending at the first space or at the end of the text |
| MovieDetails.DecimalRoundTrip | src/App.jsx:295 | reading back the decimal numeral of N gives N |
| MovieDetails.LeadingTokenOf | src/App.jsx:295 | the leading token of "<token> <rest>" is the token |
| MovieDetails.ParseNumber | src/App.jsx:295 | the model's token reader gives no number iff the token holds a non-digit (the other numeric forms `Number` accepts are left out), and N for the decimal numeral of N |
| MovieDetails.RuntimeMinutes | src/App.jsx:295 | the runtime gives no number exactly when the text before its first space holds a non-digit |
| MovieDetails.RuntimeOfMinutes | src/App.jsx:295 | a runtime "<N> <unit>", such as "<N> min", parses to N |
| MovieDetails.RuntimeNotANumber | src/App.jsx:295 | a runtime whose leading token holds a non-digit, such as "N/A", does not parse to a number |
| MovieDetails.OfferedRatingIsTruthy | src/App.jsx:263-265 | a rating above 0 (the guard at :373) is truthy, so setting it from another value bumps the counter |
| MovieDetails.NextDecisionCount | src/App.jsx:261-268 | the counter rises by exactly one iff the rating changes to a truthy value, and is unchanged otherwise |
| MovieDetails.DecisionsAfterBounds | src/App.jsx:261-268 | over a run of settings, the counter rises by at most one per setting, and by exactly one per setting when each is truthy and differs from the one before |
| MovieDetails.BuildEntry | src/App.jsx:289-298 | the new entry has the selected id, the detail's title, year, poster and rating text, and the current rating and counter; its runtime is absent exactly when the runtime's leading token holds a non-digit |
| MovieDetails.NewEntryFromDetail | src/App.jsx:295 | for a runtime "<N> min" the new entry records N minutes |
| Popcorn.App.SelectedIsWatched | src/App.jsx:270 | the panel's `isWatched` holds iff some entry has the selected id |
| Popcorn.App.AddOffered | src/App.jsx:366-380 | whenever the button is offered, the panel is open, no entry has the selected id, and the rating is truthy |
| Popcorn.App.constructor | src/App.jsx:13-18 | starts from the stored list, with nothing selected and a fresh panel state |
| Popcorn.App.SelectMovie | src/App.jsx:20-22 | the selection becomes the toggle of the old one; the list is unchanged; the panel state is kept while a panel stays open and reset when none is open |
| Popcorn.App.CloseMovie | src/App.jsx:24-26 | the selection is cleared, the list is unchanged, and the panel state is reset |
| Popcorn.App.AddWatched | src/App.jsx:28-31 | the new list is the old list with the entry appended |
| Popcorn.App.DeleteWatched | src/App.jsx:33-35 | the new list is the filtered old list, and the id is no longer watched |
| Popcorn.App.SetUserRating | src/App.jsx:257-268 | the rating becomes the new value; the counter follows `NextDecisionCount` |
| Popcorn.App.HandleAdd | src/App.jsx:288-302 | appends the built entry and closes the panel; when the button was offered, ids stay unique, the list reports the given rating for the id, and the entry records at least one rating decision |

## Left out

- The search hook `useMovies`, the storage hook `useLocalStorageState`, the
  key hook `useKey` and the `StarRating` component (App.jsx:3-6). Their
  source files are not part of this model. So fetch cancellation, storage
  persistence and key listening are not modelled. `App.constructor` takes
  the initial list as a parameter. `CloseMovie` is the handler that the
  Escape binding calls, but the binding itself is not modelled.
- The detail fetch in `getMovieDetails` (App.jsx:306-320) is network I/O.
  `App.HandleAdd` receives the loaded record as a parameter.
- The `document.title` effect (App.jsx:322-333) and the input focus and
  Enter key in `Search` (App.jsx:117-141). These are browser DOM effects.
- `average` and the summary figures (App.jsx:8-9, 417-447). These use
  floating-point division and `toFixed`.
- `Number(imdbRating)` (App.jsx:294) is a float conversion. The entry keeps
  the rating as the API's text.
- MovieDetails.RuntimeMinutes, MovieDetails.ParseNumber, MovieDetails.BuildEntry: the runtime
  reader, and so the runtime of a built entry, reads only plain decimal digit tokens (the
  empty token is 0, as `Number("")` is). For any other token it gives
  `None`. `Number` also reads forms such as "1.5", "0x1F", "1e3", "+5",
  "-5", "Infinity" and numerals with surrounding tabs or newlines, and gives
  NaN for the rest. The model does not
  distinguish these.
- `HandleAdd` on a detail record that has not loaded (where `runtime` is
  undefined and the source would throw). The model takes a loaded record.
- JavaScript numbers are doubles. The counter and the runtime are
  unbounded naturals here, so precision loss above 2^53 is not modelled.
- `Box`'s open/closed toggle (App.jsx:179-194). It is presentation state.
  It also unmounts an open panel, which the model does not capture.
- The search query state and everything rendered (JSX and PropTypes).
