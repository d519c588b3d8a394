/** The App component's state cells and the handlers that replace them: the
    watched list, the selected id, and the state of the mounted details
    panel (its user rating and its rating-decision counter). */
module Popcorn {
  import opened Wrappers
  import opened WatchedList
  import opened Selection
  import opened MovieDetails

  class App {
    /** `watched`, kept by the local-storage hook. */
    var watched: seq<Entry>
    /** `selectedId`; `None` is `null`. */
    var selectedId: Option<string>
    /** The mounted details panel's `userRating`; 0 is the initial "". */
    var userRating: int
    /** The mounted details panel's `countRef.current`. */
    var ratingDecisions: nat

    /** While no details panel is mounted, its state is what a fresh mount
        starts from: rating "" and counter 0. A truthy rating has been
        counted at least once. */
    ghost predicate Valid()
      reads this
    {
      && (!DetailsOpen(selectedId) ==> userRating == 0 && ratingDecisions == 0)
      && (Truthy(userRating) ==> ratingDecisions >= 1)
    }

    /** `isWatched` as the mounted panel computes it. */
    function SelectedIsWatched(): (b: bool)
      reads this
      requires DetailsOpen(selectedId)
      ensures b <==> exists i :: 0 <= i < |watched| && watched[i].imdbID == selectedId.value
    {
      IsWatched(watched, selectedId.value)
    }

    /** The panel offers "Add to list" only for a movie not yet watched, once
        a positive rating has been given. */
    predicate AddOffered()
      reads this
      ensures AddOffered() ==> DetailsOpen(selectedId) && forall i :: 0 <= i < |watched| ==> watched[i].imdbID != selectedId.value
      ensures AddOffered() ==> Truthy(userRating)
    {
      DetailsOpen(selectedId) && !SelectedIsWatched() && userRating > 0
    }

    /** The initial state: `stored` is the list the local-storage hook
        starts from; nothing is selected. */
    constructor (stored: seq<Entry>)
      ensures Valid()
      ensures watched == stored && selectedId == None
      ensures userRating == 0 && ratingDecisions == 0
    {
      watched := stored;
      selectedId := None;
      userRating := 0;
      ratingDecisions := 0;
    }

    /** `handleSelectMovie(id)`. The panel stays mounted (keeping its rating
        and counter) when one open selection replaces another; it unmounts,
        losing them, when the selection is cleared. */
    method SelectMovie(id: string)
      requires Valid()
      modifies this
      ensures Valid()
      ensures selectedId == Select(old(selectedId), id)
      ensures watched == old(watched)
      ensures DetailsOpen(selectedId) ==>
                userRating == old(userRating) && ratingDecisions == old(ratingDecisions)
      ensures !DetailsOpen(selectedId) ==> userRating == 0 && ratingDecisions == 0
    {
      selectedId := Select(selectedId, id);
      if !DetailsOpen(selectedId) {
        userRating, ratingDecisions := 0, 0;
      }
    }

    /** `handleCloseMovie`, also bound to the Escape key while the panel is
        mounted: clears the selection, unmounting the panel. */
    method CloseMovie()
      requires Valid()
      modifies this
      ensures Valid()
      ensures selectedId == None
      ensures watched == old(watched)
      ensures userRating == 0 && ratingDecisions == 0
    {
      selectedId := Close(selectedId);
      userRating, ratingDecisions := 0, 0;
    }

    /** `handleAddWatched(movie)`: appends, without a duplicate check. */
    method AddWatched(movie: Entry)
      requires Valid()
      modifies this`watched
      ensures Valid()
      ensures watched == Add(old(watched), movie)
    {
      watched := Add(watched, movie);
    }

    /** `handleDeleteWatched(id)`: drops every entry with that id. */
    method DeleteWatched(id: string)
      requires Valid()
      modifies this`watched
      ensures Valid()
      ensures watched == Delete(old(watched), id)
      ensures !IsWatched(watched, id)
    {
      watched := Delete(watched, id);
    }

    /** The star rating's `setUserRating(rating)` followed by the effect on
        `[userRating]`, which bumps the counter. */
    method SetUserRating(rating: int)
      requires Valid() && DetailsOpen(selectedId)
      modifies this`userRating, this`ratingDecisions
      ensures Valid()
      ensures userRating == rating
      ensures ratingDecisions == NextDecisionCount(old(ratingDecisions), old(userRating), rating)
    {
      ratingDecisions := NextDecisionCount(ratingDecisions, userRating, rating);
      userRating := rating;
    }

    /** `handleAdd`: builds the entry from the loaded detail record, the
        selected id, the rating and the counter, adds it, then closes the
        panel. When the panel offered the button, ids stay unique and the
        new entry's rating is what the list reports for that id. */
    method HandleAdd(movie: Detail)
      requires Valid() && DetailsOpen(selectedId)
      modifies this
      ensures Valid()
      ensures watched == Add(old(watched), BuildEntry(old(selectedId).value, movie, old(userRating), old(ratingDecisions)))
      ensures selectedId == None && userRating == 0 && ratingDecisions == 0
      ensures old(AddOffered()) && old(UniqueIds(watched)) ==> UniqueIds(watched)
      ensures old(AddOffered()) ==> WatchedUserRating(watched, old(selectedId).value) == Some(old(userRating))
      ensures old(AddOffered()) ==> watched[|watched| - 1].countRatingDecisions >= 1
    {
      var entry := BuildEntry(selectedId.value, movie, userRating, ratingDecisions);
      if AddOffered() {
        AddedRatingIsShown(watched, entry);
        if UniqueIds(watched) {
          AddPreservesUnique(watched, entry);
        }
      }
      AddWatched(entry);
      CloseMovie();
    }
  }

  /** Rating a movie that is not yet watched and adding it lists it once,
      with that rating, and leaves nothing selected; deleting it afterwards
      gives back the list it started from. */
  method RateAddDelete(stored: seq<Entry>, id: string, movie: Detail, rating: int)
    requires UniqueIds(stored) && !IsWatched(stored, id)
    requires id != "" && rating > 0
  {
    var app := new App(stored);
    app.SelectMovie(id);
    app.SetUserRating(rating);
    assert app.AddOffered();
    app.HandleAdd(movie);
    assert UniqueIds(app.watched);
    assert app.watched[|stored|].countRatingDecisions == 1;
    assert WatchedUserRating(app.watched, id) == Some(rating);
    assert app.selectedId == None;
    AddThenDelete(stored, BuildEntry(id, movie, rating, 1));
    app.DeleteWatched(id);
    assert app.watched == stored;
  }
}
