/** The user's watched list: an ordered sequence of entries, appended to by
    `handleAddWatched`, filtered by `handleDeleteWatched` and searched by the
    `isWatched` / `watchedUserRating` lookups of the details panel. */
module WatchedList {
  import opened Wrappers

  /** One watched movie, with the fields `handleAdd` puts into it.
      `imdbRating` is kept as the API's text: its float conversion is not
      modelled. `runtime` is `None` when the leading token of the API's
      runtime text is not a plain decimal numeral. A `userRating` of 0 stands
      for the empty initial rating. */
  datatype Entry = Entry(
    imdbID: string,
    title: string,
    year: string,
    poster: string,
    imdbRating: string,
    runtime: Option<nat>,
    userRating: int,
    countRatingDecisions: nat)

  /** The ids of the list, in order (`watched.map((movie) => movie.imdbID)`). */
  function Ids(w: seq<Entry>): (ids: seq<string>)
    ensures |ids| == |w|
    ensures forall i :: 0 <= i < |w| ==> ids[i] == w[i].imdbID
  {
    if w == [] then [] else [w[0].imdbID] + Ids(w[1..])
  }

  /** `isWatched`: the id occurs among the ids of the list. */
  function IsWatched(w: seq<Entry>, id: string): (b: bool)
    ensures b <==> exists i :: 0 <= i < |w| && w[i].imdbID == id
  {
    id in Ids(w)
  }

  /** No two entries share an id: what the "Add" guard of the details panel
      keeps true. */
  predicate UniqueIds(w: seq<Entry>)
  {
    forall i, j :: 0 <= i < j < |w| ==> w[i].imdbID != w[j].imdbID
  }

  /** `handleAddWatched`: the entry goes at the end; there is no duplicate check. */
  function Add(w: seq<Entry>, e: Entry): (r: seq<Entry>)
    ensures |r| == |w| + 1
    ensures r[..|w|] == w && r[|w|] == e
    ensures forall id :: IsWatched(r, id) <==> IsWatched(w, id) || id == e.imdbID
  {
    assert forall i :: 0 <= i < |w| ==> (w + [e])[i] == w[i];
    w + [e]
  }

  /** `handleDeleteWatched`: keep exactly the entries whose id differs. */
  function Delete(w: seq<Entry>, id: string): (r: seq<Entry>)
    ensures |r| <= |w|
    ensures forall e :: e in r <==> e in w && e.imdbID != id
    ensures !IsWatched(r, id)
    ensures !IsWatched(w, id) ==> r == w
  {
    if w == [] then []
    else if w[0].imdbID != id then [w[0]] + Delete(w[1..], id)
    else Delete(w[1..], id)
  }

  /** `s` is `t` with some elements dropped, the rest in their original order. */
  predicate IsSubsequence(s: seq<Entry>, t: seq<Entry>)
  {
    if s == [] then true
    else if t == [] then false
    else if s[0] == t[0] then IsSubsequence(s[1..], t[1..])
    else IsSubsequence(s, t[1..])
  }

  /** Position of the first entry with the given id: the search `find` does. */
  function FindIndex(w: seq<Entry>, id: string): (r: Option<nat>)
    ensures r.None? <==> !IsWatched(w, id)
    ensures r.Some? ==> r.value < |w| && w[r.value].imdbID == id
    ensures r.Some? ==> forall j :: 0 <= j < r.value ==> w[j].imdbID != id
  {
    if w == [] then None
    else if w[0].imdbID == id then Some(0)
    else match FindIndex(w[1..], id)
      case None => None
      case Some(k) => Some(k + 1)
  }

  /** `watched.find((movie) => movie.imdbID === selectedId)`. */
  function FindWatched(w: seq<Entry>, id: string): (r: Option<Entry>)
    ensures r.None? <==> !IsWatched(w, id)
    ensures r.Some? ==> r.value.imdbID == id && r.value in w
    ensures forall i :: 0 <= i < |w| && w[i].imdbID == id && (forall j :: 0 <= j < i ==> w[j].imdbID != id) ==>
              r == Some(w[i])
  {
    match FindIndex(w, id)
    case None => None
    case Some(k) =>
      assert forall i :: 0 <= i < |w| && w[i].imdbID == id && (forall j :: 0 <= j < i ==> w[j].imdbID != id) ==>
               i == k;
      Some(w[k])
  }

  /** `watchedUserRating`: the rating stored with the FIRST entry of that id,
      absent exactly when the id is not watched. */
  function WatchedUserRating(w: seq<Entry>, id: string): (r: Option<int>)
    ensures r.None? <==> !IsWatched(w, id)
    ensures forall i :: 0 <= i < |w| && w[i].imdbID == id && (forall j :: 0 <= j < i ==> w[j].imdbID != id) ==>
              r == Some(w[i].userRating)
  {
    match FindWatched(w, id)
    case None => None
    case Some(e) => Some(e.userRating)
  }

  // ----- lemmas about Delete -----

  /** Delete works entry by entry: it distributes over concatenation. */
  lemma {:induction false} DeleteConcat(a: seq<Entry>, b: seq<Entry>, id: string)
    ensures Delete(a + b, id) == Delete(a, id) + Delete(b, id)
  {
    if a == [] {
      assert a + b == b;
    } else {
      assert (a + b)[0] == a[0];
      assert (a + b)[1..] == a[1..] + b;
      DeleteConcat(a[1..], b, id);
    }
  }

  /** The entries that remain keep their original relative order. */
  lemma {:induction false} DeleteKeepsOrder(w: seq<Entry>, id: string)
    ensures IsSubsequence(Delete(w, id), w)
  {
    if w != [] {
      DeleteKeepsOrder(w[1..], id);
      var rest := Delete(w[1..], id);
      if w[0].imdbID != id {
        assert Delete(w, id) == [w[0]] + rest;
        assert ([w[0]] + rest)[1..] == rest;
      } else if rest != [] {
        assert rest[0] in rest;
      }
    }
  }

  /** Every entry with another id keeps its multiplicity; those with the id
      are all gone. */
  lemma {:induction false} DeleteCounts(w: seq<Entry>, id: string, e: Entry)
    ensures multiset(Delete(w, id))[e] == if e.imdbID == id then 0 else multiset(w)[e]
  {
    if w != [] {
      var rest := Delete(w[1..], id);
      DeleteCounts(w[1..], id, e);
      assert w == [w[0]] + w[1..];
      assert multiset(w)[e] == multiset([w[0]])[e] + multiset(w[1..])[e];
      if w[0].imdbID != id {
        assert Delete(w, id) == [w[0]] + rest;
        assert multiset(Delete(w, id))[e] == multiset([w[0]])[e] + multiset(rest)[e];
      } else {
        assert Delete(w, id) == rest;
        assert e == w[0] ==> e.imdbID == id;
      }
    }
  }

  /** Deleting twice is deleting once. */
  lemma DeleteIdempotent(w: seq<Entry>, id: string)
    ensures Delete(Delete(w, id), id) == Delete(w, id)
  {
  }

  /** Ids are unique in a list headed by `x` exactly when they are unique in
      the tail and the tail does not contain `x`'s id. */
  lemma UniqueCons(x: Entry, s: seq<Entry>)
    ensures UniqueIds([x] + s) <==> UniqueIds(s) && !IsWatched(s, x.imdbID)
  {
    var r := [x] + s;
    assert forall k :: 0 <= k < |s| ==> r[k + 1] == s[k];
    if UniqueIds(s) && !IsWatched(s, x.imdbID) {
      forall i, j | 0 <= i < j < |r| ensures r[i].imdbID != r[j].imdbID {
        assert r[j] == s[j - 1];
      }
    }
    if UniqueIds(r) {
      forall i, j | 0 <= i < j < |s| ensures s[i].imdbID != s[j].imdbID {
        assert r[i + 1] == s[i] && r[j + 1] == s[j];
      }
      forall k | 0 <= k < |s| ensures s[k].imdbID != x.imdbID {
        assert r[0] == x && r[k + 1] == s[k];
      }
    }
  }

  /** An id absent from a list is still absent after a delete. */
  lemma DeleteKeepsAbsent(w: seq<Entry>, id: string, x: string)
    requires !IsWatched(w, x)
    ensures !IsWatched(Delete(w, id), x)
  {
  }

  /** A list without duplicate ids keeps that property after a delete. */
  lemma {:induction false} DeletePreservesUnique(w: seq<Entry>, id: string)
    requires UniqueIds(w)
    ensures UniqueIds(Delete(w, id))
  {
    if w != [] {
      assert w == [w[0]] + w[1..];
      UniqueCons(w[0], w[1..]);
      DeletePreservesUnique(w[1..], id);
      var rest := Delete(w[1..], id);
      if w[0].imdbID != id {
        DeleteKeepsAbsent(w[1..], id, w[0].imdbID);
        UniqueCons(w[0], rest);
      }
    }
  }

  // ----- lemmas relating Add and Delete -----

  /** An add keeps ids unique exactly when the guard is met (the id not yet
      watched): the guard is both enough and needed. */
  lemma AddPreservesUnique(w: seq<Entry>, e: Entry)
    ensures UniqueIds(Add(w, e)) <==> UniqueIds(w) && !IsWatched(w, e.imdbID)
  {
    var r := Add(w, e);
    if UniqueIds(r) {
      forall i, j | 0 <= i < j < |w| ensures w[i].imdbID != w[j].imdbID {
        assert r[i] == w[i] && r[j] == w[j];
      }
      forall i | 0 <= i < |w| ensures w[i].imdbID != e.imdbID {
        assert r[i] == w[i] && r[|w|] == e;
      }
    }
  }

  /** Adding an entry whose id is not watched and then deleting that id gives
      back the original list exactly. */
  lemma AddThenDelete(w: seq<Entry>, e: Entry)
    requires !IsWatched(w, e.imdbID)
    ensures Delete(Add(w, e), e.imdbID) == w
  {
    DeleteConcat(w, [e], e.imdbID);
  }

  /** A delete of a watched id makes the list strictly shorter. */
  lemma {:induction false} DeleteShrinks(w: seq<Entry>, id: string)
    requires IsWatched(w, id)
    ensures |Delete(w, id)| < |w|
  {
    if w[0].imdbID != id {
      var i :| 0 <= i < |w| && w[i].imdbID == id;
      assert w[1..][i - 1] == w[i];
      DeleteShrinks(w[1..], id);
    }
  }

  /** Without the guard: when the id is already watched, the round trip also
      removes the earlier entry of that id, so the list comes back shorter. */
  lemma AddDuplicateThenDelete(w: seq<Entry>, e: Entry)
    requires IsWatched(w, e.imdbID)
    ensures Delete(Add(w, e), e.imdbID) == Delete(w, e.imdbID)
    ensures |Delete(Add(w, e), e.imdbID)| < |w|
  {
    DeleteConcat(w, [e], e.imdbID);
    DeleteShrinks(w, e.imdbID);
  }

  /** The lookup after an add: an entry already watched under that id keeps
      answering (find returns the first match); otherwise the new entry does. */
  lemma {:induction false} AddKeepsFirstMatch(w: seq<Entry>, e: Entry, id: string)
    ensures FindWatched(Add(w, e), id)
      == if IsWatched(w, id) then FindWatched(w, id)
         else if e.imdbID == id then Some(e) else None
  {
    if w != [] {
      assert Add(w, e)[1..] == Add(w[1..], e);
      AddKeepsFirstMatch(w[1..], e, id);
      if w[0].imdbID != id {
        assert IsWatched(w, id) == IsWatched(w[1..], id) by {
          if IsWatched(w, id) {
            var i :| 0 <= i < |w| && w[i].imdbID == id;
            assert w[1..][i - 1] == w[i];
          }
          if IsWatched(w[1..], id) {
            var i :| 0 <= i < |w[1..]| && w[1..][i].imdbID == id;
            assert w[i + 1] == w[1..][i];
          }
        }
      }
    }
  }

  /** The rating shown for a movie after adding it (when it was not watched)
      is the rating it was added with. */
  lemma AddedRatingIsShown(w: seq<Entry>, e: Entry)
    requires !IsWatched(w, e.imdbID)
    ensures WatchedUserRating(Add(w, e), e.imdbID) == Some(e.userRating)
  {
    AddKeepsFirstMatch(w, e, e.imdbID);
  }
}
