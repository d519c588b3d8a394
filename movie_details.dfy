/** The details panel of a selected movie: the record fetched for it, the
    user's rating with its decision counter, and the watched entry built
    from them when the user adds the movie. */
module MovieDetails {
  import opened Wrappers
  import opened WatchedList

  /** The fields of the fetched detail record that go into a watched entry.
      `runtime` is the API's text, of the form "<N> min". */
  datatype Detail = Detail(
    title: string,
    year: string,
    poster: string,
    imdbRating: string,
    runtime: string)

  /** `s.split(" ").at(0)`: the text before the first space (all of `s` when
      there is none). */
  function LeadingToken(s: string): (t: string)
    ensures t <= s
    ensures ' ' !in t
    ensures t == s || s[|t|] == ' '
  {
    if s == [] || s[0] == ' ' then [] else [s[0]] + LeadingToken(s[1..])
  }

  predicate IsDigit(c: char)
  {
    '0' <= c <= '9'
  }

  predicate AllDigits(t: string)
  {
    forall i :: 0 <= i < |t| ==> IsDigit(t[i])
  }

  /** The value of a string of decimal digits, most significant first; the
      empty string is 0, as `Number("")` is. */
  function DecimalValue(t: string): (v: nat)
    requires AllDigits(t)
  {
    if t == [] then 0
    else 10 * DecimalValue(t[..|t| - 1]) + (t[|t| - 1] as int - '0' as int)
  }

  /** `Number(token)` on the tokens it reads as a whole number: no number
      when the token holds a non-digit, and N for the numeral of N. */
  function ParseNumber(t: string): (r: Option<nat>)
    ensures r.None? <==> exists i :: 0 <= i < |t| && !IsDigit(t[i])
    ensures forall n: nat :: t == Decimal(n) ==> r == Some(n)
  {
    if AllDigits(t) then
      assert forall n: nat :: t == Decimal(n) ==> DecimalValue(t) == n by {
        forall n: nat | t == Decimal(n) ensures DecimalValue(t) == n {
          DecimalRoundTrip(n);
        }
      }
      Some(DecimalValue(t))
    else None
  }

  /** `Number(runtime.split(" ").at(0))`: no number exactly when the text
      before the first space holds a non-digit. */
  function RuntimeMinutes(runtime: string): (r: Option<nat>)
    ensures r.None? <==> !AllDigits(LeadingToken(runtime))
  {
    ParseNumber(LeadingToken(runtime))
  }

  /** The decimal numeral of `n`, without leading zeros: the "<N>" the API
      writes in front of " min". */
  function Decimal(n: nat): (d: string)
    ensures |d| > 0 && AllDigits(d)
  {
    if n < 10 then [('0' as int + n) as char]
    else Decimal(n / 10) + [('0' as int + n % 10) as char]
  }

  /** Reading a numeral back gives the number it was written from. */
  lemma {:induction false} DecimalRoundTrip(n: nat)
    ensures DecimalValue(Decimal(n)) == n
  {
    var d := Decimal(n);
    if n >= 10 {
      assert d[..|d| - 1] == Decimal(n / 10);
      DecimalRoundTrip(n / 10);
    }
  }

  /** The leading token of "<token> <rest>" is the token, when it has no space. */
  lemma {:induction false} LeadingTokenOf(t: string, rest: string)
    requires ' ' !in t
    ensures LeadingToken(t + " " + rest) == t
  {
    if t != [] {
      assert (t + " " + rest)[1..] == t[1..] + " " + rest;
      LeadingTokenOf(t[1..], rest);
    }
  }

  /** A runtime of the form "<N> <unit>", such as "148 min", parses to N. */
  lemma RuntimeOfMinutes(n: nat, unit: string)
    ensures RuntimeMinutes(Decimal(n) + " " + unit) == Some(n)
  {
    LeadingTokenOf(Decimal(n), unit);
  }

  /** A runtime whose leading token holds a non-digit, such as the API's
      "N/A", does not parse. */
  lemma RuntimeNotANumber(runtime: string, k: nat)
    requires k < |LeadingToken(runtime)| && !IsDigit(LeadingToken(runtime)[k])
    ensures RuntimeMinutes(runtime) == None
  {
  }

  /** JavaScript truthiness of a rating: the empty initial rating (0 here)
      and 0 are false, every other number is true. */
  predicate Truthy(rating: int)
  {
    rating != 0
  }

  /** The "Add to list" button needs `userRating > 0`; such a rating is
      truthy, so setting it from any other value bumps the counter. */
  lemma OfferedRatingIsTruthy(count: nat, previous: int, rating: int)
    requires rating > 0 && rating != previous
    ensures Truthy(rating) && NextDecisionCount(count, previous, rating) == count + 1
  {
  }

  /** The counter after the rating goes from `previous` to `next`. The effect
      that bumps it depends on the rating, so it runs only when the rating
      changes, and bumps only on a truthy rating. */
  function NextDecisionCount(count: nat, previous: int, next: int): (c: nat)
    ensures c == count + 1 <==> next != previous && Truthy(next)
    ensures c == count <==> !(next != previous && Truthy(next))
  {
    if next != previous && Truthy(next) then count + 1 else count
  }

  /** The counter after a run of rating settings, starting from `previous`. */
  function DecisionsAfter(count: nat, previous: int, ratings: seq<int>): (c: nat)
    decreases |ratings|
  {
    if ratings == [] then count
    else DecisionsAfter(NextDecisionCount(count, previous, ratings[0]), ratings[0], ratings[1..])
  }

  /** Over a run of settings the counter rises by at most one per setting, and
      by exactly one per setting when each one is truthy and differs from the
      one before. */
  lemma {:induction false} DecisionsAfterBounds(count: nat, previous: int, ratings: seq<int>)
    ensures count <= DecisionsAfter(count, previous, ratings) <= count + |ratings|
    ensures (forall i :: 0 <= i < |ratings| ==> Truthy(ratings[i]))
         && (|ratings| > 0 ==> ratings[0] != previous)
         && (forall i :: 0 < i < |ratings| ==> ratings[i] != ratings[i - 1])
         ==> DecisionsAfter(count, previous, ratings) == count + |ratings|
    decreases |ratings|
  {
    if ratings != [] {
      var c := NextDecisionCount(count, previous, ratings[0]);
      DecisionsAfterBounds(c, ratings[0], ratings[1..]);
      var tail := ratings[1..];
      assert forall i :: 0 < i < |tail| ==> tail[i] == ratings[i + 1] && tail[i - 1] == ratings[i];
    }
  }

  /** `handleAdd`'s new watched entry: filed under the selected id, with the
      detail's descriptive fields, the current rating and decision count, and
      the runtime read from the detail's runtime text. */
  function BuildEntry(selectedId: string, movie: Detail, userRating: int, decisions: nat): (e: Entry)
    ensures e.imdbID == selectedId
    ensures e.title == movie.title && e.year == movie.year && e.poster == movie.poster
    ensures e.imdbRating == movie.imdbRating
    ensures e.userRating == userRating && e.countRatingDecisions == decisions
    ensures e.runtime.None? <==> !AllDigits(LeadingToken(movie.runtime))
  {
    Entry(
      imdbID := selectedId,
      title := movie.title,
      year := movie.year,
      poster := movie.poster,
      imdbRating := movie.imdbRating,
      runtime := RuntimeMinutes(movie.runtime),
      userRating := userRating,
      countRatingDecisions := decisions)
  }

  /** For a runtime "<N> min" the new entry records N minutes. */
  lemma NewEntryFromDetail(selectedId: string, movie: Detail, userRating: int, decisions: nat, n: nat)
    requires movie.runtime == Decimal(n) + " min"
    ensures BuildEntry(selectedId, movie, userRating, decisions).runtime == Some(n)
  {
    RuntimeOfMinutes(n, "min");
    assert Decimal(n) + " min" == Decimal(n) + " " + "min";
  }
}
