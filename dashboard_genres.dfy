/**
 * The top-genres card of the dashboard: a histogram of the genre strings of
 * the top artists, ranked by count (highest first, ties in first-seen order
 * because the sort is stable), at most five genre names.
 */
module DashboardGenres {
  import opened SpotifyTypes
  import opened Sequences
  import opened JsObjects

  /** How many genres the card shows (`slice(0, 5)`). */
  const GenreLimit: nat := 5

  /** An element of `Object.entries(genreCount)`: a genre and its count. */
  type Entry = (string, nat)

  /** Every genre of every artist, artist after artist, in list order. */
  function AllGenres(artists: seq<Artist>): seq<string>
  {
    if artists == [] then []
    else AllGenres(artists[..|artists| - 1]) + artists[|artists| - 1].genres
  }

  /** The number of times genre `g` occurs across all the artists' genre lists. */
  function GenreCount(artists: seq<Artist>, g: string): nat
  {
    multiset(AllGenres(artists))[g]
  }

  /** The summed lengths of the artists' genre lists. */
  function GenreListLengths(artists: seq<Artist>): nat
  {
    if artists == [] then 0 else |artists[0].genres| + GenreListLengths(artists[1..])
  }

  /** For each key of `ks`, the key and how often it occurs in `s`. */
  function TallyOf(ks: seq<string>, s: seq<string>): (e: seq<Entry>)
    ensures |e| == |ks|
    ensures forall p :: 0 <= p < |ks| ==> e[p] == (ks[p], multiset(s)[ks[p]])
  {
    if ks == [] then [] else [(ks[0], multiset(s)[ks[0]])] + TallyOf(ks[1..], s)
  }

  /**
   * Reference definition of `Object.entries(genreCount)` once the genres of `s`
   * have been counted: each distinct genre where it first occurs, with its
   * number of occurrences.
   */
  function Tally(s: seq<string>): seq<Entry>
  {
    TallyOf(Distinct(s), s)
  }

  /** The genre names of a list of entries (`map(([genre]) => genre)`). */
  function Names(e: seq<Entry>): (r: seq<string>)
    ensures |r| == |e|
    ensures forall p :: 0 <= p < |e| ==> r[p] == e[p].0
  {
    if e == [] then [] else [e[0].0] + Names(e[1..])
  }

  /** The sum of the counts of a list of entries. */
  function TotalCount(e: seq<Entry>): nat
  {
    if e == [] then 0 else e[0].1 + TotalCount(e[1..])
  }

  // ---------------------------------------------------------------------------
  // The histogram loop

  /**
   * The counts `genreCount` holds once the genres of `s` have been counted,
   * one assignment `genreCount[g] = (genreCount[g] || 0) + 1` per element.
   */
  function CountMap(s: seq<string>): map<string, nat>
  {
    if s == [] then map[]
    else
      var m, g := CountMap(s[..|s| - 1]), s[|s| - 1];
      m[g := (if g in m then m[g] else 0) + 1]
  }

  lemma CountMapSnoc(s: seq<string>, g: string)
    ensures CountMap(s + [g]) == CountMap(s)[g := (if g in CountMap(s) then CountMap(s)[g] else 0) + 1]
  {
    assert (s + [g])[..|s|] == s;
  }

  /** The histogram is exact: a key for each genre that occurs, holding its number of occurrences. */
  lemma {:induction false} CountMapCounts(s: seq<string>)
    ensures forall k :: k in CountMap(s) <==> k in s
    ensures forall k :: k in CountMap(s) ==> CountMap(s)[k] == multiset(s)[k]
  {
    if s != [] {
      var s', g := s[..|s| - 1], s[|s| - 1];
      assert s == s' + [g];
      CountMapCounts(s');
      assert multiset(s) == multiset(s') + multiset{g};
    }
  }

  lemma CountsAreTally(s: seq<string>)
    ensures forall i :: 0 <= i < |Distinct(s)| ==> Distinct(s)[i] in CountMap(s)
    ensures Pairs(Distinct(s), CountMap(s)) == Tally(s)
  {
    CountMapCounts(s);
  }

  lemma AllGenresPrefix(artists: seq<Artist>, i: nat)
    requires i < |artists|
    ensures AllGenres(artists[..i + 1]) == AllGenres(artists[..i]) + artists[i].genres
  {
    assert artists[..i + 1][..i] == artists[..i];
  }

  /** `genreCount` holds the histogram of `seen`. */
  ghost predicate Counted(genreCount: JsObject<nat>, seen: seq<string>)
    reads genreCount
  {
    && genreCount.Valid()
    && genreCount.keys == Distinct(seen)
    && genreCount.values == CountMap(seen)
  }

  /** `genreCount[genre] = (genreCount[genre] || 0) + 1` */
  method CountOne(genreCount: JsObject<nat>, ghost seen: seq<string>, genre: string)
    requires Counted(genreCount, seen)
    modifies genreCount
    ensures Counted(genreCount, seen + [genre])
  {
    DistinctSnoc(seen, genre);
    CountMapSnoc(seen, genre);
    assert genre in genreCount.values <==> genre in seen by {
      assert genre in genreCount.values <==> genre in genreCount.keys;
    }
    var count := genreCount.Get(genre).GetOr(0);
    assert count == if genre in CountMap(seen) then CountMap(seen)[genre] else 0;
    genreCount.Set(genre, count + 1);
  }

  /** `artist.genres.forEach((genre) => ...)`: counts one artist's genres. */
  method CountArtistGenres(genreCount: JsObject<nat>, ghost seen: seq<string>, genres: seq<string>)
    requires Counted(genreCount, seen)
    modifies genreCount
    ensures Counted(genreCount, seen + genres)
  {
    ghost var done := seen;
    var j := 0;
    while j < |genres|
      invariant 0 <= j <= |genres|
      invariant done == seen + genres[..j]
      invariant Counted(genreCount, done)
    {
      CountOne(genreCount, done, genres[j]);
      assert genres[..j + 1] == genres[..j] + [genres[j]];
      done := done + [genres[j]];
      j := j + 1;
    }
    assert genres[..j] == genres;
  }

  /** The histogram loop over every genre of every artist, followed by `Object.entries`. */
  method CountGenres(artists: seq<Artist>) returns (entries: seq<Entry>)
    ensures entries == Tally(AllGenres(artists))
  {
    var genreCount := new JsObject<nat>();
    var i := 0;
    while i < |artists|
      invariant 0 <= i <= |artists|
      invariant Counted(genreCount, AllGenres(artists[..i]))
    {
      CountArtistGenres(genreCount, AllGenres(artists[..i]), artists[i].genres);
      AllGenresPrefix(artists, i);
      i := i + 1;
    }
    assert artists[..|artists|] == artists;
    CountsAreTally(AllGenres(artists));
    entries := genreCount.Entries();
  }

  // ---------------------------------------------------------------------------
  // Properties of the histogram

  /**
   * The keys of `genreCount` are exactly the genres that occur, each once, in
   * order of first occurrence, and each count is the genre's number of
   * occurrences (so at least one).
   */
  lemma GenreTallyExact(artists: seq<Artist>)
    ensures Names(Tally(AllGenres(artists))) == Distinct(AllGenres(artists))
    ensures forall g :: g in Names(Tally(AllGenres(artists))) <==> g in AllGenres(artists)
    ensures forall p :: 0 <= p < |Tally(AllGenres(artists))| ==>
      Tally(AllGenres(artists))[p].1 == GenreCount(artists, Tally(AllGenres(artists))[p].0) >= 1
  {
    var flat := AllGenres(artists);
    var e := Tally(flat);
    forall p | 0 <= p < |e|
      ensures e[p].1 >= 1
    {
      assert e[p].0 in flat;
    }
  }

  function CountsIn(ks: seq<string>, m: multiset<string>): nat
  {
    if ks == [] then 0 else m[ks[0]] + CountsIn(ks[1..], m)
  }

  lemma {:induction false} TotalCountOfTally(ks: seq<string>, s: seq<string>)
    ensures TotalCount(TallyOf(ks, s)) == CountsIn(ks, multiset(s))
  {
    if ks != [] {
      assert TallyOf(ks, s)[1..] == TallyOf(ks[1..], s);
      TotalCountOfTally(ks[1..], s);
    }
  }

  lemma {:induction false} CountsInAdd(ks: seq<string>, m: multiset<string>, x: string)
    requires NoDuplicates(ks)
    ensures CountsIn(ks, m + multiset{x}) == CountsIn(ks, m) + (if x in ks then 1 else 0)
  {
    if ks != [] {
      CountsInAdd(ks[1..], m, x);
      assert x in ks <==> x == ks[0] || x in ks[1..];
      assert x == ks[0] ==> x !in ks[1..];
    }
  }

  lemma {:induction false} CountsInEmpty(ks: seq<string>)
    ensures CountsIn(ks, multiset{}) == 0
  {
    if ks != [] {
      CountsInEmpty(ks[1..]);
    }
  }

  lemma {:induction false} CountsInAll(ks: seq<string>, s: seq<string>)
    requires NoDuplicates(ks)
    requires forall x :: x in s ==> x in ks
    ensures CountsIn(ks, multiset(s)) == |s|
  {
    if s == [] {
      CountsInEmpty(ks);
    } else {
      assert s == [s[0]] + s[1..];
      assert multiset(s) == multiset(s[1..]) + multiset{s[0]};
      CountsInAll(ks, s[1..]);
      CountsInAdd(ks, multiset(s[1..]), s[0]);
    }
  }

  lemma {:induction false} AllGenresLength(artists: seq<Artist>)
    ensures |AllGenres(artists)| == GenreListLengths(artists)
  {
    if artists != [] {
      var init, last := artists[..|artists| - 1], artists[|artists| - 1];
      AllGenresLength(init);
      GenreListLengthsSnoc(init, last);
      assert artists == init + [last];
    }
  }

  lemma {:induction false} GenreListLengthsSnoc(artists: seq<Artist>, a: Artist)
    ensures GenreListLengths(artists + [a]) == GenreListLengths(artists) + |a.genres|
  {
    if artists != [] {
      assert (artists + [a])[1..] == artists[1..] + [a];
      GenreListLengthsSnoc(artists[1..], a);
    }
  }

  /** Count conservation: the counts add up to the total length of all genre lists. */
  lemma GenreCountsSum(artists: seq<Artist>)
    ensures TotalCount(Tally(AllGenres(artists))) == GenreListLengths(artists)
  {
    var flat := AllGenres(artists);
    TotalCountOfTally(Distinct(flat), flat);
    CountsInAll(Distinct(flat), flat);
    AllGenresLength(artists);
  }

  // ---------------------------------------------------------------------------
  // The ranking: `sort((a, b) => b[1] - a[1])`, stable

  /**
   * Puts `x`, which came before every element of `l` in the unsorted input,
   * in front of the first element whose count does not exceed its own.
   */
  function Insert(x: Entry, l: seq<Entry>): (r: seq<Entry>)
    ensures |r| == |l| + 1
    ensures multiset(r) == multiset(l) + multiset{x}
  {
    if l == [] || x.1 >= l[0].1 then [x] + l
    else
      assert l == [l[0]] + l[1..];
      [l[0]] + Insert(x, l[1..])
  }

  /** A stable sort by count, highest first. */
  function SortByCount(e: seq<Entry>): (r: seq<Entry>)
    ensures |r| == |e|
    ensures multiset(r) == multiset(e)
  {
    if e == [] then []
    else
      assert e == [e[0]] + e[1..];
      Insert(e[0], SortByCount(e[1..]))
  }

  /** `Object.entries(genreCount).sort(...).map(([genre]) => genre).slice(0, 5)` */
  function RankGenres(entries: seq<Entry>): (top: seq<string>)
    ensures |top| == Min(GenreLimit, |entries|)
    ensures top == Names(SortByCount(entries))[..|top|]
  {
    Take(Names(SortByCount(entries)), GenreLimit)
  }

  /** The genres the card shows for the given top artists. */
  function TopGenres(artists: seq<Artist>): (top: seq<string>)
    ensures |top| == Min(GenreLimit, |Tally(AllGenres(artists))|)
    ensures top == Names(SortByCount(Tally(AllGenres(artists))))[..|top|]
  {
    RankGenres(Tally(AllGenres(artists)))
  }

  predicate ByCountDesc(l: seq<Entry>)
  {
    forall i, j :: 0 <= i < j < |l| ==> l[i].1 >= l[j].1
  }

  lemma {:induction false} InsertByCount(x: Entry, l: seq<Entry>)
    requires ByCountDesc(l)
    ensures ByCountDesc(Insert(x, l))
  {
    if l != [] && x.1 < l[0].1 {
      InsertByCount(x, l[1..]);
      var r := Insert(x, l[1..]);
      forall y | y in r
        ensures l[0].1 >= y.1
      {
        assert y in multiset(r);
      }
    }
  }

  /** The sorted entries have non-increasing counts. */
  lemma {:induction false} SortByCountOrdered(e: seq<Entry>)
    ensures ByCountDesc(SortByCount(e))
  {
    if e != [] {
      SortByCountOrdered(e[1..]);
      InsertByCount(e[0], SortByCount(e[1..]));
    }
  }

  /** `x` strictly precedes `y`: a higher count, or the same count and an earlier rank. */
  predicate Before(x: Entry, y: Entry, rank: string -> int)
  {
    x.1 > y.1 || (x.1 == y.1 && rank(x.0) < rank(y.0))
  }

  predicate StrictlyRanked(l: seq<Entry>, rank: string -> int)
  {
    forall i, j :: 0 <= i < j < |l| ==> Before(l[i], l[j], rank)
  }

  predicate RankIncreasing(e: seq<Entry>, rank: string -> int)
  {
    forall i, j :: 0 <= i < j < |e| ==> rank(e[i].0) < rank(e[j].0)
  }

  lemma {:induction false} InsertRanked(x: Entry, l: seq<Entry>, rank: string -> int)
    requires StrictlyRanked(l, rank)
    requires forall y :: y in l ==> rank(x.0) < rank(y.0)
    ensures StrictlyRanked(Insert(x, l), rank)
  {
    if l != [] {
      if x.1 >= l[0].1 {
        forall j | 0 <= j < |l|
          ensures Before(x, l[j], rank)
        {
          if j > 0 {
            assert Before(l[0], l[j], rank);
          }
        }
      } else {
        InsertRanked(x, l[1..], rank);
        var r := Insert(x, l[1..]);
        forall y | y in r
          ensures Before(l[0], y, rank)
        {
          assert y in multiset(r);
          if y != x {
            assert y in l[1..];
          }
        }
      }
    }
  }

  /**
   * Stability: when the input lists its entries in increasing rank, the
   * sorted list orders by count and, among equal counts, by rank.
   */
  lemma {:induction false} SortByCountStable(e: seq<Entry>, rank: string -> int)
    requires RankIncreasing(e, rank)
    ensures StrictlyRanked(SortByCount(e), rank)
  {
    if e != [] {
      var rest := SortByCount(e[1..]);
      SortByCountStable(e[1..], rank);
      forall y | y in rest
        ensures rank(e[0].0) < rank(y.0)
      {
        assert y in multiset(rest);
        assert y in e[1..];
      }
      InsertRanked(e[0], rest, rank);
    }
  }

  /** Two permutations of each other that both respect a strict ranking are equal. */
  lemma {:induction false} StrictlyRankedUnique(a: seq<Entry>, b: seq<Entry>, rank: string -> int)
    requires multiset(a) == multiset(b)
    requires StrictlyRanked(a, rank) && StrictlyRanked(b, rank)
    ensures a == b
  {
    if a != [] {
      assert a[0] in multiset(b);
      assert b != [];
      assert b[0] in multiset(a);
      assert a[0] == b[0];
      assert a == [a[0]] + a[1..];
      assert b == [b[0]] + b[1..];
      assert multiset(a) == multiset{a[0]} + multiset(a[1..]);
      assert multiset(b) == multiset{b[0]} + multiset(b[1..]);
      assert multiset(a[1..]) == multiset(a) - multiset{a[0]};
      assert multiset(b[1..]) == multiset(b) - multiset{b[0]};
      StrictlyRankedUnique(a[1..], b[1..], rank);
    }
  }

  /**
   * Whatever algorithm `Array.prototype.sort` uses, a stable sort by count,
   * highest first, over entries with distinct names returns `SortByCount`:
   * any permutation ordered by count, with equal counts in input order, is it.
   */
  lemma AnyStableSortAgrees(e: seq<Entry>, o: seq<Entry>)
    requires NoDuplicates(Names(e))
    requires multiset(o) == multiset(e)
    requires forall i, j :: 0 <= i < j < |o| ==>
      o[i].1 > o[j].1 || (o[i].1 == o[j].1 && Position(Names(e), o[i].0) < Position(Names(e), o[j].0))
    ensures o == SortByCount(e)
  {
    var names := Names(e);
    var rank := (k: string) => Position(names, k) as int;
    forall i, j | 0 <= i < j < |e|
      ensures rank(e[i].0) < rank(e[j].0)
    {
      FirstIndexAt(names, i);
      FirstIndexAt(names, j);
    }
    SortByCountStable(e, rank);
    assert StrictlyRanked(o, rank);
    StrictlyRankedUnique(o, SortByCount(e), rank);
  }

  // ---------------------------------------------------------------------------
  // Properties of the genres the card shows

  /** The entries of `genreCount` once sorted. */
  function SortedGenres(artists: seq<Artist>): seq<Entry>
  {
    SortByCount(Tally(AllGenres(artists)))
  }

  /** Every sorted entry is a genre that occurs, with its exact count. */
  lemma SortedGenresExact(artists: seq<Artist>)
    ensures |SortedGenres(artists)| == |set g | g in AllGenres(artists)|
    ensures forall i :: 0 <= i < |SortedGenres(artists)| ==>
      SortedGenres(artists)[i].0 in AllGenres(artists) &&
      SortedGenres(artists)[i].1 == GenreCount(artists, SortedGenres(artists)[i].0)
  {
    var flat := AllGenres(artists);
    var e, o := Tally(flat), SortedGenres(artists);
    GenreTallyExact(artists);
    DistinctCard(flat);
    forall i | 0 <= i < |o|
      ensures o[i].0 in flat && o[i].1 == GenreCount(artists, o[i].0)
    {
      assert o[i] in multiset(o);
      assert o[i] in e;
      var p :| 0 <= p < |e| && e[p] == o[i];
      assert Names(e)[p] == o[i].0;
    }
  }

  /** Every genre that occurs has a sorted entry. */
  lemma SortedGenresCover(artists: seq<Artist>)
    ensures forall g :: g in AllGenres(artists) ==> g in Names(SortedGenres(artists))
  {
    var flat := AllGenres(artists);
    var e, o := Tally(flat), SortedGenres(artists);
    GenreTallyExact(artists);
    forall g | g in flat
      ensures g in Names(o)
    {
      var p := FirstIndex(Names(e), g);
      assert e[p] in multiset(o);
      var i :| 0 <= i < |o| && o[i] == e[p];
      assert Names(o)[i] == g;
    }
  }

  /** The sorted entries are ordered by count, then by first occurrence. */
  lemma SortedGenresRanked(artists: seq<Artist>)
    ensures forall i, j :: 0 <= i < j < |SortedGenres(artists)| ==>
      || SortedGenres(artists)[i].1 > SortedGenres(artists)[j].1
      || (&& SortedGenres(artists)[i].1 == SortedGenres(artists)[j].1
          && Position(AllGenres(artists), SortedGenres(artists)[i].0)
             < Position(AllGenres(artists), SortedGenres(artists)[j].0))
  {
    var flat := AllGenres(artists);
    var e, o := Tally(flat), SortedGenres(artists);
    DistinctOrder(flat);
    var rank := (k: string) => Position(flat, k) as int;
    forall i, j | 0 <= i < j < |e|
      ensures rank(e[i].0) < rank(e[j].0)
    {
      assert e[i].0 == Distinct(flat)[i] && e[j].0 == Distinct(flat)[j];
    }
    SortByCountStable(e, rank);
    assert StrictlyRanked(o, rank);
  }

  /** No genre has two sorted entries. */
  lemma SortedGenresUnique(artists: seq<Artist>)
    ensures NoDuplicates(Names(SortedGenres(artists)))
  {
    var o := SortedGenres(artists);
    var names := Names(o);
    SortedGenresExact(artists);
    SortedGenresRanked(artists);
    forall i, j | 0 <= i < j < |names|
      ensures names[i] != names[j]
    {
      assert names[i] == o[i].0 && names[j] == o[j].0;
    }
  }

  /** At most five genres, and exactly as many as occur when there are fewer. */
  lemma TopGenresCount(artists: seq<Artist>)
    ensures |TopGenres(artists)| <= GenreLimit
    ensures |TopGenres(artists)| == Min(GenreLimit, |set g | g in AllGenres(artists)|)
  {
    SortedGenresExact(artists);
  }

  /** No genre is shown twice. */
  lemma TopGenresDistinct(artists: seq<Artist>)
    ensures NoDuplicates(TopGenres(artists))
  {
    var top, names := TopGenres(artists), Names(SortedGenres(artists));
    SortedGenresUnique(artists);
    assert top == names[..|top|];
  }

  /** Every genre shown is a key of `genreCount`: it occurs at least once. */
  lemma TopGenresOccur(artists: seq<Artist>)
    ensures forall i :: 0 <= i < |TopGenres(artists)| ==>
      TopGenres(artists)[i] in Names(Tally(AllGenres(artists))) && GenreCount(artists, TopGenres(artists)[i]) >= 1
  {
    var o, top := SortedGenres(artists), TopGenres(artists);
    SortedGenresExact(artists);
    GenreTallyExact(artists);
    forall i | 0 <= i < |top|
      ensures top[i] in Names(Tally(AllGenres(artists))) && GenreCount(artists, top[i]) >= 1
    {
      assert top[i] == o[i].0;
    }
  }

  /**
   * The genres shown come in non-increasing order of count, and genres with
   * equal counts in the order in which they were first seen.
   */
  lemma TopGenresOrdered(artists: seq<Artist>)
    ensures forall i, j :: 0 <= i < j < |TopGenres(artists)| ==>
      || GenreCount(artists, TopGenres(artists)[i]) > GenreCount(artists, TopGenres(artists)[j])
      || (&& GenreCount(artists, TopGenres(artists)[i]) == GenreCount(artists, TopGenres(artists)[j])
          && Position(AllGenres(artists), TopGenres(artists)[i]) < Position(AllGenres(artists), TopGenres(artists)[j]))
  {
    var o, top := SortedGenres(artists), TopGenres(artists);
    SortedGenresExact(artists);
    SortedGenresRanked(artists);
    forall i, j | 0 <= i < j < |top|
      ensures
        || GenreCount(artists, top[i]) > GenreCount(artists, top[j])
        || (&& GenreCount(artists, top[i]) == GenreCount(artists, top[j])
            && Position(AllGenres(artists), top[i]) < Position(AllGenres(artists), top[j]))
    {
      assert top[i] == o[i].0 && top[j] == o[j].0;
    }
  }

  /**
   * A genre that occurs but is left out is only left out when five genres are
   * shown, and it has a smaller count than the last one shown, or the same
   * count and was first seen after it.
   */
  lemma TopGenresLeftOut(artists: seq<Artist>)
    ensures forall g :: g in AllGenres(artists) && g !in TopGenres(artists) ==>
      && |TopGenres(artists)| == GenreLimit
      && (|| GenreCount(artists, g) < GenreCount(artists, TopGenres(artists)[GenreLimit - 1])
          || (&& GenreCount(artists, g) == GenreCount(artists, TopGenres(artists)[GenreLimit - 1])
              && Position(AllGenres(artists), TopGenres(artists)[GenreLimit - 1]) < Position(AllGenres(artists), g)))
  {
    var o, top := SortedGenres(artists), TopGenres(artists);
    SortedGenresExact(artists);
    SortedGenresCover(artists);
    SortedGenresRanked(artists);
    forall g | g in AllGenres(artists) && g !in top
      ensures |top| == GenreLimit
      ensures GenreCount(artists, g) < GenreCount(artists, top[GenreLimit - 1]) ||
        (GenreCount(artists, g) == GenreCount(artists, top[GenreLimit - 1]) &&
         Position(AllGenres(artists), top[GenreLimit - 1]) < Position(AllGenres(artists), g))
    {
      var k := FirstIndex(Names(o), g);
      assert k >= |top|;
      assert top[GenreLimit - 1] == o[GenreLimit - 1].0;
    }
  }
}
