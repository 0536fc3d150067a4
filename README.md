# Corsoly dashboard aggregation, modelled in Dafny

Corsoly is a Spotify dashboard. After it has loaded the user's five top
tracks and five top artists, the dashboard component derives three things
from them:

- **Top albums.** One album card per distinct album id among the top tracks.
  The card is built from the first track that carries the id (album name,
  images, the track's artists and links). Cards come in the order in which
  the ids first occur, and at most five are shown.
- **Top genres.** A histogram of the genre strings of all the top artists.
  Its entries are sorted by count, highest first. The sort is stable, so
  equal counts stay in first-seen order. At most five genre names are kept.
- **Per-track genre label.** The first genre of the first top artist whose
  name equals the name of the track's first artist. The label is `"-"` when
  there is no such artist, the artist has no genres, or the track has no
  artists.

The model's parts:

- `SpotifyTypes`: the track, artist and album records, cut down to the
  fields the aggregation reads or copies.
- `JsObjects.JsObject`: a plain JavaScript object used as a dictionary. It
  is a class with an insertion-ordered key list and a map from keys to
  values, because `Object.values` and `Object.entries` list non-integer keys
  in insertion order.
- The two `forEach` loops are imperative methods over a `JsObject`. Each is
  proved against a reference function: `AlbumMap`/`FirstAlbums` for the
  albums and `CountMap`/`Tally` for the genres.
- The ranking chain `entries.sort(...).map(...).slice(0, 5)` and the
  `find(...)?.genres[0] || "-"` label are functions. Lemmas state their
  properties: bounds, uniqueness, exact counts, count conservation, order,
  stability and first-match-wins.

Files:

- `wrappers.dfy`: option values.
- `sequences.dfy`: `slice`, de-duplication that keeps first occurrences,
  first index.
- `js_object.dfy`: the object/dictionary class.
- `spotify_types.dfy`: the records.
- `dashboard_albums.dfy`: top albums.
- `dashboard_genres.dfy`: top genres.
- `dashboard_genre_label.dfy`: the genre label.

## Model

| member | source | states |
|---|---|---|
| JsObjects.JsObject.constructor | src/components/Dashboard.tsx:57 | `{}` has no keys and no values |
| JsObjects.JsObject.Get | src/components/Dashboard.tsx:59 | reading `obj[k]` gives the stored value when `k` is a key of the object and `undefined` otherwise; the same read happens at `src/components/Dashboard.tsx:74` |
| JsObjects.JsObject.Set | src/components/Dashboard.tsx:60-66 | assigning a key updates its value. A new key is appended to the key order; a key already present keeps its place. Keys stay distinct and match the map's domain |
| JsObjects.JsObject.Values | src/components/Dashboard.tsx:69 | `Object.values` lists the value of each key in key order |
| JsObjects.JsObject.Entries | src/components/Dashboard.tsx:77 | `Object.entries` lists each key with its value in key order |
| Wrappers.Option.GetOr | src/components/Dashboard.tsx:74 | `genreCount[genre] or 0`: the stored count when there is one, otherwise 0. A stored count is at least 1, so it is never falsy |
| Sequences.Take | src/components/Dashboard.tsx:69 | `slice(0, n)` keeps the first `min(n, length)` elements, as a prefix |
| Sequences.Distinct | src/components/Dashboard.tsx:57-68 | the key list of a dictionary filled from a sequence holds exactly the sequence's elements, each once |
| Sequences.DistinctOrder | src/components/Dashboard.tsx:58-69 | that key list is ordered by first occurrence in the sequence |
| DashboardAlbums.AlbumOf | src/components/Dashboard.tsx:60-66 | the stored album copies id, name and images from the track's album, and artists and links from the track itself |
| DashboardAlbums.StoreAlbum | src/components/Dashboard.tsx:59-67 | one step of the album loop takes `albumMap` from the state after `done` to the state after `done + [track]`. It assigns only when the id is still undefined |
| DashboardAlbums.CollectTopAlbums | src/components/Dashboard.tsx:57-69 | the album loop followed by `Object.values(...).slice(0, 5)` returns `TopAlbums(tracks)` |
| DashboardAlbums.TopAlbums | src/components/Dashboard.tsx:69 | the albums shown are the first `min(5, n)` of the `n` collected albums. `TopAlbumsCount`, `TopAlbumsDistinct`, `TopAlbumsOccur`, `TopAlbumsFirstWins` and `TopAlbumsOrder` characterise them |
| DashboardAlbums.AlbumMapKeys | src/components/Dashboard.tsx:57-68 | the dictionary has a key exactly for each album id among the tracks |
| DashboardAlbums.AlbumMapFirst | src/components/Dashboard.tsx:59-66 | each stored album is the album of the first track carrying its id |
| DashboardAlbums.FirstAlbumsIds | src/components/Dashboard.tsx:57-69 | the ids of the collected albums are the distinct album ids, in first-occurrence order |
| DashboardAlbums.TopAlbumsCount | src/components/Dashboard.tsx:57-69 | at most 5 albums are shown, and exactly `min(5, number of distinct album ids)` |
| DashboardAlbums.TopAlbumsDistinct | src/components/Dashboard.tsx:59-60 | no album id is shown twice |
| DashboardAlbums.TopAlbumsOccur | src/components/Dashboard.tsx:59-60 | each album id shown is the album id of some input track |
| DashboardAlbums.TopAlbumsFirstWins | src/components/Dashboard.tsx:59-66 | a shown album equals the album built from the first track with its id (name, images, artists, links) |
| DashboardAlbums.TopAlbumsOrder | src/components/Dashboard.tsx:58-69 | the albums shown appear in strictly increasing order of the first occurrence of their ids |
| DashboardAlbums.LaterTracksKeepAlbums | src/components/Dashboard.tsx:58-68 | appending tracks never changes or reorders the albums collected from earlier tracks |
| DashboardAlbums.RepeatedAlbumsChangeNothing | src/components/Dashboard.tsx:59-69 | tracks whose album ids were all seen before change neither the collected albums nor the five shown |
| DashboardGenres.CountOne | src/components/Dashboard.tsx:74 | one histogram assignment (the current count, or 0 when undefined, plus 1) takes the histogram of `seen` to the histogram of `seen + [genre]` |
| DashboardGenres.CountArtistGenres | src/components/Dashboard.tsx:73-75 | the inner loop over one artist's genres adds all of them to the histogram |
| DashboardGenres.CountGenres | src/components/Dashboard.tsx:71-77 | the histogram loops followed by `Object.entries` return `Tally` of all the artists' genres |
| DashboardGenres.CountMapCounts | src/components/Dashboard.tsx:71-76 | the histogram has a key exactly for each genre that occurs, holding its number of occurrences |
| DashboardGenres.CountsAreTally | src/components/Dashboard.tsx:71-77 | listing the histogram's keys in insertion order together with their counts gives `Tally` |
| DashboardGenres.GenreTallyExact | src/components/Dashboard.tsx:71-77 | the histogram's keys are the genres that occur (genres that never occur have no key), each once and in first-seen order. Each count equals that genre's number of occurrences and is at least 1 |
| DashboardGenres.GenreCountsSum | src/components/Dashboard.tsx:71-76 | the counts add up to the total length of all the genre lists |
| DashboardGenres.Names | src/components/Dashboard.tsx:79 | `map(([genre]) => genre)` keeps the genre of each entry, in order |
| DashboardGenres.Insert | src/components/Dashboard.tsx:78 | inserting an entry adds exactly that entry (length and multiset) |
| DashboardGenres.SortByCount | src/components/Dashboard.tsx:78 | the sort returns a permutation of its input |
| DashboardGenres.SortByCountOrdered | src/components/Dashboard.tsx:78 | the sorted entries have non-increasing counts |
| DashboardGenres.SortByCountStable | src/components/Dashboard.tsx:78 | stability: for input in increasing rank, entries with equal counts stay in input order |
| DashboardGenres.StrictlyRankedUnique | src/components/Dashboard.tsx:78 | two permutations that both respect the strict count-then-rank order are equal |
| DashboardGenres.AnyStableSortAgrees | src/components/Dashboard.tsx:78 | any permutation of the entries ordered by count and, on ties, by input position equals `SortByCount`. So the model agrees with every stable sort by `b[1] - a[1]` |
| DashboardGenres.RankGenres | src/components/Dashboard.tsx:77-80 | the genres kept are the first `min(5, number of entries)` names of the entries sorted by count |
| DashboardGenres.TopGenres | src/components/Dashboard.tsx:71-80 | the genres the card shows are the first `min(5, number of distinct genres)` names of the sorted histogram. `TopGenresCount`, `TopGenresDistinct`, `TopGenresOccur`, `TopGenresOrdered` and `TopGenresLeftOut` characterise them |
| DashboardGenres.SortedGenresExact | src/components/Dashboard.tsx:77-78 | the sorted entries are one per occurring genre, each with its exact count |
| DashboardGenres.SortedGenresCover | src/components/Dashboard.tsx:77-78 | every occurring genre has a sorted entry |
| DashboardGenres.SortedGenresRanked | src/components/Dashboard.tsx:77-78 | sorted entries are ordered by count, then by the genre's first occurrence |
| DashboardGenres.SortedGenresUnique | src/components/Dashboard.tsx:77-79 | no genre has two sorted entries |
| DashboardGenres.TopGenresCount | src/components/Dashboard.tsx:77-80 | at most 5 genres are shown, and exactly `min(5, number of distinct genres)` |
| DashboardGenres.TopGenresDistinct | src/components/Dashboard.tsx:77-80 | the genres shown are pairwise distinct |
| DashboardGenres.TopGenresOccur | src/components/Dashboard.tsx:77-80 | every genre shown is a key of `genreCount`, with a count of at least 1 |
| DashboardGenres.TopGenresOrdered | src/components/Dashboard.tsx:77-80 | the genres shown have non-increasing counts, and genres with equal counts appear in first-seen order |
| DashboardGenres.TopGenresLeftOut | src/components/Dashboard.tsx:77-80 | a genre that occurs but is not shown is left out only when 5 are shown. It has a smaller count than the fifth, or the same count and a later first occurrence |
| DashboardGenreLabel.FindByName | src/components/Dashboard.tsx:368 | `find` returns the first artist whose name matches, or nothing when none matches |
| DashboardGenreLabel.FirstArtistName | src/components/Dashboard.tsx:368 | `track.artists[0]?.name` is `undefined` exactly when the track has no artists and is the first artist's name otherwise |
| DashboardGenreLabel.GenreLabel | src/components/Dashboard.tsx:367-369 | the label is never empty. It is `"-"` when the track has no artists or no top artist has the first artist's name. Otherwise it is the first genre of the first top artist with that name, or `"-"` when that genre is missing or empty |
| DashboardGenreLabel.GenreLabelFound | src/components/Dashboard.tsx:368-369 | a label other than `"-"` is the first genre of the first top artist named like the track's first artist |
| DashboardGenreLabel.GenreLabelIgnoresLaterArtists | src/components/Dashboard.tsx:368 | once a matching artist exists, top artists appended after it do not change the label |

## Left out

- Loading the data is left out: the Spotify fetches at `src/components/Dashboard.tsx:49-54`, the `useState` setters, `useEffect`, navigation, the loading flag, the `try`/`catch` error message and all JSX and styling. The two input lists are parameters instead.
- The model does not cap the inputs at five items. The fetched lists hold at most five, but every property is proved for lists of any length.
- Object keys (album ids, genres) are assumed not to be integer-like and not to be names inherited from `Object.prototype` (`constructor`, `toString`, `__proto__`, ...). For such keys JavaScript orders keys differently, or `albumMap[id]` / `genreCount[genre]` reads an inherited value. The model does not cover these cases.
- JavaScript numbers are modelled as unbounded naturals. The counts never come near 2^53, and `b[1] - a[1]` is then exact.
- `Array.prototype.sort`'s algorithm is not modelled. The model uses a stable insertion sort, and `DashboardGenres.AnyStableSortAgrees` shows that it gives the same result as any stable sort by that comparator.
- `SpotifyAlbum` and `SpotifyArtist` are not declared in `src/types/spotify.ts`. Their fields are those `src/components/Dashboard.tsx` writes (lines 60-66) and reads (lines 73, 368). Fields the aggregation never touches (popularity, followers, ...) are left out.
- `src/services/spotifyApi.ts` is not part of this model. It is made of HTTP calls, `localStorage` access and a mutable token holder.
- `src/components/Callback.tsx`, `src/components/Login.tsx` and `src/App.tsx` are not part of this model. They cover the OAuth 2.0 redirect and token exchange (section 4.1 of RFC 6749), browser storage and routing.
- The genre lookup at `src/components/DashboardSample.tsx:241` is not modelled separately. It is the same expression as `src/components/Dashboard.tsx:368-369` applied to static sample data.
- The judgment, score, vibe and summary pipeline is left out. The repository's description mentions it, but no source file implements it; only the record shape `GenZJudgment` exists (`src/types/spotify.ts:48-54`).
