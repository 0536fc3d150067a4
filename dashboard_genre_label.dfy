/**
 * The genre line of a top-track card: the first genre of the first top
 * artist whose name equals the name of the track's first artist, or "-".
 */
module DashboardGenreLabel {
  import opened SpotifyTypes
  import opened Wrappers

  /** What the card shows when no genre is found. */
  const NoGenre: string := "-"

  /** `track.artists[0]?.name`, with `None` for `undefined`. */
  function FirstArtistName(track: Track): (name: Option<string>)
    ensures name.None? <==> |track.artists| == 0
    ensures name.Some? ==> name.value == track.artists[0].name
  {
    if |track.artists| == 0 then None else Some(track.artists[0].name)
  }

  /** `a.name === name`: an artist's name is a string, so it never equals `undefined`. */
  predicate NameIs(a: Artist, name: Option<string>)
  {
    name == Some(a.name)
  }

  /** Artist `i` is the first of `artists` whose name is `name`. */
  predicate IsFirstNamed(artists: seq<Artist>, name: string, i: int)
  {
    && 0 <= i < |artists|
    && artists[i].name == name
    && forall j :: 0 <= j < i ==> artists[j].name != name
  }

  /** `artists.find((a) => a.name === name)`, giving the index of the artist found. */
  function FindByName(artists: seq<Artist>, name: Option<string>): (r: Option<nat>)
    ensures r.Some? ==> r.value < |artists| && NameIs(artists[r.value], name)
    ensures r.Some? ==> forall j :: 0 <= j < r.value ==> !NameIs(artists[j], name)
    ensures r.None? ==> forall j :: 0 <= j < |artists| ==> !NameIs(artists[j], name)
  {
    if artists == [] then None
    else if NameIs(artists[0], name) then Some(0)
    else
      match FindByName(artists[1..], name)
      case None => None
      case Some(i) => Some(i + 1)
  }

  /** `find(...)?.genres[0] || "-"`: `undefined` and the empty string are falsy. */
  function GenreLabel(track: Track, topArtists: seq<Artist>): (shown: string)
    ensures shown != ""
    ensures |track.artists| == 0 ==> shown == NoGenre
    ensures |track.artists| > 0 && (forall i :: 0 <= i < |topArtists| ==> topArtists[i].name != track.artists[0].name) ==>
      shown == NoGenre
    ensures forall i :: |track.artists| > 0 && IsFirstNamed(topArtists, track.artists[0].name, i) ==>
      shown == if |topArtists[i].genres| > 0 && topArtists[i].genres[0] != "" then topArtists[i].genres[0] else NoGenre
  {
    match FindByName(topArtists, FirstArtistName(track))
    case None => NoGenre
    case Some(i) =>
      var genres := topArtists[i].genres;
      if |genres| > 0 && genres[0] != "" then genres[0] else NoGenre
  }

  /**
   * A label other than "-" is the first genre of the first top artist named
   * like the track's first artist.
   */
  lemma GenreLabelFound(track: Track, topArtists: seq<Artist>)
    requires GenreLabel(track, topArtists) != NoGenre
    ensures |track.artists| > 0
    ensures exists i ::
      && IsFirstNamed(topArtists, track.artists[0].name, i)
      && |topArtists[i].genres| > 0
      && GenreLabel(track, topArtists) == topArtists[i].genres[0]
  {
    var r := FindByName(topArtists, FirstArtistName(track));
    assert r.Some?;
    assert IsFirstNamed(topArtists, track.artists[0].name, r.value);
  }

  /** Top artists listed after the first one named like the track's first artist do not matter. */
  lemma GenreLabelIgnoresLaterArtists(track: Track, topArtists: seq<Artist>, later: seq<Artist>)
    requires |track.artists| > 0
    requires exists i :: 0 <= i < |topArtists| && topArtists[i].name == track.artists[0].name
    ensures GenreLabel(track, topArtists + later) == GenreLabel(track, topArtists)
  {
    var name := track.artists[0].name;
    var i := FindByName(topArtists, Some(name));
    assert i.Some?;
    assert IsFirstNamed(topArtists, name, i.value);
    assert IsFirstNamed(topArtists + later, name, i.value) by {
      assert forall j :: 0 <= j <= i.value ==> (topArtists + later)[j] == topArtists[j];
    }
  }
}
