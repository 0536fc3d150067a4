/**
 * The records the dashboard receives from the Spotify Web API, cut down to
 * the fields the aggregation reads or copies.
 */
module SpotifyTypes {
  import opened Wrappers

  datatype Image = Image(url: string, height: int, width: int)

  datatype ExternalUrls = ExternalUrls(spotify: string)

  /** An artist as a track refers to it. */
  datatype ArtistRef = ArtistRef(id: string, name: string)

  /** The album a track belongs to. */
  datatype AlbumRef = AlbumRef(id: string, name: string, images: seq<Image>)

  /** One entry of the user's top tracks. */
  datatype Track = Track(
    id: string,
    name: string,
    artists: seq<ArtistRef>,
    album: AlbumRef,
    externalUrls: ExternalUrls,
    playedAt: Option<string>)

  /** One entry of the user's top artists: the name and the genre list. */
  datatype Artist = Artist(name: string, genres: seq<string>)

  /** An album card on the dashboard, built from a track. */
  datatype Album = Album(
    id: string,
    name: string,
    images: seq<Image>,
    artists: seq<ArtistRef>,
    externalUrls: ExternalUrls)
}
