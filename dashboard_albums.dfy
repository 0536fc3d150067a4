/**
 * The top-albums card of the dashboard: one album per distinct album id among
 * the top tracks, built from the first track that carries the id, in the
 * order in which the ids first occur, at most five of them.
 */
module DashboardAlbums {
  import opened SpotifyTypes
  import opened Sequences
  import opened JsObjects

  /** How many albums the card shows (`slice(0, 5)`). */
  const AlbumLimit: nat := 5

  /** The album record the dashboard stores for a track. */
  function AlbumOf(t: Track): (a: Album)
    ensures a.id == t.album.id && a.name == t.album.name && a.images == t.album.images
    ensures a.artists == t.artists && a.externalUrls == t.externalUrls
  {
    Album(t.album.id, t.album.name, t.album.images, t.artists, t.externalUrls)
  }

  /** The album id of every track, in track order. */
  function AlbumIds(tracks: seq<Track>): (ids: seq<string>)
    ensures |ids| == |tracks|
    ensures forall i :: 0 <= i < |tracks| ==> ids[i] == tracks[i].album.id
  {
    if tracks == [] then [] else [tracks[0].album.id] + AlbumIds(tracks[1..])
  }

  /** The ids of a list of albums. */
  function Ids(albums: seq<Album>): (ids: seq<string>)
    ensures |ids| == |albums|
    ensures forall p :: 0 <= p < |albums| ==> ids[p] == albums[p].id
  {
    if albums == [] then [] else [albums[0].id] + Ids(albums[1..])
  }

  /** The number of distinct album ids among the tracks. */
  function DistinctAlbumCount(tracks: seq<Track>): nat
  {
    |set t | t in tracks :: t.album.id|
  }

  /**
   * Reference definition of `Object.values(albumMap)`: for each distinct album
   * id, in the order of first occurrence, the album of the first track that
   * carries it.
   */
  function FirstAlbums(tracks: seq<Track>): (r: seq<Album>)
  {
    var ids := AlbumIds(tracks);
    AlbumsFor(tracks, Distinct(ids))
  }

  /** For each id of `ks`, the album of the first track carrying it. */
  function AlbumsFor(tracks: seq<Track>, ks: seq<string>): (r: seq<Album>)
    requires forall p :: 0 <= p < |ks| ==> ks[p] in AlbumIds(tracks)
    ensures |r| == |ks|
    ensures forall p :: 0 <= p < |ks| ==> r[p] == AlbumOf(tracks[FirstIndex(AlbumIds(tracks), ks[p])])
  {
    if ks == [] then []
    else [AlbumOf(tracks[FirstIndex(AlbumIds(tracks), ks[0])])] + AlbumsFor(tracks, ks[1..])
  }

  /** `Object.values(albumMap).slice(0, 5)` */
  function TopAlbums(tracks: seq<Track>): (top: seq<Album>)
    ensures |top| == Min(AlbumLimit, |FirstAlbums(tracks)|)
    ensures top == FirstAlbums(tracks)[..|top|]
  {
    Take(FirstAlbums(tracks), AlbumLimit)
  }

  lemma AlbumIdsAppend(a: seq<Track>, b: seq<Track>)
    ensures AlbumIds(a + b) == AlbumIds(a) + AlbumIds(b)
  {
  }

  /** What the album loop leaves behind is `FirstAlbums(tracks)`. */
  lemma StoredAlbumsAreFirstAlbums(tracks: seq<Track>, keys: seq<string>, values: map<string, Album>)
    requires keys == Distinct(AlbumIds(tracks))
    requires forall k :: k in values <==> k in keys
    requires values == AlbumMap(tracks)
    ensures Project(keys, values) == FirstAlbums(tracks)
  {
    AlbumMapFirst(tracks);
  }

  /** The ids of `FirstAlbums(tracks)` are the distinct album ids in order of first occurrence. */
  lemma FirstAlbumsIds(tracks: seq<Track>)
    ensures Ids(FirstAlbums(tracks)) == Distinct(AlbumIds(tracks))
  {
    var ids := AlbumIds(tracks);
    var d := Distinct(ids);
    forall p | 0 <= p < |d|
      ensures FirstAlbums(tracks)[p].id == d[p]
    {
      assert ids[FirstIndex(ids, d[p])] == d[p];
    }
  }

  lemma AlbumIdSet(tracks: seq<Track>)
    ensures (set t | t in tracks :: t.album.id) == (set x | x in AlbumIds(tracks))
  {
    var ids := AlbumIds(tracks);
    forall x | x in ids
      ensures x in (set t | t in tracks :: t.album.id)
    {
      var i := FirstIndex(ids, x);
      assert tracks[i] in tracks;
    }
  }

  /** At most five albums, and exactly as many as there are distinct album ids when there are fewer. */
  lemma TopAlbumsCount(tracks: seq<Track>)
    ensures |TopAlbums(tracks)| <= AlbumLimit
    ensures |TopAlbums(tracks)| == Min(AlbumLimit, DistinctAlbumCount(tracks))
  {
    FirstAlbumsIds(tracks);
    DistinctCard(AlbumIds(tracks));
    AlbumIdSet(tracks);
  }

  /** No album id is shown twice. */
  lemma TopAlbumsDistinct(tracks: seq<Track>)
    ensures NoDuplicates(Ids(TopAlbums(tracks)))
  {
    var all, top := FirstAlbums(tracks), TopAlbums(tracks);
    var d, ids := Distinct(AlbumIds(tracks)), Ids(top);
    FirstAlbumsIds(tracks);
    forall p | 0 <= p < |top|
      ensures ids[p] == d[p]
    {
      assert top[p] == all[p];
      assert Ids(all)[p] == d[p];
    }
  }

  /** Every album id shown is the album id of some top track. */
  lemma TopAlbumsOccur(tracks: seq<Track>)
    ensures forall p :: 0 <= p < |TopAlbums(tracks)| ==>
      exists i :: 0 <= i < |tracks| && tracks[i].album.id == TopAlbums(tracks)[p].id
  {
    var all, top := FirstAlbums(tracks), TopAlbums(tracks);
    var ids := AlbumIds(tracks);
    FirstAlbumsIds(tracks);
    forall p | 0 <= p < |top|
      ensures exists i :: 0 <= i < |tracks| && tracks[i].album.id == top[p].id
    {
      assert top[p] == all[p];
      assert Ids(all)[p] == top[p].id;
      var i := FirstIndex(ids, top[p].id);
      assert tracks[i].album.id == top[p].id;
    }
  }

  /**
   * First occurrence wins: each shown album is built from the first track that
   * carries its id (name, images, artists and links all come from it).
   */
  lemma TopAlbumsFirstWins(tracks: seq<Track>)
    ensures forall p, i ::
      (&& 0 <= p < |TopAlbums(tracks)| && 0 <= i < |tracks|
       && tracks[i].album.id == TopAlbums(tracks)[p].id
       && (forall j :: 0 <= j < i ==> tracks[j].album.id != TopAlbums(tracks)[p].id))
      ==> TopAlbums(tracks)[p] == AlbumOf(tracks[i])
  {
    var all, top := FirstAlbums(tracks), TopAlbums(tracks);
    var ids := AlbumIds(tracks);
    FirstAlbumsIds(tracks);
    forall p, i | 0 <= p < |top| && 0 <= i < |tracks| && tracks[i].album.id == top[p].id &&
      (forall j :: 0 <= j < i ==> tracks[j].album.id != top[p].id)
      ensures top[p] == AlbumOf(tracks[i])
    {
      assert top[p] == all[p];
      assert Ids(all)[p] == top[p].id;
      FirstIndexAt(ids, i);
    }
  }

  /** Albums are shown in the order in which their ids first occur among the tracks. */
  lemma TopAlbumsOrder(tracks: seq<Track>)
    ensures forall p :: 0 <= p < |TopAlbums(tracks)| ==> TopAlbums(tracks)[p].id in AlbumIds(tracks)
    ensures forall p, q :: 0 <= p < q < |TopAlbums(tracks)| ==>
      FirstIndex(AlbumIds(tracks), TopAlbums(tracks)[p].id) < FirstIndex(AlbumIds(tracks), TopAlbums(tracks)[q].id)
  {
    var all, top := FirstAlbums(tracks), TopAlbums(tracks);
    var ids, d := AlbumIds(tracks), Distinct(AlbumIds(tracks));
    FirstAlbumsIds(tracks);
    DistinctOrder(ids);
    forall p | 0 <= p < |top|
      ensures top[p].id == d[p] && d[p] in ids
    {
      assert top[p] == all[p] && Ids(all)[p] == top[p].id;
    }
  }

  /** Tracks appended after others never disturb the albums already collected. */
  lemma LaterTracksKeepAlbums(tracks: seq<Track>, later: seq<Track>)
    ensures FirstAlbums(tracks) <= FirstAlbums(tracks + later)
  {
    var ids, more := AlbumIds(tracks), AlbumIds(later);
    AlbumIdsAppend(tracks, later);
    DistinctAppend(ids, more);
    var d, d' := Distinct(ids), Distinct(ids + more);
    var before, after := FirstAlbums(tracks), FirstAlbums(tracks + later);
    forall p | 0 <= p < |d|
      ensures before[p] == after[p]
    {
      assert d'[p] == d[p];
      var k := FirstIndex(ids, d[p]);
      FirstIndexAppend(ids, more, d[p]);
      assert (tracks + later)[k] == tracks[k];
    }
  }

  /** Tracks whose album ids were all seen before change nothing. */
  lemma RepeatedAlbumsChangeNothing(tracks: seq<Track>, later: seq<Track>)
    requires forall i :: 0 <= i < |later| ==> later[i].album.id in AlbumIds(tracks)
    ensures FirstAlbums(tracks + later) == FirstAlbums(tracks)
    ensures TopAlbums(tracks + later) == TopAlbums(tracks)
  {
    var ids, more := AlbumIds(tracks), AlbumIds(later);
    AlbumIdsAppend(tracks, later);
    DistinctAbsorbs(ids, more);
    LaterTracksKeepAlbums(tracks, later);
    assert |Distinct(ids + more)| == |Distinct(ids)|;
  }

  /**
   * Reference definition of the `albumMap` dictionary after the given tracks:
   * a track adds its album only when its album id is not yet a key.
   */
  function AlbumMap(tracks: seq<Track>): (m: map<string, Album>)
  {
    if tracks == [] then map[]
    else
      var m := AlbumMap(tracks[..|tracks| - 1]);
      var t := tracks[|tracks| - 1];
      if t.album.id in m then m else m[t.album.id := AlbumOf(t)]
  }

  /** The keys of `AlbumMap` are exactly the album ids of the tracks. */
  lemma {:induction false} AlbumMapKeys(tracks: seq<Track>)
    ensures forall k :: k in AlbumMap(tracks) <==> k in AlbumIds(tracks)
  {
    if tracks != [] {
      var front, t := tracks[..|tracks| - 1], tracks[|tracks| - 1];
      assert tracks == front + [t];
      AlbumMapKeys(front);
      AlbumIdsAppend(front, [t]);
    }
  }

  /** Each key of `AlbumMap` holds the album of the first track carrying that id. */
  lemma {:induction false} AlbumMapAt(tracks: seq<Track>, k: string)
    requires k in AlbumMap(tracks)
    ensures k in AlbumIds(tracks)
    ensures AlbumMap(tracks)[k] == AlbumOf(tracks[FirstIndex(AlbumIds(tracks), k)])
  {
    var front, t := tracks[..|tracks| - 1], tracks[|tracks| - 1];
    assert tracks == front + [t];
    AlbumIdsAppend(front, [t]);
    var ids, all := AlbumIds(front), AlbumIds(tracks);
    assert all == ids + [t.album.id];
    if k in AlbumMap(front) {
      AlbumMapAt(front, k);
      FirstIndexAppend(ids, [t.album.id], k);
      var p := FirstIndex(ids, k);
      assert FirstIndex(all, k) == p;
      assert tracks[p] == front[p];
      assert AlbumMap(tracks)[k] == AlbumMap(front)[k];
    } else {
      AlbumMapKeys(front);
      assert all[|front|] == k;
      FirstIndexAt(all, |front|);
    }
  }

  lemma AlbumMapFirst(tracks: seq<Track>)
    ensures forall k :: k in AlbumMap(tracks) ==>
      k in AlbumIds(tracks) && AlbumMap(tracks)[k] == AlbumOf(tracks[FirstIndex(AlbumIds(tracks), k)])
  {
    forall k | k in AlbumMap(tracks)
      ensures k in AlbumIds(tracks) && AlbumMap(tracks)[k] == AlbumOf(tracks[FirstIndex(AlbumIds(tracks), k)])
    {
      AlbumMapAt(tracks, k);
    }
  }

  /** `albumMap` as it stands after the tracks `done`. */
  ghost predicate Stored(albumMap: JsObject<Album>, done: seq<Track>)
    reads albumMap
  {
    && albumMap.Valid()
    && albumMap.keys == Distinct(AlbumIds(done))
    && albumMap.values == AlbumMap(done)
  }

  /** The body of the album loop: `albumMap[id]` is assigned only when it is still `undefined`. */
  method StoreAlbum(albumMap: JsObject<Album>, ghost done: seq<Track>, track: Track)
    requires Stored(albumMap, done)
    modifies albumMap
    ensures Stored(albumMap, done + [track])
  {
    AlbumIdsAppend(done, [track]);
    DistinctSnoc(AlbumIds(done), track.album.id);
    assert (done + [track])[..|done|] == done;
    if albumMap.Get(track.album.id).None? {
      albumMap.Set(track.album.id, AlbumOf(track));
    }
  }

  /** The album loop over the top tracks, followed by `Object.values(albumMap).slice(0, 5)`. */
  method CollectTopAlbums(tracks: seq<Track>) returns (topAlbums: seq<Album>)
    ensures topAlbums == TopAlbums(tracks)
  {
    var albumMap := new JsObject<Album>();
    var i := 0;
    while i < |tracks|
      invariant 0 <= i <= |tracks|
      invariant Stored(albumMap, tracks[..i])
    {
      StoreAlbum(albumMap, tracks[..i], tracks[i]);
      assert tracks[..i] + [tracks[i]] == tracks[..i + 1];
      i := i + 1;
    }
    assert tracks[..|tracks|] == tracks;
    StoredAlbumsAreFirstAlbums(tracks, albumMap.keys, albumMap.values);
    var albums := albumMap.Values();
    topAlbums := Take(albums, AlbumLimit);
  }
}
