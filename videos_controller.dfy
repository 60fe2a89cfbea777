/** The VideosController handlers as operations on the Videos table they update
    in place; each is proved to behave as the VideoStore function of the same name. */
module Controllers {
  import opened Models
  import opened VideoQuery
  import opened VideoStore

  class VideosController {
    /** The Videos table (`_context.Videos`), rows in key order. */
    var videos: seq<Video>

    ghost predicate Valid()
      reads this
    {
      ValidTable(videos)
    }

    constructor (rows: seq<Video>)
      requires ValidTable(rows)
      ensures Valid() && videos == rows
    {
      videos := rows;
    }

    /** GET api/videos: the live rows meeting every supplied argument. */
    function GetVideos(f: VideoFilter): (r: seq<Video>)
      reads this
      ensures forall v :: v in r <==> v in videos && Matches(f, v)
      ensures forall v :: v in r ==> !v.excluido
    {
      GetVideosExactly(videos, f);
      VideoQuery.GetVideos(videos, f)
    }

    /** POST api/videos/fetch: insert what the video service returned. */
    method FetchVideos(fetched: Option<seq<Video>>) returns (r: Response)
      requires Valid()
      modifies this
      ensures Valid()
      ensures Outcome(r, videos) == VideoStore.FetchVideos(old(videos), fetched)
    {
      if fetched.None? || |fetched.value| == 0 {
        return NotFound;
      }
      var batch := fetched.value;
      // AddRange: each entity in turn receives the next key.
      var added := videos;
      var i := 0;
      while i < |batch|
        invariant 0 <= i <= |batch|
        invariant |added| == |videos| + i && added[..|videos|] == videos
        invariant forall j :: |videos| <= j < |added| ==> added[j] == batch[j - |videos|].(id := j + 1)
      {
        added := added + [batch[i].(id := |added| + 1)];
        i := i + 1;
      }
      // SaveChanges: one transaction, refused as a whole if any row lacks a title.
      if exists v :: v in batch && !Storable(v) {
        return StoreRejected;
      }
      assert added == videos + Stamp(batch, |videos| + 1);
      AppendBatchValid(videos, batch);
      videos := added;
      r := Imported(|batch|);
    }

    /** POST api/videos: insert one record. */
    method CreateVideo(video: Video) returns (r: Response)
      requires Valid()
      modifies this
      ensures Valid()
      ensures Outcome(r, videos) == VideoStore.CreateVideo(old(videos), video)
    {
      // Add: the store generates the key.
      var row := video.(id := |videos| + 1);
      // SaveChanges
      if !Storable(row) {
        return StoreRejected;
      }
      videos := videos + [row];
      r := Created(row);
    }

    /** GET api/videos/{id}. */
    method GetVideoById(id: int) returns (r: Response)
      requires Valid()
      ensures r.NotFound? <==> !VideoExists(videos, id)
      ensures r == VideoStore.GetVideoById(videos, id)
    {
      var video := Find(videos, id);
      if video.None? || video.value.excluido {
        return NotFound;
      }
      r := Ok(video.value);
    }

    /** PUT api/videos/{id}. */
    method UpdateVideo(id: int, updated: Video) returns (r: Response)
      requires Valid()
      modifies this
      ensures Valid()
      ensures Outcome(r, videos) == VideoStore.UpdateVideo(old(videos), id, updated)
    {
      if id != updated.id {
        return BadRequest;
      }
      var found := Find(videos, id);
      if found.None? || found.value.excluido {
        return NotFound;
      }
      var video := found.value;
      video := video.(titulo := updated.titulo);
      video := video.(duracao := updated.duracao);
      video := video.(autor := updated.autor);
      video := video.(dataPublicacao := updated.dataPublicacao);
      video := video.(descricao := updated.descricao);
      video := video.(nomeCanal := updated.nomeCanal);
      // SaveChanges
      if !Storable(video) {
        return StoreRejected;
      }
      videos := videos[id - 1 := video];
      r := NoContent;
    }

    /** DELETE api/videos/{id}: mark the row deleted. */
    method DeleteVideo(id: int) returns (r: Response)
      requires Valid()
      modifies this
      ensures Valid()
      ensures Outcome(r, videos) == VideoStore.DeleteVideo(old(videos), id)
    {
      var found := Find(videos, id);
      if found.None? || found.value.excluido {
        return NotFound;
      }
      var video := found.value;
      video := video.(excluido := true);
      // SaveChanges
      videos := videos[id - 1 := video];
      r := NoContent;
    }
  }
}
