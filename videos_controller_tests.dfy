/** The scenarios of the controller's unit tests, each set up on a fresh
    controller and proved for every record the test could have used. */
module ControllerTests {
  import opened Models
  import opened VideoQuery
  import opened VideoStore
  import opened Controllers

  /** An empty table lists nothing. */
  method ListEmptyTable() returns (listed: seq<Video>)
    ensures listed == []
  {
    var c := new VideosController([]);
    listed := c.GetVideos(NoFilter);
  }

  /** A created record is stored under a new key, and reading that key returns
      it with the title it was created with. */
  method CreateThenGet(rows: seq<Video>, video: Video) returns (created: Response, read: Response)
    requires ValidTable(rows) && Storable(video) && !video.excluido
    ensures created.Created? && created.video.titulo == video.titulo
    ensures created.video.id !in set v | v in rows :: v.id
    ensures read == Ok(created.video) && read.video == video.(id := created.video.id)
  {
    var c := new VideosController(rows);
    created := c.CreateVideo(video);
    read := c.GetVideoById(created.video.id);
  }

  /** Reading a key that was never stored answers NotFound. */
  method GetMissing() returns (read: Response)
    ensures read == NotFound
  {
    var c := new VideosController([]);
    read := c.GetVideoById(999);
  }

  /** Updating a stored record with a payload carrying its key answers NoContent
      and the stored row then has the new title and duration. */
  method CreateThenUpdate(video: Video, updated: Video) returns (result: Response, stored: Video)
    requires Storable(video) && !video.excluido && Storable(updated) && updated.id == 1
    ensures result == NoContent
    ensures stored.titulo == updated.titulo && stored.duracao == updated.duracao
    ensures stored.id == 1 && !stored.excluido
  {
    var c := new VideosController([]);
    var created := c.CreateVideo(video);
    result := c.UpdateVideo(created.video.id, updated);
    stored := c.videos[0];
  }

  /** Deleting a stored record answers NoContent, keeps the row with its deleted
      flag set, and reading it then answers NotFound. */
  method CreateThenDelete(video: Video) returns (result: Response, stored: Video, read: Response)
    requires Storable(video) && !video.excluido
    ensures result == NoContent
    ensures stored == video.(id := 1, excluido := true)
    ensures read == NotFound
  {
    var c := new VideosController([]);
    var created := c.CreateVideo(video);
    result := c.DeleteVideo(created.video.id);
    stored := c.videos[0];
    read := c.GetVideoById(created.video.id);
  }

  /** Importing the two records the service returns into an empty table reports
      2 and leaves two rows. */
  method FetchTwo(v1: Video, v2: Video) returns (result: Response, count: nat)
    requires Storable(v1) && Storable(v2)
    ensures result == Imported(2) && count == 2
  {
    var c := new VideosController([]);
    result := c.FetchVideos(Some([v1, v2]));
    count := |c.videos|;
  }

  /** Of three stored videos titled "A", "B" and "C", the title filter "B" lists
      exactly the "B" record. */
  method ListByTitle(now: int, day: int) returns (listed: seq<Video>)
    ensures |listed| == 1 && listed[0].titulo == Some("B")
  {
    var rows := ThreeVideos(now, day);
    var c := new VideosController(rows);
    listed := c.GetVideos(VideoFilter(Some("B"), None, None, None, None));
    TitleFilterScenario(now, day);
  }
}
