/** What each handler of VideosController does to the Videos table, as functions
    from the table before a request to the response and the table after it. The
    table is the sequence of rows in insertion order; rows are never removed, so
    the auto-increment key of the row at position i is i + 1. */
module VideoStore {
  import opened Models
  import opened VideoQuery

  type Table = seq<Video>

  /** Every row sits under its own key and has a title. */
  predicate ValidTable(t: Table) {
    forall i :: 0 <= i < |t| ==> t[i].id == i + 1 && Storable(t[i])
  }

  /** What a handler answers. */
  datatype Response =
    | Ok(video: Video)              // 200 with the record
    | Listed(videos: seq<Video>)    // 200 with the listing
    | Created(video: Video)         // 201 with the stored record and its location
    | Imported(count: nat)          // 200 "<count> vídeos foram adicionados"
    | NoContent                     // 204
    | BadRequest                    // 400
    | NotFound                      // 404
    | StoreRejected                 // SaveChanges failed: a row without a title

  /** A response together with the table it leaves behind. */
  datatype Outcome = Outcome(response: Response, table: Table)

  /** DbSet.Find: the row stored under key `id`, if any. */
  function Find(t: Table, id: int): (r: Option<Video>)
    requires ValidTable(t)
    ensures r.Some? <==> exists i :: 0 <= i < |t| && t[i].id == id
    ensures r.Some? ==> r.value in t && r.value.id == id
  {
    if 1 <= id <= |t| then Some(t[id - 1]) else None
  }

  /** The handlers' guard `video == null || video.Excluido` fails: the key is
      stored and its row is not soft-deleted. */
  predicate IsActive(t: Table, id: int)
    requires ValidTable(t)
  {
    Find(t, id).Some? && !Find(t, id).value.excluido
  }

  /** VideoExists: some row has key `id` and is not soft-deleted. On a valid
      table this is the handlers' lookup-and-check. */
  function VideoExists(t: Table, id: int): (r: bool)
    ensures ValidTable(t) ==> (r <==> IsActive(t, id))
  {
    exists v :: v in t && v.id == id && !v.excluido
  }

  /** The lookup-and-check the handlers perform agrees with the VideoExists query. */
  lemma VideoExistsIffActive(t: Table, id: int)
    requires ValidTable(t)
    ensures VideoExists(t, id) <==> IsActive(t, id)
  {
  }

  /** GET api/videos/{id}. */
  function GetVideoById(t: Table, id: int): (r: Response)
    requires ValidTable(t)
    ensures r.Ok? || r.NotFound?
    ensures r.NotFound? <==> !VideoExists(t, id)
    ensures r.Ok? ==> r.video in t && r.video.id == id && !r.video.excluido
  {
    VideoExistsIffActive(t, id);
    var found := Find(t, id);
    if found.None? || found.value.excluido then NotFound else Ok(found.value)
  }

  /** POST api/videos: the payload is stored under the next key. */
  function CreateVideo(t: Table, video: Video): (o: Outcome)
    requires ValidTable(t)
    ensures ValidTable(o.table)
    ensures o.response.Created? || o.response.StoreRejected?
  {
    if !Storable(video) then Outcome(StoreRejected, t)
    else
      var row := video.(id := |t| + 1);
      Outcome(Created(row), t + [row])
  }

  /** The six assignments of UpdateVideo: every mutable column takes the payload's
      value; the key and the deleted flag are left alone. */
  function Overwrite(video: Video, updated: Video): (r: Video)
    ensures r == updated.(id := video.id, excluido := video.excluido)
  {
    video.(titulo := updated.titulo, duracao := updated.duracao, autor := updated.autor,
           dataPublicacao := updated.dataPublicacao, descricao := updated.descricao,
           nomeCanal := updated.nomeCanal)
  }

  /** PUT api/videos/{id}. */
  function UpdateVideo(t: Table, id: int, updated: Video): (o: Outcome)
    requires ValidTable(t)
    ensures ValidTable(o.table)
    ensures o.response in {NoContent, BadRequest, NotFound, StoreRejected}
  {
    if id != updated.id then Outcome(BadRequest, t)
    else
      var found := Find(t, id);
      if found.None? || found.value.excluido then Outcome(NotFound, t)
      else
        var row := Overwrite(found.value, updated);
        if !Storable(row) then Outcome(StoreRejected, t)
        else Outcome(NoContent, t[id - 1 := row])
  }

  /** DELETE api/videos/{id}: a soft delete. */
  function DeleteVideo(t: Table, id: int): (o: Outcome)
    requires ValidTable(t)
    ensures ValidTable(o.table)
    ensures o.response in {NoContent, NotFound}
  {
    var found := Find(t, id);
    if found.None? || found.value.excluido then Outcome(NotFound, t)
    else Outcome(NoContent, t[id - 1 := found.value.(excluido := true)])
  }

  /** The keys AddRange gives a batch appended after `firstId - 1`: consecutive,
      in batch order, every other column as fetched. */
  function Stamp(batch: seq<Video>, firstId: int): (r: seq<Video>)
    ensures |r| == |batch|
    ensures forall i :: 0 <= i < |r| ==> r[i] == batch[i].(id := firstId + i)
  {
    if batch == [] then [] else [batch[0].(id := firstId)] + Stamp(batch[1..], firstId + 1)
  }

  /** POST api/videos/fetch, given what the external video service returned
      (`None` for a null list). The batch is saved in one transaction. */
  function FetchVideos(t: Table, fetched: Option<seq<Video>>): (o: Outcome)
    requires ValidTable(t)
    ensures ValidTable(o.table)
    ensures o.response in {NotFound, StoreRejected} || o.response.Imported?
  {
    if fetched.None? || |fetched.value| == 0 then Outcome(NotFound, t)
    else if exists v :: v in fetched.value && !Storable(v) then Outcome(StoreRejected, t)
    else
      AppendBatchValid(t, fetched.value);
      Outcome(Imported(|fetched.value|), t + Stamp(fetched.value, |t| + 1))
  }

  /** Appending a batch of titled rows under the next keys keeps the table valid. */
  lemma AppendBatchValid(t: Table, batch: seq<Video>)
    requires ValidTable(t)
    requires forall v :: v in batch ==> Storable(v)
    ensures ValidTable(t + Stamp(batch, |t| + 1))
  {
    var s := Stamp(batch, |t| + 1);
    forall i | |t| <= i < |t| + |s|
      ensures (t + s)[i].id == i + 1 && Storable((t + s)[i])
    {
      assert (t + s)[i] == s[i - |t|];
      assert batch[i - |t|] in batch;
    }
  }

  // ---------------------------------------------------------------------------
  // What each handler promises

  /** A successful create stores the payload, under a key no row had, after the
      untouched existing rows; reading that key back returns the record unless the
      payload itself was marked deleted. A payload without a title stores nothing. */
  lemma CreateAddsOneRecord(t: Table, video: Video)
    requires ValidTable(t)
    ensures var o := CreateVideo(t, video);
      !Storable(video) ==> o == Outcome(StoreRejected, t)
    ensures var o := CreateVideo(t, video); var id := |t| + 1;
      Storable(video) ==>
        && o.response == Created(video.(id := id))
        && Find(t, id).None?
        && |o.table| == |t| + 1 && o.table[..|t|] == t
        && Find(o.table, id) == Some(video.(id := id))
        && (!video.excluido ==> GetVideoById(o.table, id) == Ok(video.(id := id)))
        && (video.excluido ==> GetVideoById(o.table, id) == NotFound)
  {
  }

  /** Update answers BadRequest exactly on a key mismatch, NotFound exactly when the
      key names no live row, StoreRejected exactly when the new title is missing;
      every failure leaves the table as it was. On success it overwrites the six
      mutable columns of that one row and keeps its key and deleted flag. */
  lemma UpdateOutcomes(t: Table, id: int, updated: Video)
    requires ValidTable(t)
    ensures var o := UpdateVideo(t, id, updated);
      && (o.response == BadRequest <==> id != updated.id)
      && (o.response == NotFound <==> id == updated.id && !VideoExists(t, id))
      && (o.response == StoreRejected <==> id == updated.id && VideoExists(t, id) && updated.titulo.None?)
      && (o.response != NoContent ==> o.table == t)
    ensures var o := UpdateVideo(t, id, updated);
      o.response == NoContent ==>
        && |o.table| == |t| && 1 <= id <= |t|
        && o.table[id - 1].id == id
        && o.table[id - 1].excluido == t[id - 1].excluido == false
        && o.table[id - 1].titulo == updated.titulo
        && o.table[id - 1].duracao == updated.duracao
        && o.table[id - 1].autor == updated.autor
        && o.table[id - 1].dataPublicacao == updated.dataPublicacao
        && o.table[id - 1].descricao == updated.descricao
        && o.table[id - 1].nomeCanal == updated.nomeCanal
        && (forall j :: 0 <= j < |t| && j != id - 1 ==> o.table[j] == t[j])
  {
  }

  /** Repeating a successful update with the same payload succeeds again and
      changes nothing more. */
  lemma UpdateIdempotent(t: Table, id: int, updated: Video)
    requires ValidTable(t)
    requires UpdateVideo(t, id, updated).response == NoContent
    ensures var t1 := UpdateVideo(t, id, updated).table;
      UpdateVideo(t1, id, updated) == Outcome(NoContent, t1)
  {
  }

  /** Delete answers NotFound exactly when the key names no live row, and then
      changes nothing; otherwise it sets the deleted flag of that one row and
      touches no other column and no other row. */
  lemma DeleteOutcomes(t: Table, id: int)
    requires ValidTable(t)
    ensures var o := DeleteVideo(t, id);
      && (o.response == NotFound <==> !VideoExists(t, id))
      && (o.response == NotFound ==> o.table == t)
    ensures var o := DeleteVideo(t, id);
      o.response == NoContent ==>
        && |o.table| == |t| && 1 <= id <= |t| && !t[id - 1].excluido
        && o.table[id - 1] == t[id - 1].(excluido := true)
        && (forall j :: 0 <= j < |t| && j != id - 1 ==> o.table[j] == t[j])
  {
  }

  /** After a successful delete the key is gone for every handler: get, update and
      delete all answer NotFound (or BadRequest for a mismatched payload), and no
      listing contains a row with that key, while the row stays stored. */
  lemma DeleteIsFinal(t: Table, id: int, updated: Video, f: VideoFilter)
    requires ValidTable(t)
    requires DeleteVideo(t, id).response == NoContent
    ensures var t1 := DeleteVideo(t, id).table;
      && Find(t1, id).Some? && Find(t1, id).value.excluido
      && GetVideoById(t1, id) == NotFound
      && UpdateVideo(t1, id, updated).table == t1
      && UpdateVideo(t1, id, updated).response == (if id == updated.id then NotFound else BadRequest)
      && DeleteVideo(t1, id) == Outcome(NotFound, t1)
      && (forall v :: v in GetVideos(t1, f) ==> v.id != id)
  {
    var t1 := DeleteVideo(t, id).table;
    GetVideosNeverListsDeleted(t1, f);
    forall v | v in GetVideos(t1, f) ensures v.id != id {
      var j :| 0 <= j < |t1| && t1[j] == v;
    }
  }

  /** Import answers NotFound and stores nothing for a null or empty list, and
      StoreRejected, storing nothing, when any fetched row lacks a title.
      Otherwise it reports the size N of the list and appends exactly N rows under
      N fresh consecutive keys, each with the fetched columns, leaving every
      existing row untouched. */
  lemma FetchOutcomes(t: Table, fetched: Option<seq<Video>>)
    requires ValidTable(t)
    ensures var o := FetchVideos(t, fetched);
      (fetched.None? || fetched.value == []) ==> o == Outcome(NotFound, t)
    ensures var o := FetchVideos(t, fetched);
      (fetched.Some? && fetched.value != [] && exists v :: v in fetched.value && !Storable(v))
        ==> o == Outcome(StoreRejected, t)
    ensures var o := FetchVideos(t, fetched);
      o.response.Imported? <==>
        fetched.Some? && fetched.value != [] && forall v :: v in fetched.value ==> Storable(v)
    ensures var o := FetchVideos(t, fetched);
      o.response.Imported? ==>
        && fetched.Some? && o.response == Imported(|fetched.value|) && |fetched.value| > 0
        && |o.table| == |t| + |fetched.value|
        && o.table[..|t|] == t
        && (forall k :: |t| < k <= |t| + |fetched.value| ==>
              Find(t, k).None? && Find(o.table, k) == Some(fetched.value[k - |t| - 1].(id := k)))
  {
  }

  /** Importing a one-element list stores exactly what creating that record does. */
  lemma FetchOneIsCreate(t: Table, video: Video)
    requires ValidTable(t)
    ensures FetchVideos(t, Some([video])).table == CreateVideo(t, video).table
    ensures FetchVideos(t, Some([video])).response.Imported? <==> CreateVideo(t, video).response.Created?
  {
  }

  /** The import test: the service returns two titled videos that already carry
      keys 1 and 2; into an empty table they are stored as they are and the
      handler reports 2. */
  lemma FetchTwoIntoEmptyTable(v1: Video, v2: Video)
    requires v1.id == 1 && v2.id == 2 && Storable(v1) && Storable(v2)
    ensures FetchVideos([], Some([v1, v2])) == Outcome(Imported(2), [v1, v2])
  {
  }
}
