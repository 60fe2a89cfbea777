/** Sequences of requests against the catalogue: per key the state goes
    nonexistent -> active -> deleted, and deleted is final. */
module VideoLifecycle {
  import opened Models
  import opened VideoQuery
  import opened VideoStore

  /** One call to a VideosController endpoint. */
  datatype Request =
    | List(filter: VideoFilter)
    | Get(id: int)
    | Create(video: Video)
    | Update(id: int, video: Video)
    | Delete(id: int)
    | Fetch(fetched: Option<seq<Video>>)

  /** Dispatch one request. */
  function Handle(t: Table, req: Request): (o: Outcome)
    requires ValidTable(t)
    ensures ValidTable(o.table)
  {
    match req
    case List(f) => Outcome(Listed(GetVideos(t, f)), t)
    case Get(id) => Outcome(GetVideoById(t, id), t)
    case Create(v) => CreateVideo(t, v)
    case Update(id, v) => UpdateVideo(t, id, v)
    case Delete(id) => DeleteVideo(t, id)
    case Fetch(fetched) => FetchVideos(t, fetched)
  }

  /** The table after serving `reqs` one after the other. */
  function Run(t: Table, reqs: seq<Request>): (r: Table)
    requires ValidTable(t)
    ensures ValidTable(r)
    ensures |t| <= |r|
    decreases |reqs|
  {
    if reqs == [] then t else Run(Handle(t, reqs[0]).table, reqs[1..])
  }

  /** One request keeps every existing row in place, never changes a soft-deleted
      row, and never clears a deleted flag; only a successful Delete of that key
      sets the flag of an existing row. Reads change nothing. */
  lemma HandleFrame(t: Table, req: Request)
    requires ValidTable(t)
    ensures var t1 := Handle(t, req).table;
      && |t| <= |t1|
      && (forall i :: 0 <= i < |t| && t[i].excluido ==> t1[i] == t[i])
      && (forall i :: 0 <= i < |t| && !t[i].excluido && t1[i].excluido ==> req == Delete(i + 1))
    ensures (req.List? || req.Get?) ==> Handle(t, req).table == t
  {
  }

  /** Nothing undeletes: a soft-deleted row stays stored exactly as it is through
      any sequence of requests. */
  lemma {:induction false} DeletedRowsAreFrozen(t: Table, reqs: seq<Request>, i: int)
    requires ValidTable(t)
    requires 0 <= i < |t| && t[i].excluido
    ensures i < |Run(t, reqs)| && Run(t, reqs)[i] == t[i]
    decreases |reqs|
  {
    if reqs != [] {
      HandleFrame(t, reqs[0]);
      DeletedRowsAreFrozen(Handle(t, reqs[0]).table, reqs[1..], i);
    }
  }

  /** Once a key has been deleted, whatever requests follow, get and delete on it
      answer NotFound, an update of it answers NotFound (BadRequest for a
      mismatched payload) and changes nothing, and no listing shows it. */
  lemma {:induction false} DeleteIsTerminal(t: Table, id: int, reqs: seq<Request>, updated: Video, f: VideoFilter)
    requires ValidTable(t)
    requires DeleteVideo(t, id).response == NoContent
    ensures var t2 := Run(DeleteVideo(t, id).table, reqs);
      && GetVideoById(t2, id) == NotFound
      && DeleteVideo(t2, id) == Outcome(NotFound, t2)
      && UpdateVideo(t2, id, updated).table == t2
      && UpdateVideo(t2, id, updated).response == (if id == updated.id then NotFound else BadRequest)
      && (forall v :: v in GetVideos(t2, f) ==> v.id != id)
  {
    var t1 := DeleteVideo(t, id).table;
    DeleteOutcomes(t, id);
    DeletedRowsAreFrozen(t1, reqs, id - 1);
    var t2 := Run(t1, reqs);
    VideoExistsIffActive(t2, id);
    GetVideosNeverListsDeleted(t2, f);
    forall v | v in GetVideos(t2, f) ensures v.id != id {
      var j :| 0 <= j < |t2| && t2[j] == v;
    }
  }
}
