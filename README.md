# Video catalogue: a Dafny model of VideosController

This project models the video catalogue served by `VideosController` in
RDManipulacaoAPI. The catalogue is one table of video records, each with a key,
title, duration, author, publication date, description, channel name and a
soft-delete flag (`Excluido`). The controller offers six endpoints over it:

- a filtered listing (`GetVideos`);
- get, create, update and soft delete of one record;
- a bulk import of what an external video service returns (`FetchVideos`).

Files and modules:

- `models.dfy` (`Models`): the `Video` record. Nullable strings are `Option<string>`. The publication date is an integer timestamp. `Storable` is the schema's NOT NULL constraint on the title.
- `strings.dfy` (`Strings`): ordinal, case-sensitive `string.Contains`, proved equal to "occurs at some position".
- `video_query.dfy` (`VideoQuery`): the listing. It is a chain of `Where` clauses: "not deleted" first, then one clause per supplied argument. It is proved equal to one pass with the conjunction of the clauses, and then equal to a reference predicate `Matches` written argument by argument.
- `video_store.dfy` (`VideoStore`): each handler as a function from the table before a request to the response and the table after it. Lemmas give each handler's error cases and its frame (what it changes and what it leaves alone).
- `video_lifecycle.dfy` (`VideoLifecycle`): any sequence of requests. The per-key lifecycle goes nonexistent, then active, then deleted. Deleted is final: a deleted row never changes again.
- `videos_controller.dfy` (`Controllers`): the class `VideosController`. It holds the table as a field (`_context.Videos`), and its methods change that field in place, step by step as the handlers do. Each method is proved to give the same response and new table as the `VideoStore` function of the same name.
- `videos_controller_tests.dfy` (`ControllerTests`): the scenarios of `VideosControllerTests.cs`, each set up on a fresh controller and proved for every record the test could have used.

The table is a sequence of rows in insertion order. The application never removes a row physically. With SQLite's AUTOINCREMENT, the row at position `i` therefore has key `i + 1`, and a key is never reused. Responses are `Ok`, `Listed`, `Created`, `Imported(count)`, `NoContent`, `BadRequest`, `NotFound`, and `StoreRejected`. `StoreRejected` is a `SaveChanges` that fails because a row has no title.

Two consequences of the source worth stating:

- The title's maximum length of 200 is declared (`RDManipulacaoAPI/Data/AppDbContext.cs:19-21`), but the store is SQLite (`RDManipulacaoAPI/Migrations/20250221205900_InitialCreate.cs:18-26`), which does not enforce declared text lengths, and the controller checks no length. So the model rejects only a missing title (the column is NOT NULL); a long title is stored.
- A record created with `Excluido = true` is stored as given. It is then invisible to get, update, delete and the listing. The controller copies the payload without looking at the flag (`RDManipulacaoAPI/Controllers/VideosController.cs:94`).

## Model

| member | source | states |
|---|---|---|
| `Strings.ContainsIffOccurs` | RDManipulacaoAPI/Controllers/VideosController.cs:43 | The substring test holds exactly when the needle occurs at some position of the column value. |
| `Strings.ContainsOneChar` | RDManipulacaoAPI/Controllers/VideosController.cs:43 | The substring test is ordinal: a one-character title contains a one-character needle only when the characters are equal. |
| `VideoQuery.BuildQuery` | RDManipulacaoAPI/Controllers/VideosController.cs:40-55 | The query always starts with "not deleted". A clause is added for each argument that is not null or empty. The query has only the base clause exactly when no argument is supplied. |
| `VideoQuery.IsNullOrEmpty` | RDManipulacaoAPI/Controllers/VideosController.cs:42-54 | The guard `string.IsNullOrEmpty` that decides whether an argument adds a clause: the argument is null or the empty string. |
| `VideoQuery.Where` | RDManipulacaoAPI/Controllers/VideosController.cs:40-55 | One `query.Where(...)` step keeps each row satisfying the clause as often as it occurs and drops every other row. |
| `VideoQuery.Chain` | RDManipulacaoAPI/Controllers/VideosController.cs:40-55 | Applying the clauses one `Where` after another keeps exactly the rows satisfying all of them, each as often as the table holds it. |
| `VideoQuery.GetVideos` | RDManipulacaoAPI/Controllers/VideosController.cs:40-57 | The listing is the built query run as a chain over the table; every listed row is a stored row that is not soft-deleted. |
| `VideoQuery.WhereAll` | RDManipulacaoAPI/Controllers/VideosController.cs:40-57 | Each row that satisfies every clause is kept as often as the table holds it. Every other row is dropped. |
| `VideoQuery.ChainIsConjunction` | RDManipulacaoAPI/Controllers/VideosController.cs:40-57 | Narrowing the query one `Where` at a time gives the same rows, in the same order, as one filter by all clauses together. |
| `VideoQuery.QueryMeansMatches` | RDManipulacaoAPI/Controllers/VideosController.cs:40-55 | The built clauses hold exactly when the record is not deleted and meets each condition. Each non-empty title, duration and author must be a substring of its column. A supplied date must be strictly earlier than the publication date. A non-empty `q` must occur in the title, the description or the channel name. A null column matches nothing. |
| `VideoQuery.GetVideosExactly` | RDManipulacaoAPI/Controllers/VideosController.cs:40-57 | A row is listed exactly when it is in the table and meets those conditions, as many times as it is stored. |
| `VideoQuery.GetVideosNeverListsDeleted` | RDManipulacaoAPI/Controllers/VideosController.cs:40 | Whatever the arguments, no soft-deleted row is listed. Every listed row is a stored row, and the listing is never longer than the table. |
| `VideoQuery.NoFilterListsActive` | RDManipulacaoAPI/Controllers/VideosController.cs:40-57 | With no argument, the listing is every row that is not deleted, in table order. An empty table lists nothing. |
| `VideoQuery.TitleFilterScenario` | RDManipulacaoAPI.NUnitTests/VideosControllerTests.cs:223-238 | With rows titled "A", "B" and "C", the title filter "B" lists exactly the "B" row. |
| `VideoStore.Find` | RDManipulacaoAPI/Controllers/VideosController.cs:108 | The lookup finds a row exactly when some stored row has the key. A row it returns is stored and carries that key. |
| `VideoStore.VideoExists` | RDManipulacaoAPI/Controllers/VideosController.cs:179-182 | The `Any` query holds exactly when some stored row has the key and is not soft-deleted. On a valid table that is the same as the handlers' guard: the lookup finds the key and the row is not `Excluido`. |
| `VideoStore.VideoExistsIffActive` | RDManipulacaoAPI/Controllers/VideosController.cs:179-182 | The `VideoExists` query (some row has the key and is not deleted) agrees with the handlers' guard "found and not `Excluido`". |
| `VideoStore.GetVideoById` | RDManipulacaoAPI/Controllers/VideosController.cs:106-113 | The answer is NotFound exactly when no live row has the key. Otherwise it is the stored row with that key, which is not deleted. |
| `VideoStore.CreateVideo` | RDManipulacaoAPI/Controllers/VideosController.cs:92-98 | Creating keeps the table valid: every row sits under its own key and has a title. The answer is Created or StoreRejected. |
| `VideoStore.CreateAddsOneRecord` | RDManipulacaoAPI/Controllers/VideosController.cs:94-97 | A titled payload is stored under a key no row had. It keeps the payload's other fields and follows the untouched existing rows. Reading the key returns the record, or NotFound if the payload was marked deleted. A payload with no title stores nothing. |
| `VideoStore.UpdateVideo` | RDManipulacaoAPI/Controllers/VideosController.cs:123-152 | Updating keeps the table valid. The answer is NoContent, BadRequest, NotFound or StoreRejected. |
| `VideoStore.Overwrite` | RDManipulacaoAPI/Controllers/VideosController.cs:132-137 | The six assignments leave a row equal to the payload except for the key and the deleted flag, which keep the stored row's values: every other column is overwritten. |
| `VideoStore.UpdateOutcomes` | RDManipulacaoAPI/Controllers/VideosController.cs:125-137 | BadRequest exactly when the path key differs from the payload key. NotFound exactly when the key names no live row. StoreRejected exactly when the new title is null. Every failure leaves the table unchanged. On success the six mutable columns take the payload's values, the key and the deleted flag stay, and every other row is unchanged. |
| `VideoStore.UpdateIdempotent` | RDManipulacaoAPI/Controllers/VideosController.cs:132-137 | Repeating a successful update with the same payload succeeds again and changes nothing. |
| `VideoStore.DeleteVideo` | RDManipulacaoAPI/Controllers/VideosController.cs:161-172 | Deleting keeps the table valid. The answer is NoContent or NotFound. |
| `VideoStore.DeleteOutcomes` | RDManipulacaoAPI/Controllers/VideosController.cs:163-171 | NotFound exactly when the key names no live row, and then nothing changes. Otherwise only that row's deleted flag is set, and no other column or row changes. |
| `VideoStore.DeleteIsFinal` | RDManipulacaoAPI/Controllers/VideosController.cs:163-171 | After a successful delete the row is still stored, now flagged. Get and delete answer NotFound. Update answers NotFound (BadRequest for a mismatched payload) and changes nothing. No listing shows the key. |
| `VideoStore.Stamp` | RDManipulacaoAPI/Controllers/VideosController.cs:79 | A batch gets consecutive keys in batch order, and every other column stays as fetched. |
| `VideoStore.AppendBatchValid` | RDManipulacaoAPI/Controllers/VideosController.cs:79-80 | Appending a batch of titled rows under the next keys keeps the table valid. |
| `VideoStore.FetchVideos` | RDManipulacaoAPI/Controllers/VideosController.cs:71-83 | Importing keeps the table valid. The answer is NotFound, StoreRejected or Imported. |
| `VideoStore.FetchOutcomes` | RDManipulacaoAPI/Controllers/VideosController.cs:73-82 | A null or empty list answers NotFound and stores nothing. A list with an untitled row answers StoreRejected and stores nothing. The answer is Imported exactly when the list is non-null, non-empty and every row has a title, and then it is Imported(N) for the list size N. The table grows by exactly N rows under N keys that were free, each holding the fetched columns, and the existing rows are untouched. |
| `VideoStore.FetchOneIsCreate` | RDManipulacaoAPI/Controllers/VideosController.cs:79-80 | Importing a one-record list stores exactly what creating that record stores, and succeeds exactly when the create does. |
| `VideoStore.FetchTwoIntoEmptyTable` | RDManipulacaoAPI.NUnitTests/VideosControllerTests.cs:206-217 | The two records of the test's service are stored as they are in an empty table (their keys 1 and 2 are the ones the store assigns), and the count is 2. |
| `VideoLifecycle.Handle` | RDManipulacaoAPI/Controllers/VideosController.cs:33-172 | Every request, whichever endpoint it hits, keeps the table valid. |
| `VideoLifecycle.Run` | RDManipulacaoAPI/Controllers/VideosController.cs:33-172 | Every sequence of requests keeps the table valid and never shrinks it. |
| `VideoLifecycle.HandleFrame` | RDManipulacaoAPI/Controllers/VideosController.cs:106-171 | One request never removes a row, never changes a deleted row and never clears a deleted flag. Only a successful delete of a row's key sets that row's flag. Get and list change nothing. |
| `VideoLifecycle.DeletedRowsAreFrozen` | RDManipulacaoAPI/Controllers/VideosController.cs:163-171 | A soft-deleted row stays stored, unchanged, through any sequence of requests. |
| `VideoLifecycle.DeleteIsTerminal` | RDManipulacaoAPI/Controllers/VideosController.cs:109-110 | After a key is deleted, whatever requests follow: get and delete answer NotFound, update answers NotFound (or BadRequest) and changes nothing, and no listing shows the key. |
| `Controllers.VideosController.constructor` | RDManipulacaoAPI/Controllers/VideosController.cs:17-21 | The controller works on the table it is given. |
| `Controllers.VideosController.GetVideos` | RDManipulacaoAPI/Controllers/VideosController.cs:33-58 | The listing holds exactly the stored rows that meet the arguments, and none of them is deleted. |
| `Controllers.VideosController.FetchVideos` | RDManipulacaoAPI/Controllers/VideosController.cs:71-83 | It adds the batch one entity at a time, then saves or rejects it as a whole. The response and new table are those of `VideoStore.FetchVideos`. |
| `Controllers.VideosController.CreateVideo` | RDManipulacaoAPI/Controllers/VideosController.cs:92-98 | The response and new table are those of `VideoStore.CreateVideo`. |
| `Controllers.VideosController.GetVideoById` | RDManipulacaoAPI/Controllers/VideosController.cs:106-113 | NotFound exactly when no live row has the key, otherwise the stored row. It has no `modifies` clause, so the table cannot change. |
| `Controllers.VideosController.UpdateVideo` | RDManipulacaoAPI/Controllers/VideosController.cs:123-152 | It checks the key, then looks up the row, assigns the six columns one by one and saves. The response and new table are those of `VideoStore.UpdateVideo`. |
| `Controllers.VideosController.DeleteVideo` | RDManipulacaoAPI/Controllers/VideosController.cs:161-172 | It looks up the row, sets the flag and saves. The response and new table are those of `VideoStore.DeleteVideo`. |
| `ControllerTests.ListEmptyTable` | RDManipulacaoAPI.NUnitTests/VideosControllerTests.cs:66-71 | An empty table lists nothing. |
| `ControllerTests.CreateThenGet` | RDManipulacaoAPI.NUnitTests/VideosControllerTests.cs:77-124 | A created record gets a new key, and reading the key returns the record with its title. |
| `ControllerTests.GetMissing` | RDManipulacaoAPI.NUnitTests/VideosControllerTests.cs:130-134 | Reading key 999 of an empty table answers NotFound. |
| `ControllerTests.CreateThenUpdate` | RDManipulacaoAPI.NUnitTests/VideosControllerTests.cs:140-175 | Updating a created record answers NoContent. The row then has the new title and duration, and its key and live state stay. |
| `ControllerTests.CreateThenDelete` | RDManipulacaoAPI.NUnitTests/VideosControllerTests.cs:181-200 | Deleting answers NoContent and the row stays with its flag set. A later read answers NotFound. |
| `ControllerTests.FetchTwo` | RDManipulacaoAPI.NUnitTests/VideosControllerTests.cs:206-217 | Importing two records into an empty table reports 2 and leaves two rows. |
| `ControllerTests.ListByTitle` | RDManipulacaoAPI.NUnitTests/VideosControllerTests.cs:223-238 | The title filter "B" over "A", "B", "C" lists one row, titled "B". |

## Left out

- The `DbUpdateConcurrencyException` branch of `UpdateVideo` (`RDManipulacaoAPI/Controllers/VideosController.cs:144-150`) and `VideoExists`'s use there are left out. A conflict needs a concurrent writer, which a sequential model never has. `VideoExists` itself is modelled (`VideoStore.VideoExists`).
- `VideoStore.CreateVideo`, `VideoStore.FetchVideos`: the model gives every inserted row the next key and ignores any `Id` the payload carries. Entity Framework inserts a non-zero payload `Id` as given, and a key already taken makes the save fail; that path is not modelled.
- Timestamps are integers compared with `>`; `DateTime` kinds, time zones and precision are not modelled.
- The substring test is ordinal and case-sensitive, as in C# and in SQLite's `instr`. A database with a case-insensitive collation would match more.
- A null column is taken to match no `Contains` clause, as in SQL. LINQ to Objects (the in-memory test provider) would throw there instead.
- The order of the listing is table (insertion) order. The store does not promise an order.
- The external video service (`Services/YouTubeService.cs`) is out of scope: its HTTP requests, JSON parsing and API key. Its result enters only as the `Option<seq<Video>>` argument of `FetchVideos`, and a failed search (an exception) is not modelled.
- Authentication (`[Authorize]`, `AuthController.cs`), the exception middleware, async/await, the response message texts and the 201 location header are not modelled. A `SaveChanges` failure is modelled only as the `StoreRejected` response, not as the 500 the middleware writes.
- Entity tracking is not modelled: rows are values, and a handler writes back a changed copy, which is what `SaveChanges` persists.
