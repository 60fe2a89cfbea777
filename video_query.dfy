/** The filtered listing behind GET api/videos (VideosController.GetVideos):
    a base "not deleted" clause followed by one optional Where clause per
    supplied argument, applied in order to the rows of the Videos table. */
module VideoQuery {
  import opened Models
  import opened Strings

  /** The query-string arguments of the listing; `None` is an absent argument. */
  datatype VideoFilter = VideoFilter(
    titulo: Option<string>,
    duracao: Option<string>,
    autor: Option<string>,
    dataPublicacao: Option<int>,
    q: Option<string>)

  /** No argument supplied. */
  const NoFilter := VideoFilter(None, None, None, None, None)

  /** `string.IsNullOrEmpty`. */
  predicate IsNullOrEmpty(s: Option<string>) {
    s.None? || s.value == ""
  }

  /** A nullable column contains `sub`; a null column matches no Contains
      clause, as a NULL operand makes the SQL comparison false. */
  predicate ColumnContains(column: Option<string>, sub: string) {
    column.Some? && Contains(column.value, sub)
  }

  /** One Where clause the listing can add to the query. */
  datatype Clause =
    | NotDeleted
    | TituloContains(titulo: string)
    | DuracaoContains(duracao: string)
    | AutorContains(autor: string)
    | PublishedAfter(date: int)
    | Search(q: string)

  predicate Holds(c: Clause, v: Video) {
    match c
    case NotDeleted => !v.excluido
    case TituloContains(s) => ColumnContains(v.titulo, s)
    case DuracaoContains(s) => ColumnContains(v.duracao, s)
    case AutorContains(s) => ColumnContains(v.autor, s)
    case PublishedAfter(d) => v.dataPublicacao > d
    case Search(q) =>
      ColumnContains(v.titulo, q) || ColumnContains(v.descricao, q) || ColumnContains(v.nomeCanal, q)
  }

  /** Every clause of `query` holds of `v`. */
  predicate HoldsAll(query: seq<Clause>, v: Video) {
    forall i :: 0 <= i < |query| ==> Holds(query[i], v)
  }

  /** The clauses the listing builds from its arguments, in the order it adds them:
      the base clause first, then one clause per argument that is not null or empty.
      The ensures say which clauses are present; that no other clause is added,
      and so what the query means as a whole, is QueryMeansMatches. */
  function BuildQuery(f: VideoFilter): (query: seq<Clause>)
    ensures 1 <= |query| <= 6 && query[0] == NotDeleted
    ensures (TituloContains(f.titulo.value) in query) <== !IsNullOrEmpty(f.titulo)
    ensures (DuracaoContains(f.duracao.value) in query) <== !IsNullOrEmpty(f.duracao)
    ensures (AutorContains(f.autor.value) in query) <== !IsNullOrEmpty(f.autor)
    ensures (PublishedAfter(f.dataPublicacao.value) in query) <== f.dataPublicacao.Some?
    ensures (Search(f.q.value) in query) <== !IsNullOrEmpty(f.q)
    ensures |query| == 1 <==>
      IsNullOrEmpty(f.titulo) && IsNullOrEmpty(f.duracao) && IsNullOrEmpty(f.autor)
      && f.dataPublicacao.None? && IsNullOrEmpty(f.q)
  {
    [NotDeleted]
    + (if !IsNullOrEmpty(f.titulo) then [TituloContains(f.titulo.value)] else [])
    + (if !IsNullOrEmpty(f.duracao) then [DuracaoContains(f.duracao.value)] else [])
    + (if !IsNullOrEmpty(f.autor) then [AutorContains(f.autor.value)] else [])
    + (if f.dataPublicacao.Some? then [PublishedAfter(f.dataPublicacao.value)] else [])
    + (if !IsNullOrEmpty(f.q) then [Search(f.q.value)] else [])
  }

  /** The rows satisfying every clause of `query`, in their original order: each
      such row is kept as often as it occurs, every other row is dropped. */
  function WhereAll(rows: seq<Video>, query: seq<Clause>): (r: seq<Video>)
    ensures forall v :: multiset(r)[v] == if HoldsAll(query, v) then multiset(rows)[v] else 0
  {
    if rows == [] then []
    else
      assert rows == [rows[0]] + rows[1..];
      (if HoldsAll(query, rows[0]) then [rows[0]] else []) + WhereAll(rows[1..], query)
  }

  /** `Queryable.Where` with one clause. */
  function Where(rows: seq<Video>, c: Clause): (r: seq<Video>)
    ensures forall v :: multiset(r)[v] == if Holds(c, v) then multiset(rows)[v] else 0
  {
    assert forall v :: HoldsAll([c], v) <==> Holds(c, v) by {
      forall v ensures HoldsAll([c], v) <==> Holds(c, v) {
        assert [c][0] == c;
      }
    }
    WhereAll(rows, [c])
  }

  /** The query as the handler composes it: each clause narrows the result of
      the clauses before it. */
  function Chain(rows: seq<Video>, query: seq<Clause>): (r: seq<Video>)
    ensures forall v :: multiset(r)[v] == if HoldsAll(query, v) then multiset(rows)[v] else 0
    decreases |query|
  {
    if query == [] then rows
    else
      HoldsAllSplit(query);
      Chain(Where(rows, query[0]), query[1..])
  }

  /** GetVideos: the listing for the given arguments. Every row it lists is a
      stored row that is not soft-deleted. */
  function GetVideos(rows: seq<Video>, f: VideoFilter): (r: seq<Video>)
    ensures forall v :: v in r ==> v in rows && !v.excluido
  {
    var query := BuildQuery(f);
    var r := Chain(rows, query);
    assert forall v :: v in r ==> multiset(r)[v] > 0 && HoldsAll(query, v) && Holds(query[0], v);
    assert forall v :: multiset(rows)[v] > 0 ==> v in rows;
    r
  }

  /** A non-empty query holds exactly when its first clause and the rest hold. */
  lemma HoldsAllSplit(query: seq<Clause>)
    requires query != []
    ensures forall v :: HoldsAll(query, v) <==> Holds(query[0], v) && HoldsAll(query[1..], v)
  {
    assert [query[0]] + query[1..] == query;
    forall v ensures HoldsAll(query, v) <==> Holds(query[0], v) && HoldsAll(query[1..], v) {
      HoldsAllCons(query[0], query[1..], v);
    }
  }

  /** Reference definition: the conditions a row must meet to be listed,
      stated argument by argument. */
  predicate Matches(f: VideoFilter, v: Video) {
    && !v.excluido
    && (IsNullOrEmpty(f.titulo) || ColumnContains(v.titulo, f.titulo.value))
    && (IsNullOrEmpty(f.duracao) || ColumnContains(v.duracao, f.duracao.value))
    && (IsNullOrEmpty(f.autor) || ColumnContains(v.autor, f.autor.value))
    && (f.dataPublicacao.None? || v.dataPublicacao > f.dataPublicacao.value)
    && (IsNullOrEmpty(f.q) || ColumnContains(v.titulo, f.q.value)
        || ColumnContains(v.descricao, f.q.value) || ColumnContains(v.nomeCanal, f.q.value))
  }

  lemma HoldsAllCons(c: Clause, query: seq<Clause>, v: Video)
    ensures HoldsAll([c] + query, v) <==> Holds(c, v) && HoldsAll(query, v)
  {
    var cq := [c] + query;
    if Holds(c, v) && HoldsAll(query, v) {
      forall i | 0 <= i < |cq| ensures Holds(cq[i], v) {
        if i > 0 { assert cq[i] == query[i - 1]; }
      }
    }
    if HoldsAll(cq, v) {
      assert Holds(cq[0], v);
      forall i | 0 <= i < |query| ensures Holds(query[i], v) {
        assert query[i] == cq[i + 1];
      }
    }
  }

  /** Filtering by one clause and then by a query is filtering once by both. */
  lemma {:induction false} WhereThenWhereAll(rows: seq<Video>, c: Clause, query: seq<Clause>)
    ensures WhereAll(Where(rows, c), query) == WhereAll(rows, [c] + query)
  {
    if rows != [] {
      var x, rest := rows[0], rows[1..];
      var w := Where(rest, c);
      WhereThenWhereAll(rest, c, query);
      HoldsAllCons(c, [], x);
      HoldsAllCons(c, query, x);
      assert [c] + [] == [c];
      if Holds(c, x) {
        assert Where(rows, c) == [x] + w;
        assert ([x] + w)[1..] == w;
      } else {
        assert Where(rows, c) == w;
      }
    }
  }

  /** The empty query keeps every row. */
  lemma {:induction false} WhereAllEmptyQuery(rows: seq<Video>)
    ensures WhereAll(rows, []) == rows
  {
    if rows != [] {
      WhereAllEmptyQuery(rows[1..]);
    }
  }

  /** Chaining Where clauses is one pass with their conjunction: the composed
      query and a single filter by every clause list the same rows in the same order. */
  lemma {:induction false} ChainIsConjunction(rows: seq<Video>, query: seq<Clause>)
    ensures Chain(rows, query) == WhereAll(rows, query)
    decreases |query|
  {
    if query == [] {
      WhereAllEmptyQuery(rows);
    } else {
      ChainIsConjunction(Where(rows, query[0]), query[1..]);
      WhereThenWhereAll(rows, query[0], query[1..]);
      assert [query[0]] + query[1..] == query;
    }
  }

  /** The clauses built from the arguments hold exactly when the argument-by-argument
      conditions do. */
  lemma QueryMeansMatches(f: VideoFilter, v: Video)
    ensures HoldsAll(BuildQuery(f), v) <==> Matches(f, v)
  {
  }

  /** The listing holds each row of the table that matches the arguments, as many
      times as the table holds it, and nothing else; a row is listed exactly when
      it is not deleted and meets every supplied argument. */
  lemma GetVideosExactly(rows: seq<Video>, f: VideoFilter)
    ensures forall v :: multiset(GetVideos(rows, f))[v] == if Matches(f, v) then multiset(rows)[v] else 0
    ensures forall v :: v in GetVideos(rows, f) <==> v in rows && Matches(f, v)
  {
    ChainIsConjunction(rows, BuildQuery(f));
    forall v ensures HoldsAll(BuildQuery(f), v) <==> Matches(f, v) {
      QueryMeansMatches(f, v);
    }
  }

  /** Whatever the arguments, no soft-deleted row is listed and every listed row is
      a row of the table; the listing is never longer than the table. */
  lemma GetVideosNeverListsDeleted(rows: seq<Video>, f: VideoFilter)
    ensures forall v :: v in GetVideos(rows, f) ==> v in rows && !v.excluido
    ensures |GetVideos(rows, f)| <= |rows|
  {
    GetVideosExactly(rows, f);
    var r := GetVideos(rows, f);
    assert multiset(r) <= multiset(rows);
    assert multiset(rows) == multiset(r) + (multiset(rows) - multiset(r));
  }

  /** With no argument the listing is every row not soft-deleted, in table order;
      an empty table lists nothing. */
  lemma {:induction false} NoFilterListsActive(rows: seq<Video>)
    ensures GetVideos(rows, NoFilter) == WhereAll(rows, [NotDeleted])
    ensures forall v :: v in GetVideos(rows, NoFilter) <==> v in rows && !v.excluido
    ensures (forall i :: 0 <= i < |rows| ==> !rows[i].excluido) ==> GetVideos(rows, NoFilter) == rows
    ensures rows == [] ==> GetVideos(rows, NoFilter) == []
  {
    assert BuildQuery(NoFilter) == [NotDeleted];
    ChainIsConjunction(rows, [NotDeleted]);
    GetVideosExactly(rows, NoFilter);
    if forall i :: 0 <= i < |rows| ==> !rows[i].excluido {
      AllActiveKept(rows);
    }
  }

  lemma {:induction false} AllActiveKept(rows: seq<Video>)
    requires forall i :: 0 <= i < |rows| ==> !rows[i].excluido
    ensures WhereAll(rows, [NotDeleted]) == rows
  {
    if rows != [] {
      AllActiveKept(rows[1..]);
      assert HoldsAll([NotDeleted], rows[0]);
      assert rows == [rows[0]] + rows[1..];
    }
  }

  /** The three rows of the title-filter test: titles "A", "B" and "C", published
      one, two and three days before `now`. */
  function ThreeVideos(now: int, day: int): seq<Video> {
    [ Video(1, Some("A"), Some("PT1M"), Some("X"), now - day, Some("desc A"), Some("Canal A"), false),
      Video(2, Some("B"), Some("PT2M"), Some("Y"), now - 2 * day, Some("desc B"), Some("Canal B"), false),
      Video(3, Some("C"), Some("PT3M"), Some("Z"), now - 3 * day, Some("desc C"), Some("Canal C"), false) ]
  }

  /** Of the three rows, only the "B" row satisfies the clauses of a title filter "B". */
  lemma ThreeVideosTitleClauses(now: int, day: int)
    ensures var rows := ThreeVideos(now, day);
      && BuildQuery(VideoFilter(Some("B"), None, None, None, None)) == [NotDeleted, TituloContains("B")]
      && !HoldsAll([NotDeleted, TituloContains("B")], rows[0])
      && HoldsAll([NotDeleted, TituloContains("B")], rows[1])
      && !HoldsAll([NotDeleted, TituloContains("B")], rows[2])
  {
    var query := [NotDeleted, TituloContains("B")];
    var rows := ThreeVideos(now, day);
    ContainsOneChar('A', 'B');
    ContainsOneChar('B', 'B');
    ContainsOneChar('C', 'B');
    assert !Holds(query[1], rows[0]);
    assert Holds(query[1], rows[1]);
    assert !Holds(query[1], rows[2]);
  }

  /** One pass of the title-"B" clauses over the three rows keeps only the "B" row. */
  lemma ThreeVideosTitlePass(now: int, day: int)
    ensures WhereAll(ThreeVideos(now, day), [NotDeleted, TituloContains("B")]) == [ThreeVideos(now, day)[1]]
  {
    var rows := ThreeVideos(now, day);
    var query := [NotDeleted, TituloContains("B")];
    ThreeVideosTitleClauses(now, day);
    assert rows[1..][1..] == [rows[2]] && [rows[2]][1..] == [];
    assert WhereAll([rows[2]], query) == [];
    assert WhereAll(rows[1..], query) == [rows[1]];
  }

  /** Three stored videos titled "A", "B" and "C": filtering by title "B" lists
      exactly the "B" record. `day` is the length of a day in timestamp units. */
  lemma {:induction false} TitleFilterScenario(now: int, day: int)
    ensures GetVideos(ThreeVideos(now, day), VideoFilter(Some("B"), None, None, None, None))
            == [ThreeVideos(now, day)[1]]
  {
    ThreeVideosTitleClauses(now, day);
    ChainIsConjunction(ThreeVideos(now, day), [NotDeleted, TituloContains("B")]);
    ThreeVideosTitlePass(now, day);
  }
}
