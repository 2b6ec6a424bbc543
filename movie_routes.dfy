/** The movie catalog service: listing with page links, create with
    get-or-create of the lookup rows, detail, delete and partial update.
    Each operation is a function from the store before to its result and the
    store after (one transaction per operation); the class `Catalog` carries
    out the same operations step by step on mutable tables. */
module MovieRoutes {
  import opened Results
  import opened MovieSchemas
  import opened MovieStore

  // ---------------------------------------------------------------- listing

  const MaxPerPage: int := 20

  /** The query's defaults: the first page, ten movies per page. */
  const DefaultPage: int := 1
  const DefaultPerPage: int := 10

  /** A movie as listed: its id and its base columns. */
  datatype MovieSummary = MovieSummary(id: int, name: string, date: Day, score: real, overview: string)

  /** A link to another page of the listing, by the page numbers it carries. */
  datatype PageLink = PageLink(page: int, perPage: int)

  datatype MoviesPage = MoviesPage(
    movies: seq<MovieSummary>, prevPage: Option<PageLink>, nextPage: Option<PageLink>,
    totalPages: nat, totalItems: nat)

  function Summary(id: int, m: Movie): MovieSummary
  {
    MovieSummary(id, m.name, m.date, m.score, m.overview)
  }

  function Min(a: int, b: int): int { if a <= b then a else b }

  /** The number of pages of `size` items that `total` items fill. */
  function PageCount(total: nat, size: nat): (pages: nat)
    requires 1 <= size
    ensures total <= pages * size
    ensures total == 0 <==> pages == 0
    ensures 0 < pages ==> (pages - 1) * size < total
  {
    var q := (total + size - 1) / size;
    var r := (total + size - 1) % size;
    assert total + size - 1 == q * size + r && 0 <= r < size;
    assert q * size == total + size - 1 - r;
    assert (q - 1) * size == total - 1 - r;
    q
  }

  predicate IsMax(m: int, s: set<int>)
  {
    m in s && forall y :: y in s ==> y <= m
  }

  lemma MaxExists(s: set<int>)
    requires s != {}
    ensures exists m :: IsMax(m, s)
    decreases |s|
  {
    if forall y :: y !in s {
      assert false;
    }
    var x :| x in s;
    if s == {x} {
      assert IsMax(x, s);
    } else {
      var rest := s - {x};
      MaxExists(rest);
      var m :| IsMax(m, rest);
      var top := if x > m then x else m;
      forall y | y in s ensures y <= top {
        if y != x { assert y in rest; }
      }
      assert IsMax(top, s);
    }
  }

  function MaxOf(s: set<int>): (m: int)
    requires s != {}
    ensures m in s && forall x :: x in s ==> x <= m
  {
    MaxExists(s);
    var m :| IsMax(m, s); m
  }

  /** The ids of a set in descending order (the listing's `ORDER BY id DESC`). */
  function IdsDescending(s: set<int>): (r: seq<int>)
    ensures |r| == |s|
    ensures forall x :: x in r <==> x in s
    ensures forall i, j :: 0 <= i < j < |r| ==> r[i] > r[j]
    decreases |s|
  {
    if s == {} then []
    else
      var m := MaxOf(s);
      var rest := IdsDescending(s - {m});
      PrependMax(s, m, rest);
      [m] + rest
  }

  /** Putting the maximum in front of the rest of the set, listed in
      descending order, lists the whole set in descending order. */
  lemma PrependMax(s: set<int>, m: int, rest: seq<int>)
    requires IsMax(m, s)
    requires |rest| == |s - {m}|
    requires forall x :: x in rest <==> x in s - {m}
    requires forall i, j :: 0 <= i < j < |rest| ==> rest[i] > rest[j]
    ensures |[m] + rest| == |s|
    ensures forall x :: x in [m] + rest <==> x in s
    ensures forall i, j :: 0 <= i < j < |[m] + rest| ==> ([m] + rest)[i] > ([m] + rest)[j]
  {
    var r := [m] + rest;
    assert forall x :: x in rest ==> x in s && x != m && x < m;
    forall i, j | 0 <= i < j < |r| ensures r[i] > r[j] {
      assert r[j] == rest[j - 1] && rest[j - 1] in rest;
      if i > 0 { assert r[i] == rest[i - 1]; } else { assert r[i] == m; }
    }
    forall x ensures x in r <==> x in s {
      if x != m { assert x in r <==> x in rest; }
    }
  }

  /** One page of the movies, newest (largest id) first. The query must ask
      for a page from 1 on and 1 to 20 movies per page. A page with no movies
      fails with NotFound, and a page holding a movie that its response
      schema refuses fails with a server error; otherwise the page lists
      the summaries of the page's movies and carries a link back unless it
      is page 1 and a link forward unless it is the last page. */
  function ListMovies(movies: map<int, Movie>, page: int, perPage: int): (r: Result<MoviesPage>)
    ensures r.Err? ==> r.error == Invalid || r.error == NotFound || r.error == ServerError
    ensures r == Err(Invalid) <==> !(1 <= page && 1 <= perPage <= 20)
    ensures 1 <= page && 1 <= perPage <= 20 ==>
              (r == Err(NotFound) <==> |movies| == 0 || |movies| <= (page - 1) * perPage)
    ensures 1 <= page && 1 <= perPage <= 20 ==>
              (r == Err(ServerError) <==>
                 |movies| > (page - 1) * perPage && !PagePresentable(movies, ListedIds(movies, Offset(page, perPage), perPage)))
    ensures r.Ok? ==>
              && r.value.totalItems == |movies|
              && r.value.totalPages == PageCount(|movies|, perPage)
              && r.value.prevPage == (if page == 1 then None else Some(PageLink(page - 1, perPage)))
              && (r.value.nextPage.None? <==> page >= r.value.totalPages)
              && (r.value.nextPage.Some? ==> r.value.nextPage.value == PageLink(page + 1, perPage))
    ensures r.Ok? ==>
              && |r.value.movies| == Min(perPage, |movies| - (page - 1) * perPage)
              && Listing(movies, r.value.movies, ListedIds(movies, Offset(page, perPage), perPage))
  {
    if page < 1 || perPage < 1 || perPage > MaxPerPage then Err(Invalid)
    else PageFrom(movies, page, perPage, Offset(page, perPage))
  }

  /** The ids a page would list: newest first, from position `offset` of the
      descending order on, at most `size` of them. */
  function ListedIds(movies: map<int, Movie>, offset: nat, size: nat): (ids: seq<int>)
    ensures |ids| == if offset < |movies| then Min(size, |movies| - offset) else 0
    ensures forall i :: 0 <= i < |ids| ==>
              && ids[i] in movies
              && offset + i < |IdsDescending(movies.Keys)|
              && ids[i] == IdsDescending(movies.Keys)[offset + i]
    ensures forall i, j :: 0 <= i < j < |ids| ==> ids[i] > ids[j]
  {
    var all := IdsDescending(movies.Keys);
    assert |all| == |movies|;
    var ids := PageSlice(all, offset, size);
    assert forall i :: 0 <= i < |ids| ==> ids[i] in all;
    ids
  }

  /** Every movie `ids` names passes its response schema. */
  predicate PagePresentable(movies: map<int, Movie>, ids: seq<int>)
    requires forall i :: 0 <= i < |ids| ==> ids[i] in movies
  {
    forall i :: 0 <= i < |ids| ==> Presentable(movies[ids[i]])
  }

  /** `items` lists, in order, the summaries of the movies `ids` names, each
      of which passes its response schema; the ids strictly decrease. */
  predicate Listing(movies: map<int, Movie>, items: seq<MovieSummary>, ids: seq<int>)
  {
    && |items| == |ids|
    && (forall i :: 0 <= i < |ids| ==>
          && ids[i] in movies
          && items[i].id == ids[i]
          && Presentable(movies[ids[i]])
          && items[i] == Summary(ids[i], movies[ids[i]]))
    && (forall i, j :: 0 <= i < j < |items| ==> items[i].id > items[j].id)
  }

  /** The page that starts after `offset` movies: NotFound when there are
      no movies from there on, a server error when one of them fails its
      response schema. */
  function PageFrom(movies: map<int, Movie>, page: int, perPage: int, offset: nat): (r: Result<MoviesPage>)
    requires 1 <= page && 1 <= perPage
    ensures r == Err(NotFound) <==> |movies| <= offset
    ensures r == Err(ServerError) <==>
              |movies| > offset && !PagePresentable(movies, ListedIds(movies, offset, perPage))
    ensures r.Err? ==> r.error == NotFound || r.error == ServerError
    ensures r.Ok? ==>
              && r.value.totalItems == |movies|
              && r.value.totalPages == PageCount(|movies|, perPage)
              && r.value.prevPage == (if page == 1 then None else Some(PageLink(page - 1, perPage)))
              && r.value.nextPage == (if page < r.value.totalPages then Some(PageLink(page + 1, perPage)) else None)
              && |r.value.movies| == Min(perPage, |movies| - offset)
              && Listing(movies, r.value.movies, ListedIds(movies, offset, perPage))
  {
    var pageIds := ListedIds(movies, offset, perPage);
    if |movies| == 0 || pageIds == [] then Err(NotFound)
    else if !PagePresentable(movies, pageIds) then Err(ServerError)
    else Ok(BuildPage(movies, page, perPage, pageIds))
  }

  /** A non-empty page: the summaries of its movies and the links around it. */
  function BuildPage(movies: map<int, Movie>, page: int, perPage: int, pageIds: seq<int>): (r: MoviesPage)
    requires 1 <= page && 1 <= perPage
    requires forall i :: 0 <= i < |pageIds| ==> pageIds[i] in movies
    requires forall i, j :: 0 <= i < j < |pageIds| ==> pageIds[i] > pageIds[j]
    requires PagePresentable(movies, pageIds)
    ensures r.totalItems == |movies| && r.totalPages == PageCount(|movies|, perPage)
    ensures r.prevPage == (if page == 1 then None else Some(PageLink(page - 1, perPage)))
    ensures r.nextPage == (if page < r.totalPages then Some(PageLink(page + 1, perPage)) else None)
    ensures Listing(movies, r.movies, pageIds)
  {
    var pages := PageCount(|movies|, perPage);
    MoviesPage(
      Summaries(movies, pageIds),
      if page > 1 then Some(PageLink(page - 1, perPage)) else None,
      if page < pages then Some(PageLink(page + 1, perPage)) else None,
      pages, |movies|)
  }

  /** The `size` ids from position `offset` on (fewer at the end). */
  function PageSlice(ids: seq<int>, offset: nat, size: nat): (r: seq<int>)
    requires forall i, j :: 0 <= i < j < |ids| ==> ids[i] > ids[j]
    ensures |r| == if offset < |ids| then Min(size, |ids| - offset) else 0
    ensures forall i :: 0 <= i < |r| ==> offset + i < |ids| && r[i] == ids[offset + i]
    ensures forall i, j :: 0 <= i < j < |r| ==> r[i] > r[j]
  {
    if offset < |ids| then ids[offset..Min(offset + size, |ids|)] else []
  }

  /** The number of movies before page `page`. */
  function Offset(page: int, perPage: int): (offset: nat)
    requires 1 <= page && 1 <= perPage
    ensures offset == (page - 1) * perPage
  {
    (page - 1) * perPage
  }

  function Summaries(movies: map<int, Movie>, ids: seq<int>): (r: seq<MovieSummary>)
    requires forall i :: 0 <= i < |ids| ==> ids[i] in movies
    ensures |r| == |ids|
    ensures forall i :: 0 <= i < |ids| ==> r[i] == Summary(ids[i], movies[ids[i]])
  {
    seq(|ids|, i requires 0 <= i < |ids| => Summary(ids[i], movies[ids[i]]))
  }

  // ----------------------------------------------------------------- detail

  /** A lookup row as shown in a movie's detail: its id and natural key. */
  datatype LookupRef = LookupRef(id: int, key: string)

  datatype MovieDetail = MovieDetail(
    id: int, name: string, date: Day, score: real, overview: string, status: Status,
    budget: real, revenue: real,
    country: LookupRef, genres: seq<LookupRef>, actors: seq<LookupRef>, languages: seq<LookupRef>)

  /** The elements of `xs` without repeats, each where it first occurs. */
  function Distinct<T(==,!new)>(xs: seq<T>): (r: seq<T>)
    ensures forall x :: x in r <==> x in xs
    ensures forall i, j :: 0 <= i < j < |r| ==> r[i] != r[j]
  {
    if xs == [] then []
    else
      var d := Distinct(xs[..|xs| - 1]);
      var x := xs[|xs| - 1];
      assert xs == xs[..|xs| - 1] + [x];
      if x in d then d else d + [x]
  }

  /** `Distinct` keeps first-occurrence order: wherever a later element of
      the result occurs in `xs`, the earlier element has already occurred. */
  lemma {:induction false} DistinctFirstOrder<T(!new)>(xs: seq<T>, i: int, j: int, p: int)
    requires 0 <= i < j < |Distinct(xs)| && 0 <= p < |xs| && xs[p] == Distinct(xs)[j]
    ensures Distinct(xs)[i] in xs[..p]
  {
    var n := |xs| - 1;
    var ys := xs[..n];
    var d := Distinct(ys);
    var r := Distinct(xs);
    assert r == if xs[n] in d then d else d + [xs[n]];
    assert r[i] == d[i];
    if p == n {
      assert xs[..p] == ys;
    } else {
      // xs[p] occurs before the last position, so r[j] is already in d
      assert ys[p] == xs[p] && j < |d|;
      assert ys[..p] == xs[..p];
      DistinctFirstOrder(ys, i, j, p);
    }
  }

  /** Dropping repeats keeps a list of links linked. */
  lemma DistinctLinked(t: Table, ids: seq<int>)
    requires Linked(t, ids)
    ensures Linked(t, Distinct(ids))
  {
  }

  /** `refs` lists the rows `ids` names in `t`, each once, in order of first link. */
  ghost predicate LoadedFrom(refs: seq<LookupRef>, t: Table, ids: seq<int>)
  {
    var d := Distinct(ids);
    && |refs| == |d|
    && forall i :: 0 <= i < |d| ==> refs[i].id == d[i] && d[i] in t.rows && refs[i].key == t.rows[d[i]]
  }

  /** The rows `ids` names in `t`, loaded in order of first link; an eager
      joined load returns a row linked twice only once. */
  function Load(t: Table, ids: seq<int>): (r: seq<LookupRef>)
    requires Linked(t, ids)
    ensures LoadedFrom(r, t, ids)
  {
    var d := Distinct(ids);
    DistinctLinked(t, ids);
    seq(|d|, i requires 0 <= i < |d| => LookupRef(d[i], t.rows[d[i]]))
  }

  /** `d` shows movie `id` of `s`: its columns and its linked rows, eagerly loaded. */
  ghost predicate Shows(s: Store, id: int, d: MovieDetail)
  {
    && id in s.movies
    && var m := s.movies[id];
    && d.id == id && d.name == m.name && d.date == m.date && d.score == m.score
    && d.overview == m.overview && d.status == m.status && d.budget == m.budget && d.revenue == m.revenue
    && m.country in s.countries.rows && d.country == LookupRef(m.country, s.countries.rows[m.country])
    && LoadedFrom(d.genres, s.genres, m.genres)
    && LoadedFrom(d.actors, s.actors, m.actors)
    && LoadedFrom(d.languages, s.languages, m.languages)
  }

  /** A stored movie passes the checks its response schemas repeat when it
      is read: a name of at most 255 characters and a score in [0, 100]. */
  predicate Presentable(m: Movie)
  {
    ValidName(m.name) && ValidScore(m.score)
  }

  /** Every stored movie can be read back. */
  predicate AllPresentable(movies: map<int, Movie>)
  {
    forall id :: id in movies ==> Presentable(movies[id])
  }

  /** The detail of a stored movie: its columns and its country, genre,
      actor and language rows, eagerly loaded. */
  function Detail(s: Store, id: int): (d: MovieDetail)
    requires StoreValid(s) && id in s.movies
    ensures Shows(s, id, d)
  {
    var m := s.movies[id];
    MovieDetail(id, m.name, m.date, m.score, m.overview, m.status, m.budget, m.revenue,
                LookupRef(m.country, s.countries.rows[m.country]),
                Load(s.genres, m.genres), Load(s.actors, m.actors), Load(s.languages, m.languages))
  }

  /** One movie with its country, genres, actors and languages: NotFound
      exactly when no movie has this id, and a server error when the stored
      row fails the response schema's name or score check. */
  function GetMovie(s: Store, id: int): (r: Result<MovieDetail>)
    requires StoreValid(s)
    ensures r == Err(NotFound) <==> id !in s.movies
    ensures r == Err(ServerError) <==> id in s.movies && !Presentable(s.movies[id])
    ensures r.Err? ==> r.error == NotFound || r.error == ServerError
    ensures r.Ok? ==> Shows(s, id, r.value)
  {
    if id !in s.movies then Err(NotFound)
    else if !Presentable(s.movies[id]) then Err(ServerError)
    else Ok(Detail(s, id))
  }

  // ----------------------------------------------------------------- create

  /** Create a movie: refused when the payload is invalid or a movie with the
      same name and date exists (and then nothing is written); otherwise the
      country and each genre, actor and language are got or created and the
      new movie, linked to them, gets a fresh id. Existing rows never change. */
  function CreateMovie(s: Store, req: CreateRequest, today: Day): (res: (Result<int>, Store))
    requires StoreValid(s)
    ensures StoreValid(res.1)
    ensures res.0 == Err(Invalid) <==> ValidateCreate(req, today).Err?
    ensures res.0 == Err(Conflict) <==>
              && ValidateCreate(req, today).Ok?
              && exists id :: id in s.movies && s.movies[id].name == req.name && s.movies[id].date == req.date
    ensures res.0.Err? ==> (res.0.error == Invalid || res.0.error == Conflict) && res.1 == s
    ensures res.0.Ok? ==>
              && res.0.value !in s.movies
              && res.1.movies.Keys == s.movies.Keys + {res.0.value}
              && (forall id :: id in s.movies ==> res.1.movies[id] == s.movies[id])
              && Extends(s.countries, res.1.countries) && Extends(s.genres, res.1.genres)
              && Extends(s.actors, res.1.actors) && Extends(s.languages, res.1.languages)
  {
    match ValidateCreate(req, today)
    case Err(e) => (Err(e), s)
    case Ok(c) =>
      if HasMovie(s.movies, c.name, c.date) then (Err(Conflict), s)
      else
        var (id, s') := AddMovie(s, c);
        (Ok(id), s')
  }

  /** The writes of a create whose uniqueness check passed: get-or-create of
      the country, then of each genre, actor and language in list order, then
      the new movie row. */
  function AddMovie(s: Store, c: MovieCreate): (res: (int, Store))
    requires StoreValid(s)
    requires !HasMovie(s.movies, c.name, c.date)
    ensures StoreValid(res.1)
    ensures res.0 !in s.movies && res.0 in res.1.movies && res.1.movies == s.movies[res.0 := res.1.movies[res.0]]
    ensures Extends(s.countries, res.1.countries) && Extends(s.genres, res.1.genres)
    ensures Extends(s.actors, res.1.actors) && Extends(s.languages, res.1.languages)
  {
    var country := FindOrAdd(s.countries, c.country);
    var genres := FindOrAddAll(s.genres, c.genres);
    var actors := FindOrAddAll(s.actors, c.actors);
    var languages := FindOrAddAll(s.languages, c.languages);
    var id := s.nextMovie;
    var m := NewMovie(c, country.1, genres.1, actors.1, languages.1);
    var s' := Store(s.movies[id := m], id + 1, country.0, genres.0, actors.0, languages.0);
    InsertValid(s, s', id, m);
    (id, s')
  }

  /** The new movie row: the payload's columns and the resolved links. */
  function NewMovie(c: MovieCreate, country: int, genres: seq<int>, actors: seq<int>, languages: seq<int>): Movie
  {
    Movie(c.name, c.date, c.score, c.overview, c.status, c.budget, c.revenue, country, genres, actors, languages)
  }

  /** Adding a linked, non-duplicate movie under the next id keeps the store valid. */
  lemma InsertValid(s: Store, s': Store, id: int, m: Movie)
    requires StoreValid(s)
    requires TableValid(s'.countries) && TableValid(s'.genres) && TableValid(s'.actors) && TableValid(s'.languages)
    requires Extends(s.countries, s'.countries) && Extends(s.genres, s'.genres)
    requires Extends(s.actors, s'.actors) && Extends(s.languages, s'.languages)
    requires id == s.nextMovie && s'.nextMovie == id + 1 && s'.movies == s.movies[id := m]
    requires LinksValid(s', m)
    requires !HasMovie(s.movies, m.name, m.date)
    ensures StoreValid(s')
  {
    LinksKept(s, s');
    forall a, b | a in s'.movies && b in s'.movies && s'.movies[a].name == s'.movies[b].name
                  && s'.movies[a].date == s'.movies[b].date
      ensures a == b
    {
      if a != id && b != id {
        assert s.movies[a] == s'.movies[a] && s.movies[b] == s'.movies[b];
      }
    }
  }

  /** Lookup tables that only grow keep every movie's links valid. */
  lemma LinksKept(s: Store, s': Store)
    requires StoreValid(s)
    requires Extends(s.countries, s'.countries) && Extends(s.genres, s'.genres)
    requires Extends(s.actors, s'.actors) && Extends(s.languages, s'.languages)
    ensures forall id :: id in s.movies ==> LinksValid(s', s.movies[id])
  {
    forall id | id in s.movies ensures LinksValid(s', s.movies[id]) {
      var m := s.movies[id];
      assert LinksValid(s, m);
      LinkedKept(s.genres, s'.genres, m.genres);
      LinkedKept(s.actors, s'.actors, m.actors);
      LinkedKept(s.languages, s'.languages, m.languages);
    }
  }

  lemma LinkedKept(t: Table, t': Table, ids: seq<int>)
    requires Linked(t, ids) && Extends(t, t')
    ensures Linked(t', ids)
  {
    forall i | 0 <= i < |ids| ensures ids[i] in t'.rows {
      var id := ids[i];
      assert id in t.rows;
    }
  }

  // ----------------------------------------------------------------- delete

  /** Delete a movie: NotFound when it is missing; otherwise only its row
      goes, and every lookup row stays. */
  function DeleteMovie(s: Store, id: int): (res: (Result<()>, Store))
    requires StoreValid(s)
    ensures StoreValid(res.1)
    ensures res.0.Err? <==> id !in s.movies
    ensures res.0.Err? ==> res.0.error == NotFound && res.1 == s
    ensures res.0.Ok? ==>
              && res.1.movies.Keys == s.movies.Keys - {id}
              && (forall other :: other in res.1.movies ==> res.1.movies[other] == s.movies[other])
              && res.1.nextMovie == s.nextMovie
              && res.1.countries == s.countries && res.1.genres == s.genres
              && res.1.actors == s.actors && res.1.languages == s.languages
  {
    if id !in s.movies then (Err(NotFound), s)
    else (Ok(()), s.(movies := s.movies - {id}))
  }

  // ----------------------------------------------------------------- update

  /** Setting one column of a movie row. */
  function Assign(m: Movie, a: Assignment): Movie
  {
    match a
    case SetName(v) => m.(name := v)
    case SetDate(v) => m.(date := v)
    case SetScore(v) => m.(score := v)
    case SetOverview(v) => m.(overview := v)
    case SetStatus(v) => m.(status := v)
    case SetBudget(v) => m.(budget := v)
    case SetRevenue(v) => m.(revenue := v)
  }

  /** The assignments applied one after the other, in order. */
  function AssignAll(m: Movie, fs: seq<Assignment>): Movie
    decreases |fs|
  {
    if fs == [] then m else Assign(AssignAll(m, fs[..|fs| - 1]), fs[|fs| - 1])
  }

  function OrElse<T>(o: Option<T>, current: T): T
  {
    if o.Some? then o.value else current
  }

  /** The intended result of a partial update: a field set in the payload
      takes its value, every other column and every link stays. */
  function Merge(m: Movie, u: UpdateRequest): Movie
  {
    m.(name := OrElse(u.name, m.name), date := OrElse(u.date, m.date),
       score := OrElse(u.score, m.score), overview := OrElse(u.overview, m.overview),
       status := OrElse(u.status, m.status), budget := OrElse(u.budget, m.budget),
       revenue := OrElse(u.revenue, m.revenue))
  }

  lemma {:induction false} AssignAllCons(m: Movie, a: Assignment, rest: seq<Assignment>)
    ensures AssignAll(m, [a] + rest) == AssignAll(Assign(m, a), rest)
    decreases |rest|
  {
    if rest != [] {
      var fs := [a] + rest;
      assert fs[..|fs| - 1] == [a] + rest[..|rest| - 1];
      AssignAllCons(m, a, rest[..|rest| - 1]);
    }
  }

  /** The update applied field by field from schema position `k` on. */
  function MergeFrom(m: Movie, u: UpdateRequest, k: nat): Movie
    requires k <= 7
    decreases 7 - k
  {
    if k == 7 then m
    else
      var here := FieldAt(u, k);
      MergeFrom(if here.Some? then Assign(m, here.value) else m, u, k + 1)
  }

  lemma {:induction false} SetFieldsFromApplied(m: Movie, u: UpdateRequest, k: nat)
    requires k <= 7
    ensures AssignAll(m, SetFieldsFrom(u, k)) == MergeFrom(m, u, k)
    decreases 7 - k
  {
    if k < 7 {
      var here := FieldAt(u, k);
      if here.Some? {
        AssignAllCons(m, here.value, SetFieldsFrom(u, k + 1));
        SetFieldsFromApplied(Assign(m, here.value), u, k + 1);
      } else {
        SetFieldsFromApplied(m, u, k + 1);
      }
    }
  }

  /** Assigning the set fields of a payload one by one, as the update loop
      does, gives exactly the merge: set fields take the payload's values,
      every other column and every link keeps its value. */
  lemma SetFieldsMerge(m: Movie, u: UpdateRequest)
    ensures AssignAll(m, SetFields(u)) == Merge(m, u)
  {
    SetFieldsFromApplied(m, u, 0);
    MergeFromStart(m, u);
  }

  /** Merging field by field from the first field gives the whole merge. */
  lemma MergeFromStart(m: Movie, u: UpdateRequest)
    ensures MergeFrom(m, u, 0) == Merge(m, u)
  {
  }

  /** Another movie already has `m`'s name and date (the store's unique
      constraint would refuse the commit). */
  predicate Clashes(movies: map<int, Movie>, id: int, m: Movie)
  {
    exists other :: other in movies && other != id && movies[other].name == m.name && movies[other].date == m.date
  }

  /** The handler of a partial update, once the payload has passed
      validation: a missing movie fails with NotFound; otherwise the
      payload's set fields are assigned and committed, and when the commit
      fails (the store's unique (name, date) constraint, or any other store
      failure `storeFails`) the transaction is rolled back and the update
      fails with Invalid. */
  function ApplyUpdate(s: Store, id: int, u: UpdateRequest, storeFails: bool): (res: (Result<()>, Store))
    requires StoreValid(s)
    ensures StoreValid(res.1)
    ensures res.0 == Err(NotFound) <==> id !in s.movies
    ensures res.0 == Err(Invalid) <==>
              id in s.movies && (storeFails || Clashes(s.movies, id, Merge(s.movies[id], u)))
    ensures res.0.Err? ==> (res.0.error == NotFound || res.0.error == Invalid) && res.1 == s
    ensures res.0.Ok? ==> id in s.movies && res.1 == s.(movies := s.movies[id := Merge(s.movies[id], u)])
  {
    if id !in s.movies then (Err(NotFound), s)
    else
      var m := AssignAll(s.movies[id], SetFields(u));
      SetFieldsMerge(s.movies[id], u);
      if storeFails || Clashes(s.movies, id, m) then (Err(Invalid), s)
      else
        var s' := s.(movies := s.movies[id := m]);
        assert LinksValid(s, s.movies[id]);
        (Ok(()), s')
  }

  /** Partial update of a movie with the update schema as written: a payload
      that fails validation (a set date, or a score, budget or revenue out
      of bounds) fails with Invalid before the movie is looked up. */
  function UpdateMovie(s: Store, id: int, u: UpdateRequest, storeFails: bool): (res: (Result<()>, Store))
    requires StoreValid(s)
    ensures StoreValid(res.1)
    ensures res.0 == Err(Invalid) <==>
              ValidateUpdate(u).Err? || (id in s.movies && (storeFails || Clashes(s.movies, id, Merge(s.movies[id], u))))
    ensures res.0 == Err(NotFound) <==> ValidateUpdate(u).Ok? && id !in s.movies
    ensures res.0.Err? ==> (res.0.error == NotFound || res.0.error == Invalid) && res.1 == s
    ensures res.0.Ok? ==> id in s.movies && res.1 == s.(movies := s.movies[id := Merge(s.movies[id], u)])
  {
    if ValidateUpdate(u).Err? then (Err(Invalid), s)
    else ApplyUpdate(s, id, u, storeFails)
  }

  /** Partial update with the corrected update schema, which bounds every
      set field as create does and accepts a date. */
  function UpdateMovieCorrected(s: Store, id: int, u: UpdateRequest, today: Day, storeFails: bool): (res: (Result<()>, Store))
    requires StoreValid(s)
    ensures StoreValid(res.1)
    ensures res.0 == Err(Invalid) <==>
              ValidateUpdateCorrected(u, today).Err?
              || (id in s.movies && (storeFails || Clashes(s.movies, id, Merge(s.movies[id], u))))
    ensures res.0 == Err(NotFound) <==> ValidateUpdateCorrected(u, today).Ok? && id !in s.movies
    ensures res.0.Err? ==> (res.0.error == NotFound || res.0.error == Invalid) && res.1 == s
    ensures res.0.Ok? ==> id in s.movies && res.1 == s.(movies := s.movies[id := Merge(s.movies[id], u)])
  {
    if ValidateUpdateCorrected(u, today).Err? then (Err(Invalid), s)
    else ApplyUpdate(s, id, u, storeFails)
  }

  // -------------------------------------------------------------- the service

  /** The service over a mutable store: the movie table and the four lookup
      tables, each operation one transaction. */
  class Catalog {
    var movies: map<int, Movie>
    var nextMovieId: int
    const countries: LookupTable
    const genres: LookupTable
    const actors: LookupTable
    const languages: LookupTable

    function State(): Store
      reads this, countries, genres, actors, languages
    {
      Store(movies, nextMovieId, countries.Value(), genres.Value(), actors.Value(), languages.Value())
    }

    ghost predicate Valid()
      reads this, countries, genres, actors, languages
    {
      && countries != genres && countries != actors && countries != languages
      && genres != actors && genres != languages && actors != languages
      && StoreValid(State())
    }

    constructor ()
      ensures Valid()
      ensures movies == map[] && nextMovieId == 1
      ensures countries.rows == map[] && genres.rows == map[] && actors.rows == map[] && languages.rows == map[]
    {
      movies := map[];
      nextMovieId := 1;
      countries := new LookupTable();
      genres := new LookupTable();
      actors := new LookupTable();
      languages := new LookupTable();
    }

    /** The listing query; an omitted page number or page size takes its
        default. */
    method List(page: Option<int>, perPage: Option<int>) returns (r: Result<MoviesPage>)
      requires Valid()
      ensures r == ListMovies(State().movies, OrElse(page, DefaultPage), OrElse(perPage, DefaultPerPage))
    {
      var p := if page.Some? then page.value else DefaultPage;
      var n := if perPage.Some? then perPage.value else DefaultPerPage;
      r := ListMovies(movies, p, n);
    }

    method Get(id: int) returns (r: Result<MovieDetail>)
      requires Valid()
      ensures r == GetMovie(State(), id)
    {
      r := GetMovie(State(), id);
    }

    method Create(req: CreateRequest, today: Day) returns (r: Result<int>)
      requires Valid()
      modifies this, countries, genres, actors, languages
      ensures Valid()
      ensures (r, State()) == CreateMovie(old(State()), req, today)
    {
      ghost var s0 := State();
      var checked := ValidateCreate(req, today);
      if checked.Err? {
        r := Err(checked.error);
        assert CreateMovie(s0, req, today) == (r, s0);
        return;
      }
      var c := checked.value;
      if HasMovie(movies, c.name, c.date) {
        r := Err(Conflict);
        assert CreateMovie(s0, req, today) == (r, s0);
        return;
      }
      var id := Insert(c);
      r := Ok(id);
      assert CreateMovie(s0, req, today) == (r, State());
    }

    /** The writes of a create: get-or-create of the country, then of each
        genre, actor and language, then the new movie row. */
    method Insert(c: MovieCreate) returns (id: int)
      requires Valid() && !HasMovie(movies, c.name, c.date)
      modifies this, countries, genres, actors, languages
      ensures Valid()
      ensures (id, State()) == AddMovie(old(State()), c)
    {
      ghost var s0 := State();
      ghost var added := AddMovie(s0, c);
      var countryId := countries.GetOrCreate(c.country);
      ghost var tc := countries.Value();
      assert (tc, countryId) == FindOrAdd(s0.countries, c.country);
      var genreIds := genres.ResolveAll(c.genres);
      ghost var tg := genres.Value();
      assert (tg, genreIds) == FindOrAddAll(s0.genres, c.genres);
      assert countries.Value() == tc;
      var actorIds := actors.ResolveAll(c.actors);
      ghost var ta := actors.Value();
      assert (ta, actorIds) == FindOrAddAll(s0.actors, c.actors);
      assert countries.Value() == tc && genres.Value() == tg;
      var languageIds := languages.ResolveAll(c.languages);
      ghost var tl := languages.Value();
      assert (tl, languageIds) == FindOrAddAll(s0.languages, c.languages);
      assert countries.Value() == tc && genres.Value() == tg && actors.Value() == ta;
      id := nextMovieId;
      movies := movies[id := NewMovie(c, countryId, genreIds, actorIds, languageIds)];
      nextMovieId := id + 1;
      assert added.1.movies == movies && added.1.nextMovie == nextMovieId && added.0 == id;
      assert added.1 == Store(movies, nextMovieId, tc, tg, ta, tl);
    }

    method Delete(id: int) returns (r: Result<()>)
      requires Valid()
      modifies this
      ensures Valid()
      ensures (r, State()) == DeleteMovie(old(State()), id)
    {
      if id !in movies {
        return Err(NotFound);
      }
      movies := movies - {id};
      r := Ok(());
    }

    method Update(id: int, u: UpdateRequest, storeFails: bool) returns (r: Result<()>)
      requires Valid()
      modifies this
      ensures Valid()
      ensures (r, State()) == UpdateMovie(old(State()), id, u, storeFails)
    {
      ghost var s0 := State();
      if ValidateUpdate(u).Err? {
        r := Err(Invalid);
        assert UpdateMovie(s0, id, u, storeFails) == (r, s0);
        return;
      }
      if id !in movies {
        r := Err(NotFound);
        assert UpdateMovie(s0, id, u, storeFails) == (r, s0);
        return;
      }
      var movie := movies[id];
      var fields := SetFields(u);
      var i := 0;
      while i < |fields|
        invariant 0 <= i <= |fields|
        invariant movie == AssignAll(movies[id], fields[..i])
      {
        assert fields[..i + 1][..i] == fields[..i];
        movie := Assign(movie, fields[i]);
        i := i + 1;
      }
      assert fields[..i] == fields;
      SetFieldsMerge(s0.movies[id], u);
      if storeFails || Clashes(movies, id, movie) {
        r := Err(Invalid);
        assert UpdateMovie(s0, id, u, storeFails) == (r, s0);
        return;
      }
      movies := movies[id := movie];
      r := Ok(());
      assert UpdateMovie(s0, id, u, storeFails) == (r, State());
    }
  }
}
