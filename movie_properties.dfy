/** Properties of the catalog service that relate several operations or
    look inside one: page numbering, the order of a listing, get-or-create
    reuse versus growth, and what create, update and delete leave alone. */
module MovieProperties {
  import opened Results
  import opened MovieSchemas
  import opened MovieStore
  import opened MovieRoutes

  // ---------------------------------------------------------------- listing

  lemma MulMonotone(a: int, b: int, c: nat)
    requires a <= b
    ensures a * c <= b * c
  {
  }

  /** A page number lies beyond the last page exactly when the pages before
      it already hold every item. */
  lemma BeyondLastPage(total: nat, page: int, perPage: int)
    requires 1 <= page && 1 <= perPage
    ensures (total == 0 || total <= (page - 1) * perPage) <==> page > PageCount(total, perPage)
  {
    var pages := PageCount(total, perPage);
    if page > pages {
      MulMonotone(pages, page - 1, perPage);
    } else if 0 < pages {
      MulMonotone(page - 1, pages - 1, perPage);
    }
  }

  /** With a valid query, listing fails with NotFound exactly when the page
      lies beyond the last page (on an empty catalog there are no pages). */
  lemma ListNotFoundBeyondLastPage(movies: map<int, Movie>, page: int, perPage: int)
    requires 1 <= page && 1 <= perPage <= MaxPerPage
    ensures ListMovies(movies, page, perPage) == Err(NotFound) <==> page > PageCount(|movies|, perPage)
  {
    BeyondLastPage(|movies|, page, perPage);
  }

  /** The number of elements of `s` above `x`. */
  function Above(s: set<int>, x: int): set<int>
  {
    set y | y in s && y > x
  }

  /** Nothing lies above the maximum; below it, the maximum is one more
      element above x than the rest of the set has. */
  lemma AboveMax(s: set<int>, m: int, x: int)
    requires IsMax(m, s) && x in s
    ensures x == m ==> Above(s, x) == {}
    ensures x != m ==> |Above(s, x)| == |Above(s - {m}, x)| + 1
  {
    if x != m {
      var rest := s - {m};
      assert Above(s, x) == Above(rest, x) + {m};
      assert m !in Above(rest, x);
    }
  }

  /** In the descending order, the element at position k has exactly k
      elements above it. */
  lemma {:induction false} DescendingRank(s: set<int>, k: nat)
    requires k < |IdsDescending(s)|
    ensures |Above(s, IdsDescending(s)[k])| == k
    decreases |s|
  {
    var m := MaxOf(s);
    var rest := s - {m};
    var ids := IdsDescending(s);
    assert ids == [m] + IdsDescending(rest);
    var x := ids[k];
    assert IsMax(m, s);
    AboveMax(s, m, x);
    if k > 0 {
      assert x == IdsDescending(rest)[k - 1];
      assert x != m;
      DescendingRank(rest, k - 1);
    }
  }

  /** The i-th movie of a listed page has exactly (page - 1) * perPage + i
      movies with a larger id: listing is by id, newest first, and page p
      continues where page p - 1 stopped. */
  lemma ListedRank(movies: map<int, Movie>, page: int, perPage: int, i: nat)
    requires ListMovies(movies, page, perPage).Ok?
    requires i < |ListMovies(movies, page, perPage).value.movies|
    ensures |Above(movies.Keys, ListMovies(movies, page, perPage).value.movies[i].id)| == (page - 1) * perPage + i
  {
    var offset := Offset(page, perPage);
    var ids := ListedIds(movies, offset, perPage);
    assert ListMovies(movies, page, perPage).value.movies[i].id == ids[i];
    DescendingRank(movies.Keys, offset + i);
  }

  /** A store whose every movie passes its response schema never fails a
      read with a server error. */
  lemma PresentableReads(s: Store, id: int, page: int, perPage: int)
    requires StoreValid(s) && AllPresentable(s.movies)
    ensures GetMovie(s, id) != Err(ServerError)
    ensures ListMovies(s.movies, page, perPage) != Err(ServerError)
  {
  }

  // ---------------------------------------------------------------- schemas

  /** Every payload that create accepts, given as an update with all its
      fields but the date set, passes update validation as written; with the
      date set too it passes the corrected update validation. No update
      schema bounds a field more tightly than create. */
  lemma CreateBoundsCoverUpdate(req: CreateRequest, today: Day)
    requires ValidateCreate(req, today).Ok?
    ensures ValidateUpdate(UpdateRequest(Some(req.name), None, Some(req.score), Some(req.overview),
                                         Some(req.status), Some(req.budget), Some(req.revenue))).Ok?
    ensures ValidateUpdateCorrected(UpdateRequest(Some(req.name), Some(req.date), Some(req.score), Some(req.overview),
                                                  Some(req.status), Some(req.budget), Some(req.revenue)), today).Ok?
  {
  }

  // ----------------------------------------------------------------- create

  /** Creating a movie that was just created (same name and date) is a
      conflict and writes nothing. */
  lemma CreateTwiceConflicts(s: Store, req: CreateRequest, today: Day)
    requires StoreValid(s)
    requires CreateMovie(s, req, today).0.Ok?
    ensures var s1 := CreateMovie(s, req, today).1;
            CreateMovie(s1, req, today) == (Err(Conflict), s1)
  {
  }

  /** Country get-or-create inside create: the movie links to the row with
      the payload's code; an existing code is reused and the country table
      stays as it was, a new code adds exactly one row. */
  lemma CreateResolvesCountry(s: Store, req: CreateRequest, today: Day)
    requires StoreValid(s)
    requires CreateMovie(s, req, today).0.Ok?
    ensures var (r, s1) := CreateMovie(s, req, today);
            var m := s1.movies[r.value];
            && m.country in s1.countries.rows && s1.countries.rows[m.country] == req.country
            && (Holds(s.countries, req.country) ==> s1.countries == s.countries)
            && (!Holds(s.countries, req.country) ==>
                  m.country !in s.countries.rows && s1.countries.rows == s.countries.rows[m.country := req.country])
  {
  }

  /** `ids` resolves `keys` in `t'`, grown from `t`: same length and order,
      each id naming a row with its key, a repeated key always the same row,
      and the only new keys are the requested ones. */
  ghost predicate ResolvedAs(t: Table, t': Table, keys: seq<string>, ids: seq<int>)
  {
    && |ids| == |keys|
    && (forall i :: 0 <= i < |keys| ==> ids[i] in t'.rows && t'.rows[ids[i]] == keys[i])
    && (forall i, j :: 0 <= i < |keys| && 0 <= j < |keys| && keys[i] == keys[j] ==> ids[i] == ids[j])
    && (forall k :: Holds(t', k) <==> Holds(t, k) || k in keys)
    && Extends(t, t')
  }

  /** The genre, actor and language loops of create: each list is resolved
      in order by get-or-create, omitted lists being empty. */
  lemma CreateResolvesNames(s: Store, req: CreateRequest, today: Day)
    requires StoreValid(s)
    requires CreateMovie(s, req, today).0.Ok?
    ensures var (r, s1) := CreateMovie(s, req, today);
            var m := s1.movies[r.value];
            && ResolvedAs(s.genres, s1.genres, OrEmpty(req.genres), m.genres)
            && ResolvedAs(s.actors, s1.actors, OrEmpty(req.actors), m.actors)
            && ResolvedAs(s.languages, s1.languages, OrEmpty(req.languages), m.languages)
  {
  }

  function Keys(refs: seq<LookupRef>): (keys: seq<string>)
    ensures |keys| == |refs|
  {
    seq(|refs|, i requires 0 <= i < |refs| => refs[i].key)
  }

  /** When ids and keys correspond one to one, dropping repeats from both
      keeps them paired position by position. */
  lemma {:induction false} DistinctKeys(t: Table, ids: seq<int>, keys: seq<string>)
    requires |ids| == |keys|
    requires forall i :: 0 <= i < |ids| ==> ids[i] in t.rows && t.rows[ids[i]] == keys[i]
    requires forall i, j :: 0 <= i < |ids| && 0 <= j < |ids| && keys[i] == keys[j] ==> ids[i] == ids[j]
    ensures |Distinct(ids)| == |Distinct(keys)|
    ensures forall i :: 0 <= i < |Distinct(ids)| ==>
              Distinct(ids)[i] in t.rows && t.rows[Distinct(ids)[i]] == Distinct(keys)[i]
  {
    if ids != [] {
      var n := |ids| - 1;
      var ids', keys' := ids[..n], keys[..n];
      DistinctKeys(t, ids', keys');
      assert ids == ids' + [ids[n]] && keys == keys' + [keys[n]];
      assert ids[n] in Distinct(ids') <==> keys[n] in Distinct(keys') by {
        if ids[n] in ids' {
          var j :| 0 <= j < n && ids'[j] == ids[n];
          assert keys'[j] == keys[n];
        }
        if keys[n] in keys' {
          var j :| 0 <= j < n && keys'[j] == keys[n];
          assert ids'[j] == ids[n];
        }
      }
    }
  }

  /** Ids resolved from `keys` load back as the keys without repeats. */
  lemma ResolvedLoads(t: Table, t': Table, keys: seq<string>, ids: seq<int>, refs: seq<LookupRef>)
    requires ResolvedAs(t, t', keys, ids)
    requires LoadedFrom(refs, t', ids)
    ensures Keys(refs) == Distinct(keys)
  {
    DistinctKeys(t', ids, keys);
  }

  /** A created movie reads back with the payload's columns, its country
      code and the genre, actor and language names in the order given, a
      name given twice shown once. */
  lemma CreateThenGet(s: Store, req: CreateRequest, today: Day)
    requires StoreValid(s)
    requires CreateMovie(s, req, today).0.Ok?
    ensures var (r, s1) := CreateMovie(s, req, today);
            var d := GetMovie(s1, r.value);
            && d.Ok?
            && d.value.id == r.value
            && d.value.name == req.name && d.value.date == req.date && d.value.score == req.score
            && d.value.overview == req.overview && d.value.status == req.status
            && d.value.budget == req.budget && d.value.revenue == req.revenue
            && d.value.country.key == req.country
            && Keys(d.value.genres) == Distinct(OrEmpty(req.genres))
            && Keys(d.value.actors) == Distinct(OrEmpty(req.actors))
            && Keys(d.value.languages) == Distinct(OrEmpty(req.languages))
  {
    var (r, s1) := CreateMovie(s, req, today);
    CreateResolvesNames(s, req, today);
    var m := s1.movies[r.value];
    var d := GetMovie(s1, r.value).value;
    ResolvedLoads(s.genres, s1.genres, OrEmpty(req.genres), m.genres, d.genres);
    ResolvedLoads(s.actors, s1.actors, OrEmpty(req.actors), m.actors, d.actors);
    ResolvedLoads(s.languages, s1.languages, OrEmpty(req.languages), m.languages, d.languages);
  }

  /** Rows of the same movie loaded from a table and from a grown copy agree. */
  lemma LoadKept(t: Table, t': Table, ids: seq<int>)
    requires Linked(t, ids) && Extends(t, t')
    ensures Linked(t', ids) && Load(t', ids) == Load(t, ids)
  {
    LinkedKept(t, t', ids);
    DistinctLinked(t, ids);
  }

  /** Creating a movie changes no other movie's detail. */
  lemma CreateKeepsOthers(s: Store, req: CreateRequest, today: Day, other: int)
    requires StoreValid(s)
    requires other in s.movies
    ensures var s1 := CreateMovie(s, req, today).1;
            GetMovie(s1, other) == GetMovie(s, other)
  {
    var (r, s1) := CreateMovie(s, req, today);
    if r.Ok? {
      var m := s.movies[other];
      assert s1.movies[other] == m;
      assert LinksValid(s, m);
      LoadKept(s.genres, s1.genres, m.genres);
      LoadKept(s.actors, s1.actors, m.actors);
      LoadKept(s.languages, s1.languages, m.languages);
    }
  }

  // ----------------------------------------------------------------- delete

  /** After a delete the movie is gone, and every other movie still reads
      back the same, with its shared genres, actors and languages. */
  lemma DeleteThenGet(s: Store, id: int, other: int)
    requires StoreValid(s)
    requires DeleteMovie(s, id).0.Ok?
    ensures GetMovie(DeleteMovie(s, id).1, id) == Err(NotFound)
    ensures other in s.movies && other != id ==> GetMovie(DeleteMovie(s, id).1, other) == GetMovie(s, other)
  {
  }

  // ----------------------------------------------------------------- update

  /** `after` reads back `before` updated with `u`: set fields new, unset
      fields old, country, genres, actors and languages unchanged. */
  ghost predicate ReadsBackMerged(before: MovieDetail, after: MovieDetail, u: UpdateRequest)
  {
    && after.id == before.id
    && after.name == OrElse(u.name, before.name)
    && after.date == OrElse(u.date, before.date)
    && after.score == OrElse(u.score, before.score)
    && after.overview == OrElse(u.overview, before.overview)
    && after.status == OrElse(u.status, before.status)
    && after.budget == OrElse(u.budget, before.budget)
    && after.revenue == OrElse(u.revenue, before.revenue)
    && after.country == before.country
    && after.genres == before.genres
    && after.actors == before.actors
    && after.languages == before.languages
  }

  /** After an update the movie reads back with the payload's set fields
      and, for every other field, its old value; its country, genres, actors
      and languages are the ones it had. The read succeeds exactly when the
      resulting name and score pass the response schema. */
  lemma UpdateThenGet(s: Store, id: int, u: UpdateRequest, storeFails: bool)
    requires StoreValid(s)
    requires UpdateMovie(s, id, u, storeFails).0.Ok?
    ensures var s1 := UpdateMovie(s, id, u, storeFails).1;
            && id in s.movies
            && (GetMovie(s1, id).Ok? <==>
                  ValidName(OrElse(u.name, s.movies[id].name)) && ValidScore(OrElse(u.score, s.movies[id].score)))
            && (GetMovie(s1, id).Ok? ==> ReadsBackMerged(Detail(s, id), GetMovie(s1, id).value, u))
  {
  }

  /** Setting only the score changes the score of that movie and nothing else. */
  lemma UpdateOnlyScore(s: Store, id: int, score: real, storeFails: bool)
    requires StoreValid(s)
    ensures var u := UpdateRequest(None, None, Some(score), None, None, None, None);
            var res := UpdateMovie(s, id, u, storeFails);
            res.0.Ok? ==> res.1 == s.(movies := s.movies[id := s.movies[id].(score := score)])
  {
  }

  // ------------------------------------------- the update schema as written

  /** The update schema as written refuses every payload that sets a date,
      so no update can change a movie's release date. */
  lemma UpdateRefusesSetDate(s: Store, id: int, u: UpdateRequest, storeFails: bool)
    requires StoreValid(s) && u.date.Some?
    ensures UpdateMovie(s, id, u, storeFails) == (Err(Invalid), s)
  {
  }

  /** The update schema as written lets through a name longer than 255
      characters: the update commits, and afterwards the movie can no longer
      be read, because its response schema refuses the stored name. */
  lemma UpdateLongNameBreaksGet(s: Store, id: int, name: string)
    requires StoreValid(s) && id in s.movies
    requires |name| == MaxNameLength + 1
    requires !Clashes(s.movies, id, s.movies[id].(name := name))
    ensures var u := UpdateRequest(Some(name), None, None, None, None, None, None);
            var res := UpdateMovie(s, id, u, false);
            && res.0 == Ok(())
            && GetMovie(res.1, id) == Err(ServerError)
  {
  }

  // ------------------------------------------------ the corrected update

  /** With the corrected schema, a date within a year of today can be set,
      and the movie reads back with it. */
  lemma CorrectedUpdateSetsDate(s: Store, id: int, date: Day, today: Day)
    requires StoreValid(s) && id in s.movies && Presentable(s.movies[id])
    requires date <= today + MaxDaysAhead
    requires !Clashes(s.movies, id, s.movies[id].(date := date))
    ensures var u := UpdateRequest(None, Some(date), None, None, None, None, None);
            var res := UpdateMovieCorrected(s, id, u, today, false);
            && res.0 == Ok(())
            && GetMovie(res.1, id).Ok?
            && GetMovie(res.1, id).value.date == date
  {
  }

  /** A committed corrected update reads back like the update as written,
      and a movie that could be read before still can. */
  lemma CorrectedUpdateThenGet(s: Store, id: int, u: UpdateRequest, today: Day, storeFails: bool)
    requires StoreValid(s)
    requires UpdateMovieCorrected(s, id, u, today, storeFails).0.Ok?
    ensures var s1 := UpdateMovieCorrected(s, id, u, today, storeFails).1;
            && id in s.movies
            && (Presentable(s.movies[id]) ==> GetMovie(s1, id).Ok?)
            && (GetMovie(s1, id).Ok? ==> ReadsBackMerged(Detail(s, id), GetMovie(s1, id).value, u))
  {
  }

  /** The corrected update keeps every movie readable. */
  lemma CorrectedUpdateKeepsPresentable(s: Store, id: int, u: UpdateRequest, today: Day, storeFails: bool)
    requires StoreValid(s) && AllPresentable(s.movies)
    ensures AllPresentable(UpdateMovieCorrected(s, id, u, today, storeFails).1.movies)
  {
  }

  /** Create and delete keep every movie readable. */
  lemma CreateDeleteKeepPresentable(s: Store, req: CreateRequest, today: Day, id: int)
    requires StoreValid(s) && AllPresentable(s.movies)
    ensures AllPresentable(CreateMovie(s, req, today).1.movies)
    ensures AllPresentable(DeleteMovie(s, id).1.movies)
  {
  }
}
