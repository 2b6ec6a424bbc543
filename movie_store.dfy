/** The in-memory store the catalog service runs against: one table of movie
    rows and four lookup tables (countries, genres, actors, languages), each
    mapping a row id to its natural key (a country code or a name). */
module MovieStore {
  import opened Results
  import opened MovieSchemas

  /** A movie row: its scalar columns and the ids it links to. */
  datatype Movie = Movie(
    name: string, date: Day, score: real, overview: string, status: Status,
    budget: real, revenue: real,
    country: int, genres: seq<int>, actors: seq<int>, languages: seq<int>)

  /** A lookup table: id -> natural key, and the id its next row receives. */
  datatype Table = Table(rows: map<int, string>, next: int)

  /** Ids are positive and below the next id; a natural key names one row. */
  ghost predicate TableValid(t: Table)
  {
    && 1 <= t.next
    && (forall id :: id in t.rows ==> 1 <= id < t.next)
    && (forall a, b :: a in t.rows && b in t.rows && t.rows[a] == t.rows[b] ==> a == b)
  }

  /** `t'` keeps every row of `t` (lookup rows are never changed or removed). */
  ghost predicate Extends(t: Table, t': Table)
  {
    && t.next <= t'.next
    && forall id :: id in t.rows ==> id in t'.rows && t'.rows[id] == t.rows[id]
  }

  /** Some row of `t` has the natural key `key`. */
  ghost predicate Holds(t: Table, key: string)
  {
    exists id :: id in t.rows && t.rows[id] == key
  }

  /** The query "the row whose key is `key`, or none". */
  function Lookup(t: Table, key: string): (r: Option<int>)
    requires TableValid(t)
    ensures r.Some? <==> Holds(t, key)
    ensures r.Some? ==> r.value in t.rows && t.rows[r.value] == key
  {
    if exists id :: id in t.rows && t.rows[id] == key then
      var id :| id in t.rows && t.rows[id] == key; Some(id)
    else None
  }

  /** Get-or-create of one lookup row: an existing key is reused and the
      table stays as it is; a new key gets exactly one new row with a fresh id. */
  function FindOrAdd(t: Table, key: string): (res: (Table, int))
    requires TableValid(t)
    ensures TableValid(res.0) && Extends(t, res.0)
    ensures res.1 in res.0.rows && res.0.rows[res.1] == key
    ensures forall k :: Holds(res.0, k) <==> Holds(t, k) || k == key
    ensures Holds(t, key) ==> res.0 == t
    ensures !Holds(t, key) ==>
              && res.1 !in t.rows
              && res.0.rows == t.rows[res.1 := key]
              && res.0.next == t.next + 1
  {
    match Lookup(t, key)
    case Some(id) => (t, id)
    case None =>
      var rows := t.rows[t.next := key];
      assert rows[t.next] == key;
      assert forall k :: Holds(Table(rows, t.next + 1), k) ==> Holds(t, k) || k == key by {
        forall k | Holds(Table(rows, t.next + 1), k) ensures Holds(t, k) || k == key {
          var id :| id in rows && rows[id] == k;
          if id != t.next { assert t.rows[id] == k; }
        }
      }
      (Table(rows, t.next + 1), t.next)
  }

  ghost predicate Linked(t: Table, ids: seq<int>)
  {
    forall i :: 0 <= i < |ids| ==> ids[i] in t.rows
  }

  /** Get-or-create of a list of keys, one after the other in list order. The
      ids come back in the order of the keys, each naming a row with its key;
      the table keeps its rows and gains rows only for keys it lacked. */
  function FindOrAddAll(t: Table, keys: seq<string>): (res: (Table, seq<int>))
    requires TableValid(t)
    ensures TableValid(res.0) && Extends(t, res.0)
    ensures |res.1| == |keys| && Linked(res.0, res.1)
    ensures forall i :: 0 <= i < |keys| ==> res.1[i] in res.0.rows && res.0.rows[res.1[i]] == keys[i]
    ensures forall k :: Holds(res.0, k) <==> Holds(t, k) || k in keys
    ensures forall i, j :: 0 <= i < |keys| && 0 <= j < |keys| && keys[i] == keys[j] ==> res.1[i] == res.1[j]
    ensures forall i :: 0 <= i < |keys| && Holds(t, keys[i]) ==> res.1[i] in t.rows
    decreases |keys|
  {
    if keys == [] then (t, [])
    else
      var (t1, ids) := FindOrAddAll(t, keys[..|keys| - 1]);
      var (t2, id) := FindOrAdd(t1, keys[|keys| - 1]);
      assert keys == keys[..|keys| - 1] + [keys[|keys| - 1]];
      (t2, ids + [id])
  }

  /** The whole store. */
  datatype Store = Store(
    movies: map<int, Movie>, nextMovie: int,
    countries: Table, genres: Table, actors: Table, languages: Table)

  /** Every link of a movie row names an existing lookup row. */
  ghost predicate LinksValid(s: Store, m: Movie)
  {
    && m.country in s.countries.rows
    && Linked(s.genres, m.genres)
    && Linked(s.actors, m.actors)
    && Linked(s.languages, m.languages)
  }

  /** No two movies share both their name and their release date. */
  ghost predicate UniqueNameDate(movies: map<int, Movie>)
  {
    forall a, b ::
      a in movies && b in movies && movies[a].name == movies[b].name && movies[a].date == movies[b].date
      ==> a == b
  }

  ghost predicate StoreValid(s: Store)
  {
    && TableValid(s.countries) && TableValid(s.genres)
    && TableValid(s.actors) && TableValid(s.languages)
    && 1 <= s.nextMovie
    && (forall id :: id in s.movies ==> 1 <= id < s.nextMovie && LinksValid(s, s.movies[id]))
    && UniqueNameDate(s.movies)
  }

  /** The query for a movie with the given name and release date. */
  predicate HasMovie(movies: map<int, Movie>, name: string, date: Day)
  {
    exists id :: id in movies && movies[id].name == name && movies[id].date == date
  }

  /** One lookup table held by the store, mutated in place. */
  class LookupTable {
    var rows: map<int, string>
    var nextId: int

    function Value(): Table
      reads this
    {
      Table(rows, nextId)
    }

    ghost predicate Valid()
      reads this
    {
      TableValid(Value())
    }

    constructor ()
      ensures Valid() && rows == map[] && nextId == 1
    {
      rows := map[];
      nextId := 1;
    }

    /** Select the row with this key; when there is none, add one and
        flush, so that it has an id. */
    method GetOrCreate(key: string) returns (id: int)
      requires Valid()
      modifies this
      ensures Valid()
      ensures (Value(), id) == FindOrAdd(old(Value()), key)
    {
      if exists k :: k in rows && rows[k] == key {
        id :| id in rows && rows[id] == key;
      } else {
        id := nextId;
        rows := rows[id := key];
        nextId := nextId + 1;
      }
    }

    /** The get-or-create loop over a list of keys. */
    method ResolveAll(keys: seq<string>) returns (ids: seq<int>)
      requires Valid()
      modifies this
      ensures Valid()
      ensures (Value(), ids) == FindOrAddAll(old(Value()), keys)
    {
      ids := [];
      var i := 0;
      while i < |keys|
        invariant 0 <= i <= |keys| && Valid()
        invariant (Value(), ids) == FindOrAddAll(old(Value()), keys[..i])
      {
        ghost var before := Value();
        var id := GetOrCreate(keys[i]);
        assert keys[..i + 1][..i] == keys[..i] && keys[..i + 1][i] == keys[i];
        assert FindOrAddAll(old(Value()), keys[..i + 1]) == (Value(), ids + [id]) by {
          assert (Value(), id) == FindOrAdd(before, keys[i]);
        }
        ids := ids + [id];
        i := i + 1;
      }
      assert keys[..i] == keys;
    }
  }
}
