# Movie catalog service, modelled in Dafny

This project models the catalog service of a small movie backend. The
service lists movies one page at a time, creates a movie, shows one movie in
detail, applies a partial update to a movie and deletes a movie. It runs
against a store with one table of movies and four lookup tables: countries,
genres, actors and languages. Each lookup table maps a row id to a natural
key, which is a country code or a name. A create resolves the movie's
country, genres, actors and languages by get-or-create: it looks each key up
and adds a row only when the key is missing. The request schemas supply the
field bounds: a name of at most 255 characters, a score from 0 to 100, a
non-negative budget and revenue, a country code of at most 3 characters and
a release date at most 365 days after today.

Modules:

- `Results` (`results.dfy`): `Option`, `Result` and the error kinds
  `NotFound`, `Conflict`, `Invalid` and `ServerError` (a stored row that
  its response schema refuses).
- `MovieSchemas` (`movie_schemas.dfy`): the create and update payloads, the
  field bounds as predicates, the release-date validator, the defaults of the
  list fields, and the list of fields an update payload sets, in schema order.
  It holds the update validator as written and a corrected one (see
  "Findings").
- `MovieStore` (`movie_store.dfy`): the movie row, the lookup `Table` value
  and the whole `Store` value. It also holds the store invariant
  `StoreValid`, the pure get-or-create functions `FindOrAdd` and
  `FindOrAddAll`, and the class `LookupTable`. That class holds one mutable
  lookup table, with the `GetOrCreate` method and the `ResolveAll` loop.
- `MovieRoutes` (`movie_routes.dfy`): one function per service operation.
  Each maps the store before to the result and the store after, so one
  operation is one transaction. The module also holds the class `Catalog`,
  whose methods perform the same operations step by step on mutable tables,
  including the get-or-create loops and the field-assignment loop of update. Each
  method is proved equal to its function.
- `MovieProperties` (`movie_properties.dfy`): lemmas about listing order and
  page numbering, get-or-create reuse and growth, reading a movie back after
  create and update, and what create, update and delete leave alone.

Modelling choices:

- Dates are day numbers, and "today" is a parameter.
- Score, budget and revenue are `real`.
- Status is the stored string value of the status enumeration.
- Request validation runs before the handler, as in the web framework. An
  invalid payload or query therefore fails with `Invalid` before any lookup:
  before the not-found check of update, and before the conflict check of
  create.
- The update commit can fail in two ways. The model assumes the store has
  a unique (name, date) constraint, which refuses a merged row that another
  movie already has. It is declared in the database models, which are not
  part of this model, and it is what keeps `UniqueNameDate` true after an
  update. The boolean `storeFails` stands for every other persistence
  failure. Either way the update is rolled back and fails with `Invalid`.
- An empty page fails with `NotFound`, as does a listing of an empty
  catalog.
- Reads validate what they return. The detail and every listed summary
  pass through response schemas that carry the base schema's bounds, so a
  stored movie whose name is longer than 255 characters or whose score lies
  outside [0, 100] makes its detail read, and any page that lists it, fail
  with `ServerError`.
- The list query's page number defaults to 1 and its page size to 10;
  `Catalog.List` takes both as options.

What the update schema checks, as written:

- A set score, budget or revenue must satisfy its create bound. The name
  carries no length bound, because the update schema does not derive from
  the base schema.
- The date field admits no date at all, so a payload that sets the date is
  refused (see "Findings"). `ValidateUpdate`, `UpdateMovie` and
  `Catalog.Update` model this behaviour. `ValidateUpdateCorrected` and
  `UpdateMovieCorrected` model a schema that bounds every set field as
  create does.

## Model

| member | source | states |
|---|---|---|
| MovieSchemas.CheckReleaseDate | src/schemas/movies.py:15-20 | a release date is accepted, unchanged, exactly when it is at most today + 365 days; otherwise validation fails with Invalid |
| MovieSchemas.ValidateCreate | src/schemas/movies.py:8-42 | a create payload is accepted exactly when the name has at most 255 characters, the date is at most today + 365, the score lies in [0, 100], budget and revenue are non-negative and the country code has at most 3 characters; accepted fields are carried over unchanged and omitted genre, actor and language lists become empty lists |
| MovieSchemas.ValidateUpdate | src/schemas/movies.py:81-88 | every update field is optional; a payload is accepted exactly when it sets no date (the date field's type is the None type), a present score lies in [0, 100] and a present budget and revenue are non-negative; the name is not checked; an accepted payload is unchanged; a refused one is Invalid |
| MovieSchemas.ValidateUpdateCorrected | src/schemas/movies.py:81-88 | the corrected update validator: a payload is accepted exactly when each set field obeys its create bound (name at most 255 characters, date at most today + 365, score in [0, 100], budget and revenue non-negative); an accepted payload is unchanged |
| MovieSchemas.SetFields | src/routes/movies.py:161 | the set fields of an update payload (the dump that excludes unset fields): each assignment carries the payload's value for a field that is set, and no field appears twice (strictly increasing schema order) |
| MovieStore.Lookup | src/routes/movies.py:52-54 | the key query finds a row exactly when some row has that key, and the row it returns has that key |
| MovieStore.FindOrAdd | src/routes/movies.py:52-58 | get-or-create of one key: the returned id names a row with that key; an existing key is reused and the table does not change; a missing key adds exactly one row, under a fresh id; the table stays valid and keeps all its rows |
| MovieStore.FindOrAddAll | src/routes/movies.py:60-91 | get-or-create over a list, in list order: as many ids as keys, the i-th id names a row with the i-th key, a repeated key gets the same id, a key that existed keeps its existing row, old rows are kept, and the keys present afterwards are the old ones plus the listed ones |
| MovieStore.LookupTable.GetOrCreate | src/routes/movies.py:62-68 | the select, add and flush steps on the mutable table give the same id and the same new table as FindOrAdd |
| MovieStore.LookupTable.ResolveAll | src/routes/movies.py:60-69 | the loop that appends each resolved row gives the same ids and the same table as FindOrAddAll |
| MovieRoutes.PageCount | src/routes/movies.py:24 | the page count is the ceiling of total / size: the pages hold every item, the last page is not empty, and there are no pages exactly when there are no items |
| MovieRoutes.IdsDescending | src/routes/movies.py:23 | ordering by id descending lists each id of the table exactly once, in strictly decreasing order |
| MovieRoutes.PageSlice | src/routes/movies.py:22-24 | a page holds the ids from the page's offset on, at most size of them, in their listed order |
| MovieRoutes.ListedIds | src/routes/movies.py:22-24 | the ids a page holds are those at positions offset, offset + 1, ... of the newest-first order, min(size, remaining) of them, each a stored movie, strictly decreasing |
| MovieRoutes.ListMovies | src/routes/movies.py:16-35 | a query outside page >= 1 and 1 <= per_page <= 20 is Invalid; otherwise the listing fails with NotFound exactly when the total is zero or the page is empty, and with ServerError exactly when the page is not empty and one of its movies fails the response schema's name or score check (src/schemas/movies.py:8-28); a listed page holds min(per_page, remaining) movies, the summaries of the page's ids in order, each passing the response schema; the previous link is absent exactly on page 1 and otherwise carries page - 1 and the same size; the next link is absent exactly when page >= total pages and otherwise carries page + 1; total items and total pages are reported |
| MovieRoutes.DistinctFirstOrder | src/routes/movies.py:119-126 | dropping repeats keeps first-occurrence order: wherever a later row of the de-duplicated list is linked, the earlier row was already linked before it |
| MovieRoutes.Load | src/routes/movies.py:122-125 | the rows a movie links in one table are loaded each once, in order of first link, each with its id and natural key |
| MovieRoutes.Detail | src/routes/movies.py:119-130 | the detail of a stored movie shows its columns, its country row and its genre, actor and language rows, in the stored link order, a row linked twice shown once (the eager joined load de-duplicates) |
| MovieRoutes.GetMovie | src/routes/movies.py:114-135 | NotFound exactly when no movie has the id; ServerError exactly when the movie exists and the detail schema refuses its name or score (src/schemas/movies.py:8-24, 70-78); otherwise the detail shows the movie's columns and its country row, and its genre, actor and language rows each once |
| MovieRoutes.CreateMovie | src/routes/movies.py:38-111 | Invalid exactly when validation fails; Conflict exactly when the payload is valid and a movie with the same name and date exists; no other error is possible, so a valid payload with a new (name, date) succeeds; on any error nothing changes; on success the new movie gets a fresh id, no other movie changes, no lookup row changes or disappears, and the store invariant (valid links, unique (name, date)) still holds |
| MovieRoutes.AddMovie | src/routes/movies.py:52-111 | the writes after the uniqueness check keep the store valid, add exactly one movie under an unused id, and only extend the lookup tables |
| MovieRoutes.DeleteMovie | src/routes/movies.py:138-148 | NotFound, with nothing changed, exactly when the movie is missing; otherwise only that movie's row is removed, every other movie and every lookup table stays, and the store stays valid |
| MovieRoutes.SetFieldsMerge | src/routes/movies.py:161-162 | assigning the set fields one by one, as the update loop does, gives the merge: set fields take the payload's values, and every other column and every link keeps its old value |
| MovieRoutes.ApplyUpdate | src/routes/movies.py:153-170 | once the payload is valid: NotFound exactly when the movie is missing; Invalid exactly when it exists and the commit fails (a duplicate (name, date) or a store failure); every failure leaves the store unchanged (rollback); on success only that movie changes, to the merge of its row with the payload, and the store stays valid |
| MovieRoutes.UpdateMovie | src/routes/movies.py:151-170 | with the update schema as written: Invalid exactly when the payload is invalid (a set date included) or the movie exists and the commit fails; NotFound exactly when the payload is valid and the movie is missing; every failure leaves the store unchanged; on success only that movie changes, to the merge of its row with the payload, and no lookup table changes |
| MovieRoutes.UpdateMovieCorrected | src/routes/movies.py:151-170 | the same update with the corrected validator: Invalid exactly when a set field breaks its create bound or the commit fails; otherwise as UpdateMovie |
| MovieRoutes.Catalog.List | src/routes/movies.py:16-35 | the listing read from the mutable store is ListMovies of its movie table, with page 1 and 10 per page when the query omits them |
| MovieRoutes.Catalog.Get | src/routes/movies.py:114-135 | the detail read from the mutable store is GetMovie of its state |
| MovieRoutes.Catalog.Create | src/routes/movies.py:38-111 | the result and the new state of the step-by-step create are those of CreateMovie, and the store invariant is kept |
| MovieRoutes.Catalog.Insert | src/routes/movies.py:52-109 | the get-or-create calls and the new row give the id and the state of AddMovie |
| MovieRoutes.Catalog.Delete | src/routes/movies.py:138-148 | the result and the new state are those of DeleteMovie |
| MovieRoutes.Catalog.Update | src/routes/movies.py:151-170 | the field-assignment loop over the set fields, then commit or rollback, gives the result and state of UpdateMovie |
| MovieProperties.BeyondLastPage | src/routes/movies.py:24-27 | a page number is greater than the page count exactly when the pages before it already hold every item (always so on an empty catalog) |
| MovieProperties.ListNotFoundBeyondLastPage | src/routes/movies.py:26-27 | for a valid query, listing fails with NotFound exactly when the page number is greater than the page count (an empty catalog has no pages), so any page beyond the last one is NotFound |
| MovieProperties.DescendingRank | src/routes/movies.py:23 | in the descending id order, the id at position k has exactly k larger ids in the table |
| MovieProperties.ListedRank | src/routes/movies.py:22-24 | the i-th movie on page p has exactly (p - 1) * per_page + i movies with a larger id: pages are consecutive slices of the newest-first order |
| MovieProperties.PresentableReads | src/schemas/movies.py:8-28 | when every stored movie passes the response schema, neither a detail read nor a listing fails with ServerError |
| MovieProperties.CreateBoundsCoverUpdate | src/schemas/movies.py:82-88 | every payload create accepts, given as an update without its date, passes update validation as written, and with its date passes the corrected validation: no update schema bounds a field more tightly than create |
| MovieProperties.CreateTwiceConflicts | src/routes/movies.py:43-50 | creating the same (name, date) again right after a successful create fails with Conflict and writes nothing |
| MovieProperties.CreateResolvesCountry | src/routes/movies.py:52-58 | the created movie links to a country row with the payload's code; an existing code is reused and the country table is unchanged; a new code adds exactly one row |
| MovieProperties.CreateResolvesNames | src/routes/movies.py:60-91 | the created movie's genre, actor and language ids have the length and order of the payload's lists (omitted lists empty), each naming a row with the requested name; a repeated name labels the same row; only requested names are added |
| MovieProperties.CreateThenGet | src/routes/movies.py:93-111 | reading a created movie back succeeds and gives the payload's columns, its country code and its genre, actor and language names in the order given (the model's link order), a name repeated in the payload shown once |
| MovieProperties.CreateKeepsOthers | src/routes/movies.py:93-108 | creating a movie does not change the detail of any existing movie, because lookup rows are shared and never rewritten |
| MovieProperties.DeleteThenGet | src/routes/movies.py:147 | after a delete the movie is NotFound, and every other movie reads back unchanged, including its shared genres, actors and languages |
| MovieProperties.UpdateThenGet | src/routes/movies.py:161-162 | after an update the movie reads back exactly when the resulting name and score pass the response schema, and then with each set field's new value and each unset field's old value, and its country, genres, actors and languages unchanged |
| MovieProperties.UpdateOnlyScore | src/routes/movies.py:161-162 | an update that sets only the score changes that movie's score and nothing else in the store |
| MovieProperties.UpdateRefusesSetDate | src/schemas/movies.py:83 | with the update schema as written, any payload that sets a date fails with Invalid and changes nothing |
| MovieProperties.UpdateLongNameBreaksGet | src/schemas/movies.py:82 | with the update schema as written, a 256-character name commits, and afterwards reading the movie fails with ServerError |
| MovieProperties.CorrectedUpdateSetsDate | src/schemas/movies.py:83 | with the corrected validator, a date at most today + 365 is stored and the movie reads back with it |
| MovieProperties.CorrectedUpdateThenGet | src/routes/movies.py:161-162 | a committed corrected update reads back with the merged fields and unchanged links, and a movie that could be read before still can |
| MovieProperties.CorrectedUpdateKeepsPresentable | src/schemas/movies.py:81-88 | the corrected update keeps every stored movie readable |
| MovieProperties.CreateDeleteKeepPresentable | src/schemas/movies.py:8-42 | create and delete keep every stored movie readable |

## Findings

| source | as written | input that shows it | evidently intended | confidence | as-written member | corrected member |
|---|---|---|---|---|---|---|
| src/schemas/movies.py:83 | the update schema annotates its `date` field with the name `date`, which the class body has just bound to the default None, so the field's type is the None type and any date is refused | a PATCH payload that sets `date` to any day fails validation | a date may be set on update, bounded as on create | high, not executed | MovieSchemas.ValidateUpdate, MovieProperties.UpdateRefusesSetDate | MovieSchemas.ValidateUpdateCorrected, MovieProperties.CorrectedUpdateSetsDate |
| src/schemas/movies.py:82 | the update schema's name has no length bound, while the response schemas refuse a name longer than 255 characters | a PATCH payload setting a 256-character name commits, then reading that movie fails with a server error | a set name is bounded by 255 characters, as on create | medium, not executed | MovieRoutes.UpdateMovie, MovieProperties.UpdateLongNameBreaksGet | MovieRoutes.UpdateMovieCorrected, MovieProperties.CorrectedUpdateKeepsPresentable |

## Left out

- HTTP routing, dependency injection, status codes and error detail strings. Errors are the `Error` kinds.
- The URL text of the page links. A link is modelled by the page number and page size it carries.
- The pagination library's internals. A page is a slice of the newest-first order, and the page count is ceil(total / size).
- Session mechanics (execute, flush, commit, refresh, eager-load options). They are direct reads and writes of the tables, with one transaction per operation.
- Floating point. Score, budget and revenue are reals, and only their range comparisons matter.
- `date.today()`. Today is a parameter.
- Concurrent requests, including two creates racing to add the same lookup row.
- The status enumeration, which is defined in database models that are not part of this model. Status is an opaque string value.
- Nullability of the database columns. An update payload field is either unset or set to a value; a field explicitly set to null is not modelled.
- The store's rejection causes on update, which the catch-all handler collapses into one error. Any failure other than the unique (name, date) constraint is the `storeFails` parameter.
- The country's optional display name. The service never writes it, and new countries are created without one.
- A store failure while committing a create or a delete (src/routes/movies.py:147-148). The model has no failure path after create's first write, and a delete of a stored movie always succeeds.
- The join-table rows. A movie keeps its linked ids as ordered lists. A name repeated in one list gives the same id twice. The model stores both links and shows the row once, as the eager joined load does. If the join table is keyed on the (movie, row) pair, the source's commit refuses the repeated pair instead; that constraint is in database models that are not part of this model, so the model does not capture that failure.
- Response serialisation beyond the checks the response schemas repeat. The detail and summary datatypes carry the same fields.
- GetMovie: the release-date check of the response schema is not modelled on reads, because it compares the stored date with the clock at read time and reads take no clock. A stored date was checked when it was written, and with a clock that does not go back it passes again.
- ListMovies: the same read-time release-date check on each listed movie is not modelled, for the same reason.
- GetMovie: the order in which the genres, actors and languages of a detail come back is not specified by the source, since the eager loads carry no ordering. The model returns them in the order the links were stored, so the order clause of CreateThenGet holds for the model only. The set of rows returned, each once, is the same either way.
