/** The request schemas of the movie catalog: the field bounds of the create
    and update payloads and the release-date validator, as predicates and
    validating functions. */
module MovieSchemas {
  import opened Results

  /** A calendar date, as a number of days since a fixed epoch. */
  type Day = int

  /** The stored value of a movie status; the status enumeration belongs to
      the database models, so it is kept opaque here. */
  type Status = string

  const MaxNameLength: nat := 255
  const MinScore: real := 0.0
  const MaxScore: real := 100.0
  const MaxCountryCodeLength: nat := 3
  /** How far in the future a release date may lie, in days. */
  const MaxDaysAhead: int := 365

  predicate ValidName(name: string) { |name| <= MaxNameLength }

  predicate ValidScore(score: real) { MinScore <= score <= MaxScore }

  predicate NonNegative(amount: real) { 0.0 <= amount }

  predicate ValidCountryCode(code: string) { |code| <= MaxCountryCodeLength }

  predicate DateNotTooFar(date: Day, today: Day) { date <= today + MaxDaysAhead }

  /** The release-date validator: the date is returned unchanged when it is at
      most one year after today, and refused otherwise. */
  function CheckReleaseDate(date: Day, today: Day): (r: Result<Day>)
    ensures r.Ok? <==> date <= today + 365
    ensures r.Ok? ==> r.value == date
    ensures r.Err? ==> r.error == Invalid
  {
    if DateNotTooFar(date, today) then Ok(date) else Err(Invalid)
  }

  /** A create payload as it arrives: the three name lists may be omitted. */
  datatype CreateRequest = CreateRequest(
    name: string, date: Day, score: real, overview: string, status: Status,
    budget: real, revenue: real, country: string,
    genres: Option<seq<string>>, actors: Option<seq<string>>, languages: Option<seq<string>>)

  /** A validated create payload, with omitted lists defaulted. */
  datatype MovieCreate = MovieCreate(
    name: string, date: Day, score: real, overview: string, status: Status,
    budget: real, revenue: real, country: string,
    genres: seq<string>, actors: seq<string>, languages: seq<string>)

  /** The default factory of the list fields: an omitted list is empty. */
  function OrEmpty(names: Option<seq<string>>): seq<string>
  {
    match names
    case None => []
    case Some(list) => list
  }

  predicate ValidCreate(req: CreateRequest, today: Day)
  {
    && ValidName(req.name)
    && ValidScore(req.score)
    && NonNegative(req.budget)
    && NonNegative(req.revenue)
    && ValidCountryCode(req.country)
  }

  /** Validation of a create payload: accepted exactly when every bound holds,
      and then every field is carried over as given, omitted lists as []. */
  function ValidateCreate(req: CreateRequest, today: Day): (r: Result<MovieCreate>)
    ensures r.Ok? <==>
              && |req.name| <= 255
              && req.date <= today + 365
              && 0.0 <= req.score <= 100.0
              && 0.0 <= req.budget
              && 0.0 <= req.revenue
              && |req.country| <= 3
    ensures r.Err? ==> r.error == Invalid
    ensures r.Ok? ==>
              && r.value.name == req.name && r.value.date == req.date
              && r.value.score == req.score && r.value.overview == req.overview
              && r.value.status == req.status && r.value.budget == req.budget
              && r.value.revenue == req.revenue && r.value.country == req.country
    ensures r.Ok? ==>
              && r.value.genres == (if req.genres.None? then [] else req.genres.value)
              && r.value.actors == (if req.actors.None? then [] else req.actors.value)
              && r.value.languages == (if req.languages.None? then [] else req.languages.value)
  {
    if !ValidCreate(req, today) then Err(Invalid)
    else
      match CheckReleaseDate(req.date, today)
      case Err(e) => Err(e)
      case Ok(date) =>
        Ok(MovieCreate(req.name, date, req.score, req.overview, req.status,
                       req.budget, req.revenue, req.country,
                       OrEmpty(req.genres), OrEmpty(req.actors), OrEmpty(req.languages)))
  }

  /** An update payload: every field is optional, None meaning "not set". */
  datatype UpdateRequest = UpdateRequest(
    name: Option<string>, date: Option<Day>, score: Option<real>,
    overview: Option<string>, status: Option<Status>,
    budget: Option<real>, revenue: Option<real>)

  /** The update schema as written: score, budget and revenue carry the
      create bounds, name carries none, and the date field admits no value
      at all. Its annotation `Optional[date]` names the field itself, which
      the class body has already bound to the default None, so the field's
      type is the None type and any date in the payload is refused. */
  predicate ValidUpdate(u: UpdateRequest)
  {
    && u.date.None?
    && (u.score.Some? ==> ValidScore(u.score.value))
    && (u.budget.Some? ==> NonNegative(u.budget.value))
    && (u.revenue.Some? ==> NonNegative(u.revenue.value))
  }

  /** Validation of an update payload as the schema is written: every field
      may be left unset; a set score, budget or revenue must satisfy the same
      bound as on create; a set date is refused; the name is not checked.
      An accepted payload is unchanged. */
  function ValidateUpdate(u: UpdateRequest): (r: Result<UpdateRequest>)
    ensures r.Ok? <==>
              && u.date.None?
              && (u.score.Some? ==> 0.0 <= u.score.value <= 100.0)
              && (u.budget.Some? ==> 0.0 <= u.budget.value)
              && (u.revenue.Some? ==> 0.0 <= u.revenue.value)
    ensures r.Ok? ==> r.value == u
    ensures r.Err? ==> r.error == Invalid
  {
    if ValidUpdate(u) then Ok(u) else Err(Invalid)
  }

  /** The update schema as evidently intended: each field, when set, obeys
      the bound it has on create, and a date may be set. */
  predicate ValidUpdateCorrected(u: UpdateRequest, today: Day)
  {
    && (u.name.Some? ==> ValidName(u.name.value))
    && (u.date.Some? ==> DateNotTooFar(u.date.value, today))
    && (u.score.Some? ==> ValidScore(u.score.value))
    && (u.budget.Some? ==> NonNegative(u.budget.value))
    && (u.revenue.Some? ==> NonNegative(u.revenue.value))
  }

  /** Validation of an update payload with the create bounds on every set
      field: a name of at most 255 characters, a date at most 365 days after
      today, a score in [0, 100], a non-negative budget and revenue. */
  function ValidateUpdateCorrected(u: UpdateRequest, today: Day): (r: Result<UpdateRequest>)
    ensures r.Ok? <==>
              && (u.name.Some? ==> |u.name.value| <= 255)
              && (u.date.Some? ==> u.date.value <= today + 365)
              && (u.score.Some? ==> 0.0 <= u.score.value <= 100.0)
              && (u.budget.Some? ==> 0.0 <= u.budget.value)
              && (u.revenue.Some? ==> 0.0 <= u.revenue.value)
    ensures r.Ok? ==> r.value == u
    ensures r.Err? ==> r.error == Invalid
  {
    if ValidUpdateCorrected(u, today) then Ok(u) else Err(Invalid)
  }

  /** One `field = value` pair of an update payload's set fields. */
  datatype Assignment =
    | SetName(name: string)
    | SetDate(date: Day)
    | SetScore(score: real)
    | SetOverview(overview: string)
    | SetStatus(status: Status)
    | SetBudget(budget: real)
    | SetRevenue(revenue: real)

  /** The position of an assignment's field in the update schema. */
  function FieldIndex(a: Assignment): nat
  {
    match a
    case SetName(_) => 0
    case SetDate(_) => 1
    case SetScore(_) => 2
    case SetOverview(_) => 3
    case SetStatus(_) => 4
    case SetBudget(_) => 5
    case SetRevenue(_) => 6
  }

  /** Whether `a` is one of the fields set in `u`, with the value `u` gives it. */
  predicate IsSetIn(a: Assignment, u: UpdateRequest)
  {
    match a
    case SetName(v) => u.name == Some(v)
    case SetDate(v) => u.date == Some(v)
    case SetScore(v) => u.score == Some(v)
    case SetOverview(v) => u.overview == Some(v)
    case SetStatus(v) => u.status == Some(v)
    case SetBudget(v) => u.budget == Some(v)
    case SetRevenue(v) => u.revenue == Some(v)
  }

  /** The field at position `k` of the update schema, when `u` sets it. */
  function FieldAt(u: UpdateRequest, k: nat): (r: Option<Assignment>)
    requires k < 7
    ensures r.Some? ==> FieldIndex(r.value) == k && IsSetIn(r.value, u)
  {
    if k == 0 then (if u.name.Some? then Some(SetName(u.name.value)) else None)
    else if k == 1 then (if u.date.Some? then Some(SetDate(u.date.value)) else None)
    else if k == 2 then (if u.score.Some? then Some(SetScore(u.score.value)) else None)
    else if k == 3 then (if u.overview.Some? then Some(SetOverview(u.overview.value)) else None)
    else if k == 4 then (if u.status.Some? then Some(SetStatus(u.status.value)) else None)
    else if k == 5 then (if u.budget.Some? then Some(SetBudget(u.budget.value)) else None)
    else (if u.revenue.Some? then Some(SetRevenue(u.revenue.value)) else None)
  }

  /** The set fields of `u` from schema position `k` on, in schema order. */
  function SetFieldsFrom(u: UpdateRequest, k: nat): (fs: seq<Assignment>)
    requires k <= 7
    ensures forall i :: 0 <= i < |fs| ==> k <= FieldIndex(fs[i]) && IsSetIn(fs[i], u)
    ensures forall i, j :: 0 <= i < j < |fs| ==> FieldIndex(fs[i]) < FieldIndex(fs[j])
    decreases 7 - k
  {
    if k == 7 then []
    else
      var rest := SetFieldsFrom(u, k + 1);
      var here := FieldAt(u, k);
      if here.None? then rest
      else
        var fs := [here.value] + rest;
        assert forall i :: 1 <= i < |fs| ==> fs[i] == rest[i - 1];
        fs
  }

  /** The set fields of an update payload, in schema order (the dump that
      leaves out unset fields): each assignment carries the payload's value
      and no field comes twice. That every set field is there is part of
      the update lemmas, which apply these assignments to a movie. */
  function SetFields(u: UpdateRequest): (fs: seq<Assignment>)
    ensures forall i :: 0 <= i < |fs| ==> IsSetIn(fs[i], u)
    ensures forall i, j :: 0 <= i < j < |fs| ==> FieldIndex(fs[i]) < FieldIndex(fs[j])
  {
    SetFieldsFrom(u, 0)
  }
}
