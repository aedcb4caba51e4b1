/**
 * The REST controller for exercise records: the date check, the validation guards that
 * POST and PUT run before touching the store, and the translation of each route's store
 * outcome into an HTTP status and JSON body.
 *
 * A handler is modelled as a function of the request and of the outcome the store's
 * promise settles to; it returns the store call it makes (if any) together with the
 * response it sends. Where the handler returns before calling the store, the outcome
 * argument plays no part.
 */
module ExercisesController {
  import opened EcmaScript

  // ---------------------------------------------------------------------------
  // Requests, store calls and responses
  // ---------------------------------------------------------------------------

  /** The fields a POST or PUT body may carry; None when the body lacks the field. */
  datatype Body = Body(
    name: Option<string>,
    reps: Option<string>,
    weight: Option<string>,
    unit: Option<string>,
    date: Option<string>)

  /** The query string of GET /exercises; only `reps` is read. */
  datatype Query = Query(reps: Option<string>)

  /** A stored exercise document as the store hands it back (reps and weight are
      Numbers after the schema's cast). */
  datatype Exercise = Exercise(id: string, name: string, reps: real, weight: real, unit: string, date: string)

  datatype Filter = AllExercises | RepsEquals(reps: string)

  /** The calls the controller makes into the data-access layer. */
  datatype StoreCall =
    | CreateExercise(name: string, reps: string, weight: string, unit: string, date: string)
    | FindExercises(filter: Filter, projection: string, limit: int)
    | FindExerciseById(id: string)
    | ReplaceExercise(id: string, name: string, reps: string, weight: string, unit: string, date: string)
    | DeleteById(id: string)

  /** What a store promise settles to. */
  datatype Settled<T> = Fulfilled(value: T) | Rejected

  datatype Payload =
    | ErrorMessage(message: string)
    | Document(exercise: Exercise)
    | Documents(exercises: seq<Exercise>)
    | Echo(id: string, name: string, reps: string, weight: string, unit: string, date: string)
    | NoContent

  datatype Response = Response(status: int, payload: Payload)

  /** One handled request: the store call made, if any, and the response sent. */
  datatype Exchange = Exchange(call: Option<StoreCall>, response: Response)

  const InvalidRequest := Response(400, ErrorMessage("Invalid request"))
  const NotFound := Response(404, ErrorMessage("Not found"))
  const RequestFailed := Response(400, ErrorMessage("Request failed"))

  /** `res.json(v)` without a preceding `res.status(...)` sends status 200. */
  const DefaultStatus := 200

  // ---------------------------------------------------------------------------
  // isDateValid
  // ---------------------------------------------------------------------------

  /** The pattern /^\d\d-\d\d-\d\d$/. */
  const DateFormat: seq<Atom> :=
    [AnyDigit, AnyDigit, Literal('-'), AnyDigit, AnyDigit, Literal('-'), AnyDigit, AnyDigit]

  predicate IsDateValid(date: string) {
    MatchesWhole(DateFormat, date)
  }

  /** A date is valid exactly when it has eight characters, digits at positions
      0, 1, 3, 4, 6 and 7 and '-' at positions 2 and 5; no calendar check is made. */
  lemma IsDateValidIff(d: string)
    ensures IsDateValid(d) <==>
      && |d| == 8
      && IsDigit(d[0]) && IsDigit(d[1]) && d[2] == '-'
      && IsDigit(d[3]) && IsDigit(d[4]) && d[5] == '-'
      && IsDigit(d[6]) && IsDigit(d[7])
  {
    MatchesWholePointwise(DateFormat, d);
    if |d| == 8 {
      assert AtomMatches(DateFormat[0], d[0]) <==> IsDigit(d[0]);
      assert AtomMatches(DateFormat[1], d[1]) <==> IsDigit(d[1]);
      assert AtomMatches(DateFormat[2], d[2]) <==> d[2] == '-';
      assert AtomMatches(DateFormat[3], d[3]) <==> IsDigit(d[3]);
      assert AtomMatches(DateFormat[4], d[4]) <==> IsDigit(d[4]);
      assert AtomMatches(DateFormat[5], d[5]) <==> d[5] == '-';
      assert AtomMatches(DateFormat[6], d[6]) <==> IsDigit(d[6]);
      assert AtomMatches(DateFormat[7], d[7]) <==> IsDigit(d[7]);
    }
  }

  // ---------------------------------------------------------------------------
  // Validation
  // ---------------------------------------------------------------------------

  /** JavaScript truthiness of a body field: present and not the empty string. */
  predicate Truthy(v: Option<string>) {
    v.Some? && v.value != ""
  }

  /** String(v) as parseInt applies it to its argument: a missing field reads "undefined". */
  function ArgumentText(v: Option<string>): string {
    match v
    case None => "undefined"
    case Some(s) => s
  }

  predicate AllPresent(body: Body) {
    Truthy(body.name) && Truthy(body.reps) && Truthy(body.weight) && Truthy(body.unit) && Truthy(body.date)
  }

  /** parseInt(v, 10) is a number greater than zero. */
  predicate PositiveIntField(v: string) {
    ParseIntPrefix(v).Some? && ParseIntPrefix(v).value > 0
  }

  predicate IsUnitField(v: string) {
    Trim(v) == "kgs" || Trim(v) == "lbs"
  }

  /** The validation contract of POST and PUT, one condition per field. */
  predicate Validate(body: Body) {
    && AllPresent(body)
    && Trim(body.name.value) != ""
    && PositiveIntField(body.reps.value)
    && PositiveIntField(body.weight.value)
    && IsUnitField(body.unit.value)
    && IsDateValid(body.date.value)
  }

  /** The guard `v !== +v || v <= 0` on a parsed count. */
  predicate CountGuardFires(v: Number) {
    !StrictEquals(v, UnaryPlus(v)) || LessOrEqual(v, Int(0))
  }

  /** Comparing a Number with its own unary plus only catches NaN, so the count guard
      fires exactly when parseInt gives NaN or a value of at most zero. */
  lemma CountGuardFiresIff(v: string)
    ensures CountGuardFires(ParseInt(v)) <==> ParseIntPrefix(v).None? || ParseIntPrefix(v).value <= 0
    ensures CountGuardFires(ParseInt(v)) <==> !PositiveIntField(v)
  {
  }

  /** The guard chain as the handler writes it: each guard in order, the first that fires
      sends 400 "Invalid request". None means every guard let the body through.
      Numeric guards compare parseInt's Number with `!==` and `<=`, under which NaN is
      unequal to itself and not below zero. */
  function GuardChain(body: Body): (early: Option<Response>)
    ensures early.None? <==> Validate(body)
    ensures early.Some? ==> early.value == InvalidRequest
  {
    var repsValue := ParseInt(ArgumentText(body.reps));
    var weightValue := ParseInt(ArgumentText(body.weight));
    CountGuardFiresIff(ArgumentText(body.reps));
    CountGuardFiresIff(ArgumentText(body.weight));
    if !Truthy(body.name) || !Truthy(body.reps) || !Truthy(body.weight) || !Truthy(body.unit) || !Truthy(body.date) then
      Some(InvalidRequest)
    else if Trim(body.name.value) == "" || |body.name.value| == 0 then
      Some(InvalidRequest)
    else if CountGuardFires(repsValue) then
      Some(InvalidRequest)
    else if CountGuardFires(weightValue) then
      Some(InvalidRequest)
    else if Trim(body.unit.value) != "kgs" && Trim(body.unit.value) != "lbs" then
      Some(InvalidRequest)
    else if !IsDateValid(body.date.value) then
      Some(InvalidRequest)
    else
      None
  }

  /** A count field is accepted exactly when its numeral, after whitespace and a sign,
      is unsigned or '+'-signed and has a non-zero digit; what follows the digits is ignored. */
  lemma PositiveIntFieldOfNumeral(ws: string, sign: string, digits: string, rest: string)
    requires NumeralShape(ws, sign, digits, rest)
    ensures PositiveIntField(ws + sign + digits + rest)
        <==> sign != "-" && exists i :: 0 <= i < |digits| && digits[i] != '0'
  {
    ParseIntPrefixOfNumeral(ws, sign, digits, rest);
    DecimalValueZero(digits);
  }

  /** A count field with no digits after its whitespace and sign is rejected. */
  lemma PositiveIntFieldWithoutDigits(ws: string, sign: string, rest: string)
    requires AllWhitespace(ws)
    requires sign == "" || sign == "+" || sign == "-"
    requires rest == [] || (!IsDigit(rest[0]) && (sign != "" || (!IsWhitespace(rest[0]) && rest[0] != '+' && rest[0] != '-')))
    ensures !PositiveIntField(ws + sign + rest)
  {
    ParseIntPrefixNaN(ws, sign, rest);
  }

  datatype Unit = Kgs | Lbs

  function UnitName(u: Unit): string {
    match u
    case Kgs => "kgs"
    case Lbs => "lbs"
  }

  /** A unit field is accepted with any whitespace around the unit name. */
  lemma UnitFieldPadded(lead: string, u: Unit, trail: string)
    requires AllWhitespace(lead) && AllWhitespace(trail)
    ensures IsUnitField(lead + UnitName(u) + trail)
  {
    TrimPadded(lead, UnitName(u), trail);
  }

  /** An accepted unit field is a unit name with whitespace around it. */
  lemma UnitFieldShape(v: string)
    requires IsUnitField(v)
    ensures AllWhitespace(LeadingWhitespace(v)) && AllWhitespace(TrailingWhitespace(v))
    ensures v == LeadingWhitespace(v) + "kgs" + TrailingWhitespace(v)
         || v == LeadingWhitespace(v) + "lbs" + TrailingWhitespace(v)
  {
    TrimDecomposes(v);
  }

  /** An exercise as a client means it, before it is sent as text: a name, two counts, one of the two units, a date. */
  datatype Fields = Fields(name: string, reps: nat, weight: nat, unit: Unit, date: string)

  /** What the guards demand of such an exercise: a name that is not blank, positive counts, a well-formed date. */
  predicate WellFormed(f: Fields) {
    !AllWhitespace(f.name) && f.reps > 0 && f.weight > 0 && IsDateValid(f.date)
  }

  /** The body a client sends for f, with counts written in decimal. */
  function Render(f: Fields): Body {
    Body(Some(f.name), Some(DecimalString(f.reps)), Some(DecimalString(f.weight)), Some(UnitName(f.unit)), Some(f.date))
  }

  /** The guards accept the rendering of an exercise exactly when the exercise is well formed. */
  lemma ValidateRendered(f: Fields)
    ensures Validate(Render(f)) <==> WellFormed(f)
  {
    var b := Render(f);
    PositiveIntFieldRendered(f.reps);
    PositiveIntFieldRendered(f.weight);
    assert IsUnitField(UnitName(f.unit)) by {
      assert "" + UnitName(f.unit) + "" == UnitName(f.unit);
      UnitFieldPadded("", f.unit, "");
    }
    assert Truthy(b.reps) && Truthy(b.weight) && Truthy(b.unit);
    assert IsDateValid(f.date) ==> Truthy(b.date);
    assert !AllWhitespace(f.name) ==> Truthy(b.name);
    assert Trim(f.name) != "" <==> !AllWhitespace(f.name);
  }

  /** The decimal rendering of a count is accepted exactly when the count is positive. */
  lemma PositiveIntFieldRendered(n: nat)
    ensures PositiveIntField(DecimalString(n)) <==> n > 0
  {
    ParseIntRoundTrip(n, "");
    assert DecimalString(n) + "" == DecimalString(n);
  }

  // ---------------------------------------------------------------------------
  // Route handlers
  // ---------------------------------------------------------------------------

  /** POST /exercises. */
  function Create(body: Body, outcome: Settled<Exercise>): (x: Exchange)
    ensures x.call.None? <==> !Validate(body)
    ensures !Validate(body) ==> x.response == InvalidRequest
    ensures Validate(body) ==>
      x.call == Some(CreateExercise(body.name.value, body.reps.value, body.weight.value, body.unit.value, body.date.value))
    ensures Validate(body) && outcome.Fulfilled? ==> x.response == Response(201, Document(outcome.value))
    ensures Validate(body) && outcome.Rejected? ==> x.response == RequestFailed
  {
    match GuardChain(body)
    case Some(early) => Exchange(None, early)
    case None =>
      var call := CreateExercise(body.name.value, body.reps.value, body.weight.value, body.unit.value, body.date.value);
      match outcome
      case Fulfilled(e) => Exchange(Some(call), Response(201, Document(e)))
      case Rejected => Exchange(Some(call), RequestFailed)
  }

  /** GET /exercises/:_id. */
  function Get(id: string, outcome: Settled<Option<Exercise>>): (x: Exchange)
    ensures x.call == Some(FindExerciseById(id))
    ensures outcome == Fulfilled(None) ==> x.response == NotFound
    ensures forall e :: outcome == Fulfilled(Some(e)) ==> x.response == Response(DefaultStatus, Document(e))
    ensures outcome.Rejected? ==> x.response == RequestFailed
  {
    var call := FindExerciseById(id);
    match outcome
    case Fulfilled(Some(e)) => Exchange(Some(call), Response(DefaultStatus, Document(e)))
    case Fulfilled(None) => Exchange(Some(call), NotFound)
    case Rejected => Exchange(Some(call), RequestFailed)
  }

  /** The filter GET /exercises passes to the store. */
  function ListFilter(query: Query): (f: Filter)
    ensures f.RepsEquals? <==> query.reps.Some?
    ensures f.RepsEquals? ==> f.reps == query.reps.value
  {
    if query.reps.Some? then RepsEquals(query.reps.value) else AllExercises
  }

  /** GET /exercises. */
  function List(query: Query, outcome: Settled<seq<Exercise>>): (x: Exchange)
    ensures x.call == Some(FindExercises(ListFilter(query), "", 0))
    ensures outcome.Fulfilled? ==> x.response == Response(DefaultStatus, Documents(outcome.value))
    ensures outcome.Rejected? ==> x.response == RequestFailed
  {
    var call := FindExercises(ListFilter(query), "", 0);
    match outcome
    case Fulfilled(es) => Exchange(Some(call), Response(DefaultStatus, Documents(es)))
    case Rejected => Exchange(Some(call), RequestFailed)
  }

  /** PUT /exercises/:_id; the store's outcome is the number of documents modified. */
  function Update(id: string, body: Body, outcome: Settled<int>): (x: Exchange)
    ensures x.call.None? <==> !Validate(body)
    ensures !Validate(body) ==> x.response == InvalidRequest
    ensures Validate(body) ==>
      x.call == Some(ReplaceExercise(id, body.name.value, body.reps.value, body.weight.value, body.unit.value, body.date.value))
    ensures Validate(body) && outcome == Fulfilled(1) ==>
      x.response == Response(DefaultStatus,
        Echo(id, body.name.value, body.reps.value, body.weight.value, body.unit.value, body.date.value))
    ensures Validate(body) && outcome.Fulfilled? && outcome.value != 1 ==> x.response == NotFound
    ensures Validate(body) && outcome.Rejected? ==> x.response == RequestFailed
  {
    match GuardChain(body)
    case Some(early) => Exchange(None, early)
    case None =>
      var call := ReplaceExercise(id, body.name.value, body.reps.value, body.weight.value, body.unit.value, body.date.value);
      match outcome
      case Fulfilled(n) =>
        if n == 1 then
          Exchange(Some(call), Response(DefaultStatus,
            Echo(id, body.name.value, body.reps.value, body.weight.value, body.unit.value, body.date.value)))
        else
          Exchange(Some(call), NotFound)
      case Rejected => Exchange(Some(call), RequestFailed)
  }

  /** DELETE /exercises/:_id as written; the store's outcome is the number of documents
      deleted. The failure path sends its error body without setting a status. */
  function Delete(id: string, outcome: Settled<int>): (x: Exchange)
    ensures x.call == Some(DeleteById(id))
    ensures outcome == Fulfilled(1) ==> x.response == Response(204, NoContent)
    ensures outcome.Fulfilled? && outcome.value != 1 ==> x.response == NotFound
    ensures outcome.Rejected? ==> x.response == Response(DefaultStatus, ErrorMessage("Request failed"))
  {
    var call := DeleteById(id);
    match outcome
    case Fulfilled(n) => Exchange(Some(call), if n == 1 then Response(204, NoContent) else NotFound)
    case Rejected => Exchange(Some(call), Response(DefaultStatus, ErrorMessage("Request failed")))
  }

  /** DELETE /exercises/:_id with the failure path answering 400 like every other route. */
  function DeleteIntended(id: string, outcome: Settled<int>): (x: Exchange)
    ensures x.call == Some(DeleteById(id))
    ensures outcome == Fulfilled(1) ==> x.response == Response(204, NoContent)
    ensures outcome.Fulfilled? && outcome.value != 1 ==> x.response == NotFound
    ensures outcome.Rejected? ==> x.response == RequestFailed
  {
    var call := DeleteById(id);
    match outcome
    case Fulfilled(n) => Exchange(Some(call), if n == 1 then Response(204, NoContent) else NotFound)
    case Rejected => Exchange(Some(call), RequestFailed)
  }
}
