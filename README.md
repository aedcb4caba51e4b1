# Exercise tracker REST controller, modelled in Dafny

The backend of the exercise tracker keeps one kind of record, an exercise with a name,
reps, weight, unit and date. Its controller exposes five routes: create, get by id, list,
replace and delete. This project models the controller's own logic:

- the date-format check `isDateValid`;
- the chain of validation guards that POST and PUT run before any store call;
- how each route turns the store's outcome into an HTTP status and a JSON body.

The data-access layer is not modelled. Its results are inputs: each handler is a
function of the request and of what the store's promise would settle to (`Settled<T>`).
The handler returns an `Exchange`, which holds the store call it makes (`None` when it
returns early) and the response it sends.

Files:

- `ecmascript.dfy` (module `EcmaScript`): the JavaScript built-ins the controller uses.
  - `String.prototype.trim` over the fixed WhiteSpace and LineTerminator set of ECMA-262.
  - `parseInt(s, 10)` as described in section 19.2.5 of ECMA-262: skip leading whitespace, take one optional sign, read the longest run of decimal digits. NaN is `None`.
  - Number comparison with NaN (`===`, `<=`, unary `+`).
  - `RegExp.prototype.test` for an anchored pattern made of `\d` and literal characters.
- `exercises_controller.dfy` (module `ExercisesController`): the request, store-call and response types; `IsDateValid`; the guard chain as written (`GuardChain`) next to the per-field predicate `Validate`; and the five route handlers.
- `controller_properties.dfy` (module `ControllerProperties`): lemmas that relate the routes to each other, worked examples, and the Delete finding.

Two behaviours of the code that are easy to misread:

- **Count fields.** The count guard compares `parseInt`'s result with itself, so it rejects only NaN. `"10abc"` and `"12.5"` are accepted (`CountGuardFiresIff`, `TrailingLettersIgnored`, `FractionTruncated`).
- **Update count.** PUT answers 404 to every modified count other than exactly 1 (`Update`).

## Model

| member | source | states |
|---|---|---|
| `EcmaScript.Trim` | exercises-rest/exercises_controller.mjs:32 | trim's result neither starts nor ends with whitespace, and it is empty exactly when the input is all whitespace, so a name is blank after trimming exactly when it has no non-whitespace character |
| `EcmaScript.TrimPadded` | exercises-rest/exercises_controller.mjs:44 | trimming any whitespace padding off a text whose ends are not whitespace gives back that text |
| `EcmaScript.TrimDecomposes` | exercises-rest/exercises_controller.mjs:44 | every string is its trimmed value with whitespace before and after it |
| `EcmaScript.DigitRun` | exercises-rest/exercises_controller.mjs:26-27 | the digits parseInt reads are the longest prefix made only of decimal digits |
| `EcmaScript.ParseIntPrefixSplit` | exercises-rest/exercises_controller.mjs:26-27 | every string is cut the way parseInt reads it: all of its leading whitespace, then a sign whenever one follows, the digit run after them, and a rest that does not start with a digit; parseInt is NaN exactly when the digit run is empty, and otherwise the signed value of the digits |
| `EcmaScript.ParseIntPrefixSomeIff` | exercises-rest/exercises_controller.mjs:26-27 | parseInt reads a number from a string exactly when the string is whitespace, an optional sign and at least one digit, followed by anything that does not start with a digit |
| `EcmaScript.ParseIntPrefixOfNumeral` | exercises-rest/exercises_controller.mjs:26-27 | for whitespace, an optional sign, a digit run and any rest that does not start with a digit, parseInt gives the signed value of the digits and ignores the rest |
| `EcmaScript.ParseIntPrefixNaN` | exercises-rest/exercises_controller.mjs:26-27 | parseInt is NaN when no digit follows the whitespace and one sign (for example a second sign) |
| `EcmaScript.ParseIntRoundTrip` | exercises-rest/exercises_controller.mjs:26-27 | the decimal rendering of n followed by any non-digit text parses back to n |
| `EcmaScript.MatchesWholePointwise` | exercises-rest/exercises_controller.mjs:17-18 | an anchored pattern of one-character atoms matches exactly the strings of its length whose every character matches the atom at the same position |
| `ExercisesController.IsDateValidIff` | exercises-rest/exercises_controller.mjs:14-19 | a date is valid exactly when it has eight characters, digits at positions 0, 1, 3, 4, 6 and 7 and '-' at 2 and 5; no calendar check |
| `ExercisesController.CountGuardFiresIff` | exercises-rest/exercises_controller.mjs:36-42 | the guard that tests `v !== +v` or `v <= 0` fires exactly when parseInt gives NaN or a value of at most zero |
| `ExercisesController.GuardChain` | exercises-rest/exercises_controller.mjs:25-51 | the early-return chain (also at lines 111-137) lets a body through exactly when `Validate` holds: all five fields present and non-empty, name non-blank after trim, both counts positive under parseInt, trimmed unit `kgs` or `lbs`, date well formed; anything else gets 400 "Invalid request" |
| `ExercisesController.PositiveIntFieldOfNumeral` | exercises-rest/exercises_controller.mjs:36-42 | a count with a numeral is accepted exactly when the sign is not '-' and some digit is not '0', whatever follows the digits |
| `ExercisesController.PositiveIntFieldWithoutDigits` | exercises-rest/exercises_controller.mjs:36-42 | a count with no digit after its whitespace and sign is rejected |
| `ExercisesController.UnitFieldPadded` | exercises-rest/exercises_controller.mjs:44-46 | `kgs` or `lbs` with any whitespace around it is accepted |
| `ExercisesController.UnitFieldShape` | exercises-rest/exercises_controller.mjs:44-46 | an accepted unit is `kgs` or `lbs` with whitespace around it |
| `ExercisesController.ValidateRendered` | exercises-rest/exercises_controller.mjs:29-51 | the body a client sends for an exercise, counts written in decimal, is accepted exactly when the name is not blank, both counts are positive and the date is well formed |
| `ExercisesController.Create` | exercises-rest/exercises_controller.mjs:24-63 | no store call and 400 "Invalid request" exactly when validation fails; otherwise createExercise gets the untrimmed fields, and the response is 201 with the saved record or 400 "Request failed" |
| `ExercisesController.Get` | exercises-rest/exercises_controller.mjs:69-83 | looks up the path id; a record gives 200 with it, null gives 404 "Not found", a store failure gives 400 "Request failed" |
| `ExercisesController.ListFilter` | exercises-rest/exercises_controller.mjs:91-95 | the filter is on reps exactly when the query has a reps value, and uses that value unchanged |
| `ExercisesController.List` | exercises-rest/exercises_controller.mjs:90-104 | findExercises always gets that filter with projection '' and limit 0; the result is 200 with the list, or 400 "Request failed" |
| `ExercisesController.Update` | exercises-rest/exercises_controller.mjs:110-150 | rejects exactly what Create rejects, with no store call; otherwise replaceExercise gets the path id and untrimmed fields; a count of exactly 1 gives 200 echoing the path id and the body's strings, any other count 404, a failure 400 "Request failed" |
| `ExercisesController.Delete` | exercises-rest/exercises_controller.mjs:155-168 | as written: deleteById on the path id; count 1 gives 204 with no body, any other count 404, a failure status 200 with the error body |
| `ExercisesController.DeleteIntended` | exercises-rest/exercises_controller.mjs:164-167 | Delete with its failure path answering 400 "Request failed" |
| `ControllerProperties.PostAndPutAgree` | exercises-rest/exercises_controller.mjs:24-52 | POST and PUT (lines 110-138) make no store call for exactly the same bodies, and answer those with 400 "Invalid request" |
| `ControllerProperties.OmittedFieldRejected` | exercises-rest/exercises_controller.mjs:115-117 | an update that leaves out any field is rejected before the store, so there are no partial updates |
| `ControllerProperties.ResponsesAreConsistent` | exercises-rest/exercises_controller.mjs:24-168 | with Delete corrected, every route sends an error body exactly when its status is 400 or more, and only the statuses listed for that route |
| `ControllerProperties.DeleteFailureIsInconsistent` | exercises-rest/exercises_controller.mjs:164-167 | as written, a failed delete answers status 200 with an error body |
| `ControllerProperties.DeleteIntendedDiffersOnlyOnFailure` | exercises-rest/exercises_controller.mjs:155-167 | the correction changes only the failure path |
| `ControllerProperties.TrailingLettersIgnored` | exercises-rest/exercises_controller.mjs:36-38 | reps "10abc" parses as 10 and is accepted |
| `ControllerProperties.FractionTruncated` | exercises-rest/exercises_controller.mjs:40-42 | weight "12.5" parses as 12 and is accepted |
| `ControllerProperties.PaddedPlusAccepted` | exercises-rest/exercises_controller.mjs:26 | " +7" parses as 7 and is accepted |
| `ControllerProperties.ZeroRejected` | exercises-rest/exercises_controller.mjs:36 | "0" parses as 0 and is rejected |
| `ControllerProperties.NegativeRejected` | exercises-rest/exercises_controller.mjs:36 | "-5" parses as -5 and is rejected |
| `ControllerProperties.NonNumeralsAreNaN` | exercises-rest/exercises_controller.mjs:36 | "abc" and "--1" parse to NaN, and "abc" is rejected |
| `ControllerProperties.DateExamples` | exercises-rest/exercises_controller.mjs:16-19 | "01-15-23" and "99-99-99" are valid; "2023-01-15" and "1-15-23" are not |
| `ControllerProperties.BenchPressIsValid` | exercises-rest/exercises_controller.mjs:29-51 | the body {Bench Press, 10, 135, lbs, 01-15-23} passes every guard |
| `ControllerProperties.BenchPressIsCreated` | exercises-rest/exercises_controller.mjs:52-55 | that body is sent to createExercise unchanged and answered with 201 and the saved record |
| `ControllerProperties.YearFirstDateRejected` | exercises-rest/exercises_controller.mjs:48-50 | the same body with date "2023-01-15" gets 400 "Invalid request" and no store call |
| `ControllerProperties.PaddedUnitReachesStore` | exercises-rest/exercises_controller.mjs:130-141 | a unit with whitespace around `kgs` or `lbs` is accepted, and it reaches replaceExercise and the 200 echo still padded |

## Findings

| source | as written | input that shows it | evidently intended | confidence | as-written member | corrected member |
|---|---|---|---|---|---|---|
| exercises-rest/exercises_controller.mjs:164-167 | the catch handler of DELETE calls `res.send` with an error body and no status, so status 200 goes out | any delete whose store call fails (`Delete(id, Rejected)`) | `res.status(400).json({ Error: 'Request failed' })`, as in every other route's catch handler | not executed; high | `ControllerProperties.DeleteFailureIsInconsistent` (on `ExercisesController.Delete`) | `ExercisesController.DeleteIntended`, used by `ControllerProperties.ResponsesAreConsistent` |

## Left out

- exercises-rest/exercises_model.mjs is not part of this model. That covers the Mongoose connection, the schema, id generation, and the meaning of `modifiedCount` and `deletedCount`. Store results are free inputs of the handlers.
  - The schema casts reps and weight to Number. So `"10abc"` passes the controller but the store would then reject it, and the model reports that only as a store failure.
  - MongoDB's `modifiedCount` is 0 when a replacement equals the stored document. In that case PUT answers 404 for a record that exists. The model shows it only as `Update` mapping a count of 0 to 404.
- Express wiring is left out: `app.use`, `app.listen`, reading the port from the environment, JSON body parsing, and the promise plumbing. So are the `console.log`/`console.error` calls, which are logging only.
- Body and query values are modelled as strings or absent. JSON values of other types are not modelled; the code treats them as follows.
  - A JSON number for reps or weight goes through `parseInt` as `String(n)`. So every number of at least 1 passes the count guard, and so does a small number that `String` writes in exponent form, such as 0.0000005 (read as `"5e-7"`, so 5). If the other guards pass, the number reaches the store and the echoed body unchanged.
  - A JSON number for the date gets 400: 0 at line 29, and any other number at line 48, because no number's `String` form matches the date pattern.
  - A truthy non-string name or unit (a non-zero number, an array, an object) that reaches line 32 or 44 makes `trim()` throw, and Express answers 500. A name or unit of 0 gets 400 at line 29.
  - A repeated `reps` query parameter is parsed by Express into an array, and that array reaches findExercises as the filter value unchanged.
- Numbers: parseInt's result is an unbounded integer. JavaScript rounds very long numerals to a double, or to Infinity. Rounding keeps the sign and keeps a positive value positive, so no guard decision changes. `-0` is modelled as 0; every comparison the guards make treats the two alike.
- Strings are sequences of Unicode scalar values. Unpaired UTF-16 surrogates cannot be written.
- GET /exercises/:_id sends the store's record as it is. `Exercise` stands for that opaque document.
- exercises-ui/src/App.js and exercises-ui/src/components/Navigation.js are not part of this model: they hold React routing and markup only.
