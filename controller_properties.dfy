/**
 * Properties that relate the controller's routes to one another, worked examples of the
 * validation contract, and the Delete route's failure status.
 */
module ControllerProperties {
  import opened EcmaScript
  import opened ExercisesController

  /** POST and PUT accept exactly the same bodies, and whatever either rejects it rejects
      with 400 "Invalid request" and no store call. */
  lemma PostAndPutAgree(body: Body, id: string, created: Settled<Exercise>, modified: Settled<int>)
    ensures Create(body, created).call.None? <==> Update(id, body, modified).call.None?
    ensures Create(body, created).call.None? ==>
      Create(body, created).response == InvalidRequest && Update(id, body, modified).response == InvalidRequest
  {
  }

  /** Update never applies part of a body: leaving any field out is rejected before the store is called. */
  lemma OmittedFieldRejected(id: string, body: Body, modified: Settled<int>)
    requires body.name.None? || body.reps.None? || body.weight.None? || body.unit.None? || body.date.None?
    ensures Update(id, body, modified) == Exchange(None, InvalidRequest)
  {
  }

  /** A response is consistent when it carries an error body exactly when its status is 400 or above. */
  predicate ConsistentStatus(r: Response) {
    r.payload.ErrorMessage? <==> r.status >= 400
  }

  /** Every route, with Delete's failure path corrected, sends consistent responses and only
      the statuses its route documents. */
  lemma ResponsesAreConsistent(
    body: Body, id: string, query: Query,
    created: Settled<Exercise>, found: Settled<Option<Exercise>>, listed: Settled<seq<Exercise>>,
    modified: Settled<int>, deleted: Settled<int>)
    ensures ConsistentStatus(Create(body, created).response)
    ensures ConsistentStatus(Get(id, found).response)
    ensures ConsistentStatus(List(query, listed).response)
    ensures ConsistentStatus(Update(id, body, modified).response)
    ensures ConsistentStatus(DeleteIntended(id, deleted).response)
    ensures Create(body, created).response.status in {201, 400}
    ensures Get(id, found).response.status in {200, 400, 404}
    ensures List(query, listed).response.status in {200, 400}
    ensures Update(id, body, modified).response.status in {200, 400, 404}
    ensures DeleteIntended(id, deleted).response.status in {204, 400, 404}
  {
    CreateIsConsistent(body, created);
    ReadsAreConsistent(id, query, found, listed);
    UpdateIsConsistent(id, body, modified);
    DeleteIntendedIsConsistent(id, deleted);
  }

  lemma ReadsAreConsistent(id: string, query: Query, found: Settled<Option<Exercise>>, listed: Settled<seq<Exercise>>)
    ensures ConsistentStatus(Get(id, found).response)
    ensures ConsistentStatus(List(query, listed).response)
    ensures Get(id, found).response.status in {200, 400, 404}
    ensures List(query, listed).response.status in {200, 400}
  {
  }

  lemma DeleteIntendedIsConsistent(id: string, deleted: Settled<int>)
    ensures ConsistentStatus(DeleteIntended(id, deleted).response)
    ensures DeleteIntended(id, deleted).response.status in {204, 400, 404}
  {
  }

  lemma CreateIsConsistent(body: Body, created: Settled<Exercise>)
    ensures ConsistentStatus(Create(body, created).response)
    ensures Create(body, created).response.status in {201, 400}
  {
    var r := Create(body, created).response;
    if !Validate(body) {
      assert r == InvalidRequest;
    } else if created.Rejected? {
      assert r == RequestFailed;
    } else {
      assert r == Response(201, Document(created.value));
    }
  }

  lemma UpdateIsConsistent(id: string, body: Body, modified: Settled<int>)
    ensures ConsistentStatus(Update(id, body, modified).response)
    ensures Update(id, body, modified).response.status in {200, 400, 404}
  {
    var r := Update(id, body, modified).response;
    if !Validate(body) {
      assert r == InvalidRequest;
    } else if modified.Rejected? {
      assert r == RequestFailed;
    } else if modified.value == 1 {
      assert r.status == 200 && r.payload.Echo?;
    } else {
      assert r == NotFound;
    }
  }

  /** As written, Delete answers a store failure with status 200 and an error body. */
  lemma DeleteFailureIsInconsistent(id: string)
    ensures Delete(id, Rejected).response == Response(200, ErrorMessage("Request failed"))
    ensures !ConsistentStatus(Delete(id, Rejected).response)
  {
  }

  /** The corrected Delete differs from the one written only on a store failure. */
  lemma DeleteIntendedDiffersOnlyOnFailure(id: string, deleted: Settled<int>)
    ensures deleted.Fulfilled? ==> DeleteIntended(id, deleted) == Delete(id, deleted)
    ensures deleted.Rejected? ==> DeleteIntended(id, deleted).response.status == 400
  {
  }

  // ---------------------------------------------------------------------------
  // Worked examples
  // ---------------------------------------------------------------------------

  /** A count with trailing junk is read up to its last digit: "10abc" is 10. */
  lemma TrailingLettersIgnored()
    ensures ParseIntPrefix("10abc") == Some(10) && PositiveIntField("10abc")
  {
    assert DecimalValue("10") == 10 by {
      assert "10"[..1] == "1";
    }
    assert ParseIntPrefix("10abc") == Some(DecimalValue("10")) by {
      assert "" + "" + "10" + "abc" == "10abc";
      assert NumeralShape("", "", "10", "abc");
      ParseIntPrefixOfNumeral("", "", "10", "abc");
    }
  }

  /** A fractional weight is truncated to its integer part: "12.5" is 12. */
  lemma FractionTruncated()
    ensures ParseIntPrefix("12.5") == Some(12) && PositiveIntField("12.5")
  {
    assert DecimalValue("12") == 12 by {
      assert "12"[..1] == "1";
    }
    assert ParseIntPrefix("12.5") == Some(DecimalValue("12")) by {
      assert "" + "" + "12" + ".5" == "12.5";
      assert NumeralShape("", "", "12", ".5");
      ParseIntPrefixOfNumeral("", "", "12", ".5");
    }
  }

  /** Leading whitespace and a '+' sign are skipped. */
  lemma PaddedPlusAccepted()
    ensures ParseIntPrefix(" +7") == Some(7) && PositiveIntField(" +7")
  {
    assert " " + "+" + "7" + "" == " +7";
    assert NumeralShape(" ", "+", "7", "");
    ParseIntPrefixOfNumeral(" ", "+", "7", "");
  }

  /** Zero is not a count. */
  lemma ZeroRejected()
    ensures ParseIntPrefix("0") == Some(0) && !PositiveIntField("0")
  {
    assert "" + "" + "0" + "" == "0";
    assert NumeralShape("", "", "0", "");
    ParseIntPrefixOfNumeral("", "", "0", "");
  }

  /** A negative number is not a count. */
  lemma NegativeRejected()
    ensures ParseIntPrefix("-5") == Some(-5) && !PositiveIntField("-5")
  {
    assert "" + "-" + "5" + "" == "-5";
    assert NumeralShape("", "-", "5", "");
    ParseIntPrefixOfNumeral("", "-", "5", "");
  }

  /** Text that does not start with a numeral, or carries two signs, parses to NaN. */
  lemma NonNumeralsAreNaN()
    ensures ParseIntPrefix("abc") == None && !PositiveIntField("abc")
    ensures ParseIntPrefix("--1") == None
  {
    assert "" + "" + "abc" == "abc";
    assert !IsWhitespace('a');
    ParseIntPrefixNaN("", "", "abc");
    assert "" + "-" + "-1" == "--1";
    ParseIntPrefixNaN("", "-", "-1");
  }

  /** The date check is a shape check only. */
  lemma DateExamples()
    ensures IsDateValid("01-15-23")
    ensures IsDateValid("99-99-99")
    ensures !IsDateValid("2023-01-15")
    ensures !IsDateValid("1-15-23")
  {
    IsDateValidIff("01-15-23");
    IsDateValidIff("99-99-99");
    IsDateValidIff("2023-01-15");
    IsDateValidIff("1-15-23");
  }

  const BenchPress := Body(Some("Bench Press"), Some("10"), Some("135"), Some("lbs"), Some("01-15-23"))

  /** A well-formed body is stored as sent and answered with 201 and the stored record. */
  lemma BenchPressIsCreated(stored: Exercise)
    ensures Create(BenchPress, Fulfilled(stored))
         == Exchange(Some(CreateExercise("Bench Press", "10", "135", "lbs", "01-15-23")), Response(201, Document(stored)))
  {
    BenchPressIsValid();
  }

  lemma BenchPressIsValid()
    ensures Validate(BenchPress)
  {
    var f := Fields("Bench Press", 10, 135, Lbs, "01-15-23");
    assert WellFormed(f) by {
      assert !IsWhitespace(f.name[0]);
      DateExamples();
    }
    assert Render(f) == BenchPress by {
      DecimalRoundTripText();
    }
    ValidateRendered(f);
  }

  /** The two decimal renderings the bench press example relies on. */
  lemma DecimalRoundTripText()
    ensures DecimalString(10) == "10" && DecimalString(135) == "135"
  {
    assert DecimalString(1) == "1";
    assert DecimalString(13) == "13";
  }

  /** A year-first date is refused before the store is called. */
  lemma YearFirstDateRejected()
    ensures Create(BenchPress.(date := Some("2023-01-15")), Rejected) == Exchange(None, InvalidRequest)
  {
    DateExamples();
  }

  /** The unit is checked after trimming, but the store and the echoed body receive it
      with its padding. */
  lemma PaddedUnitReachesStore(id: string, lead: string, u: Unit, trail: string)
    requires AllWhitespace(lead) && AllWhitespace(trail)
    ensures var unit := lead + UnitName(u) + trail;
      Update(id, BenchPress.(unit := Some(unit)), Fulfilled(1))
      == Exchange(Some(ReplaceExercise(id, "Bench Press", "10", "135", unit, "01-15-23")),
                  Response(200, Echo(id, "Bench Press", "10", "135", unit, "01-15-23")))
  {
    var unit := lead + UnitName(u) + trail;
    var body := BenchPress.(unit := Some(unit));
    assert IsUnitField(unit) && unit != "" by {
      UnitFieldPadded(lead, u, trail);
    }
    BenchPressIsValid();
    assert Validate(body);
  }
}
