/** `save_plagiarism_results`: the service's per-submission results written
    into the submission table in one atomic batch. */
module PlagiarismPersistence {
  import opened Base
  import opened Scores
  import opened ClassroomModels
  import Store

  /** `float(s)` on a string: the decimal text it denotes, or None when
      Python would raise `ValueError`. Parsing is left to this function. */
  type ParseFloat = string -> Option<real>

  /** Python's `float(v)` on a decoded JSON value. */
  function ToFloat(v: Json, parse: ParseFloat): (r: Result<real>)
    ensures v.JNum? ==> r == Ok(v.n)
    ensures r.Err? <==> !(v.JNum? || v.JBool? || (v.JStr? && parse(v.s).Some?))
  {
    match v
    case JNum(n) => Ok(n)
    case JBool(b) => Ok(if b then 1.0 else 0.0)
    case JStr(s) => if parse(s).Some? then Ok(parse(s).value) else Err(ValueError("could not convert string to float"))
    case _ => Err(TypeError("float() argument must be a string or a number"))
  }

  predicate Copied(fields: seq<(string, Json)>) {
    Lookup(fields, "status") == Some(JStr("COPIED"))
  }

  /** `UUIDField.to_python` on a string, number or bool id: the canonical text
      of the UUID it denotes, or None where Django raises `ValidationError`
      (a string that is not UUID text, an integer out of range, a float).
      The conversion is left to this function. */
  type ToUuid = Json -> Option<Uuid>

  /** Where `StudentAssignment.objects.get(id=v)` leads for a result's id. */
  datatype IdLookup =
    | Row(id: Uuid)
      /** `DoesNotExist`, which the loop catches. */
    | NoRow
      /** `ValidationError` from the UUID conversion, which it does not. */
    | Invalid

  const InvalidUuid := ValidationError("id", "is not a valid UUID.")

  /** The lookup of the id a result names. `id=None` becomes an `isnull`
      lookup and finds no row; a list or an object is never UUID text. */
  function Target(result: Json, rows: map<Uuid, StudentAssignment>, uuid: ToUuid): (r: IdLookup)
    ensures r.Row? ==> r.id in rows
    ensures result.JObj? && Lookup(result.fields, "assignment_id").Some? ==>
      var v := Lookup(result.fields, "assignment_id").value;
      (r.Invalid? <==> v.JArr? || v.JObj? || (!v.JNull? && uuid(v).None?))
      && (r.Row? ==> uuid(v) == Some(r.id))
      && (r.NoRow? <==> v.JNull? || (!v.JArr? && !v.JObj? && uuid(v).Some? && uuid(v).value !in rows))
  {
    if result.JObj? && Lookup(result.fields, "assignment_id").Some? then
      match Lookup(result.fields, "assignment_id").value
      case JNull => NoRow
      case JArr(_) => Invalid
      case JObj(_) => Invalid
      case v =>
        match uuid(v)
        case None => Invalid
        case Some(u) => if u in rows then Row(u) else NoRow
    else NoRow
  }

  /** One iteration of the loop over the results. */
  function ApplyOne(rows: map<Uuid, StudentAssignment>, result: Json, parse: ParseFloat, uuid: ToUuid)
    : (r: Result<map<Uuid, StudentAssignment>>)
    ensures r.Ok? ==> r.value.Keys == rows.Keys
    ensures r.Ok? ==> forall id :: id in rows ==>
      r.value[id].(plagiarismScore := rows[id].plagiarismScore, marks := rows[id].marks) == rows[id]
    ensures r.Ok? && Target(result, rows, uuid).NoRow? ==> r.value == rows
    ensures result.JObj? && Lookup(result.fields, "assignment_id").None? ==> r == Err(KeyError("assignment_id"))
    ensures Target(result, rows, uuid).Invalid? ==> r == Err(InvalidUuid)
  {
    if !result.JObj? then Err(TypeError("indices must be integers"))
    else if Lookup(result.fields, "assignment_id").None? then Err(KeyError("assignment_id"))
    else match Target(result, rows, uuid)
      case Invalid => Err(InvalidUuid)
      case NoRow => Ok(rows)
      case Row(id) =>
        match ToFloat(GetOrDefault(result.fields, "plagiarism_score", JNum(0.0)), parse)
        case Err(e) => Err(e)
        case Ok(similarity) =>
          match ToFloat(GetOrDefault(result.fields, "marks", JNum(0.0)), parse)
          case Err(e) => Err(e)
          case Ok(m) =>
            var marks := if Copied(result.fields) then 0.0 else m;
            Ok(rows[id := rows[id].(plagiarismScore := Some(Round(similarity, 4)), marks := Some(Round(marks, 2)))])
  }

  /** The whole loop; the first exception aborts it. */
  function ApplyAll(rows: map<Uuid, StudentAssignment>, results: seq<Json>, parse: ParseFloat, uuid: ToUuid)
    : Result<map<Uuid, StudentAssignment>>
  {
    if results == [] then Ok(rows)
    else match ApplyOne(rows, results[0], parse, uuid)
      case Err(e) => Err(e)
      case Ok(rows') => ApplyAll(rows', results[1..], parse, uuid)
  }

  /** The table after the call, or the exception it raised. */
  function SaveResults(rows: map<Uuid, StudentAssignment>, response: Json, parse: ParseFloat, uuid: ToUuid)
    : Result<map<Uuid, StudentAssignment>>
  {
    if !response.JObj? then Err(AttributeError("object has no attribute 'get'"))
    else if !JsonTruthy(Lookup(response.fields, "success")) then
      Err(ValueError("Plagiarism service returned unsuccessful response"))
    else match Iterate(GetOrDefault(response.fields, "results", JArr([])))
      case Err(e) => Err(e)
      case Ok(results) => ApplyAll(rows, results, parse, uuid)
  }

  /** The batch runs inside `transaction.atomic()`: when it raises, every
      row written earlier in the batch is rolled back. */
  method SavePlagiarismResults(db: Store.Database, response: Json, parse: ParseFloat, uuid: ToUuid)
    returns (r: Result<()>)
    modifies db`submissions
    ensures SaveResults(old(db.submissions), response, parse, uuid).Ok? ==>
      r == Ok(()) && db.submissions == SaveResults(old(db.submissions), response, parse, uuid).value
    ensures SaveResults(old(db.submissions), response, parse, uuid).Err? ==>
      r == Err(SaveResults(old(db.submissions), response, parse, uuid).error)
      && db.submissions == old(db.submissions)
  {
    if !response.JObj? {
      return Err(AttributeError("object has no attribute 'get'"));
    }
    if !JsonTruthy(Lookup(response.fields, "success")) {
      return Err(ValueError("Plagiarism service returned unsuccessful response"));
    }
    var iterated := Iterate(GetOrDefault(response.fields, "results", JArr([])));
    if iterated.Err? {
      return Err(iterated.error);
    }
    var results := iterated.value;
    var savepoint := db.submissions;
    var i := 0;
    while i < |results|
      invariant 0 <= i <= |results|
      invariant ApplyAll(savepoint, results, parse, uuid) == ApplyAll(db.submissions, results[i..], parse, uuid)
    {
      LoopStep(db.submissions, results, i, parse, uuid);
      var result := results[i];
      if !result.JObj? {
        db.submissions := savepoint;
        return Err(TypeError("indices must be integers"));
      }
      var idValue := Lookup(result.fields, "assignment_id");
      if idValue.None? {
        db.submissions := savepoint;
        return Err(KeyError("assignment_id"));
      }
      var target := Target(result, db.submissions, uuid);
      if target.Invalid? {
        db.submissions := savepoint;
        return Err(InvalidUuid);
      }
      if target.Row? {
        var id := target.id;
        var similarity := ToFloat(GetOrDefault(result.fields, "plagiarism_score", JNum(0.0)), parse);
        if similarity.Err? {
          db.submissions := savepoint;
          return Err(similarity.error);
        }
        var marks := ToFloat(GetOrDefault(result.fields, "marks", JNum(0.0)), parse);
        if marks.Err? {
          db.submissions := savepoint;
          return Err(marks.error);
        }
        var m := marks.value;
        if Copied(result.fields) {
          m := 0.0;
        }
        var submission := db.submissions[id];
        submission := submission.(plagiarismScore := Some(Round(similarity.value, 4)));
        submission := submission.(marks := Some(Round(m, 2)));
        db.submissions := db.submissions[id := submission];
      }
      i := i + 1;
    }
    assert ApplyAll(db.submissions, [], parse, uuid) == Ok(db.submissions);
    r := Ok(());
  }

  /** One turn of the loop over `results[i..]`. */
  lemma LoopStep(rows: map<Uuid, StudentAssignment>, results: seq<Json>, i: nat, parse: ParseFloat, uuid: ToUuid)
    requires i < |results|
    ensures ApplyAll(rows, results[i..], parse, uuid)
         == match ApplyOne(rows, results[i], parse, uuid)
            case Err(e) => Err(e)
            case Ok(next) => ApplyAll(next, results[i + 1..], parse, uuid)
  {
    assert results[i..][0] == results[i] && results[i..][1..] == results[i + 1..];
  }

  /** The loop over `a + b` is the loop over `a`, then, unless it raised,
      the loop over `b`. */
  lemma {:induction false} ApplyAllSplit(rows: map<Uuid, StudentAssignment>, a: seq<Json>, b: seq<Json>,
                                         parse: ParseFloat, uuid: ToUuid)
    ensures ApplyAll(rows, a + b, parse, uuid)
         == if ApplyAll(rows, a, parse, uuid).Err? then ApplyAll(rows, a, parse, uuid)
            else ApplyAll(ApplyAll(rows, a, parse, uuid).value, b, parse, uuid)
  {
    if a == [] {
      assert a + b == b;
    } else {
      assert (a + b)[0] == a[0] && (a + b)[1..] == a[1..] + b;
      if ApplyOne(rows, a[0], parse, uuid).Ok? {
        ApplyAllSplit(ApplyOne(rows, a[0], parse, uuid).value, a[1..], b, parse, uuid);
      }
    }
  }

  /** A successful batch keeps the set of rows and changes nothing but the
      plagiarism score and the marks: the status in particular is untouched. */
  lemma {:induction false} ApplyAllFrame(rows: map<Uuid, StudentAssignment>, results: seq<Json>,
                                         parse: ParseFloat, uuid: ToUuid)
    requires ApplyAll(rows, results, parse, uuid).Ok?
    ensures var out := ApplyAll(rows, results, parse, uuid).value;
      out.Keys == rows.Keys
      && forall id :: id in rows ==>
        out[id].(plagiarismScore := rows[id].plagiarismScore, marks := rows[id].marks) == rows[id]
        && out[id].status == rows[id].status
  {
    if results != [] {
      var rows' := ApplyOne(rows, results[0], parse, uuid).value;
      ApplyAllFrame(rows', results[1..], parse, uuid);
    }
  }

  /** A result whose id is null, or is UUID text naming no submission, is
      skipped and the rest of the batch is applied as if it were absent. */
  lemma UnknownIdSkipped(rows: map<Uuid, StudentAssignment>, a: seq<Json>, x: Json, b: seq<Json>,
                         parse: ParseFloat, uuid: ToUuid, v: Json)
    requires x.JObj? && Lookup(x.fields, "assignment_id") == Some(v)
    requires v.JNull? || ((v.JStr? || v.JNum? || v.JBool?) && uuid(v).Some? && uuid(v).value !in rows)
    ensures ApplyAll(rows, a + [x] + b, parse, uuid) == ApplyAll(rows, a + b, parse, uuid)
  {
    assert a + [x] + b == a + ([x] + b);
    ApplyAllSplit(rows, a, [x] + b, parse, uuid);
    ApplyAllSplit(rows, a, b, parse, uuid);
    if ApplyAll(rows, a, parse, uuid).Ok? {
      ApplyAllFrame(rows, a, parse, uuid);
      var r1 := ApplyAll(rows, a, parse, uuid).value;
      assert Target(x, r1, uuid).NoRow?;
      assert ([x] + b)[0] == x && ([x] + b)[1..] == b;
    }
  }

  /** One bad result anywhere makes the whole batch fail, so that the
      atomic block rolls back the rows applied before it. */
  lemma BadResultFailsBatch(rows: map<Uuid, StudentAssignment>, a: seq<Json>, x: Json, b: seq<Json>,
                            parse: ParseFloat, uuid: ToUuid)
    requires ApplyAll(rows, a, parse, uuid).Ok? && ApplyOne(ApplyAll(rows, a, parse, uuid).value, x, parse, uuid).Err?
    ensures ApplyAll(rows, a + [x] + b, parse, uuid).Err?
  {
    assert a + [x] + b == a + ([x] + b);
    ApplyAllSplit(rows, a, [x] + b, parse, uuid);
    assert ([x] + b)[0] == x;
  }

  /** An id that is not UUID text (a malformed string, a float, a list, an
      object) raises `ValidationError`, which the loop does not catch: the
      whole save fails, and the method then rolls every row back. */
  lemma MalformedIdAbortsSave(rows: map<Uuid, StudentAssignment>, response: Json, results: seq<Json>, k: nat,
                              parse: ParseFloat, uuid: ToUuid, v: Json)
    requires response.JObj? && JsonTruthy(Lookup(response.fields, "success"))
    requires Lookup(response.fields, "results") == Some(JArr(results))
    requires k < |results| && ApplyAll(rows, results[..k], parse, uuid).Ok?
    requires results[k].JObj? && Lookup(results[k].fields, "assignment_id") == Some(v)
    requires v.JArr? || v.JObj? || (!v.JNull? && uuid(v).None?)
    ensures SaveResults(rows, response, parse, uuid) == Err(InvalidUuid)
  {
    assert results == results[..k] + [results[k]] + results[k + 1..];
    var r1 := ApplyAll(rows, results[..k], parse, uuid).value;
    assert Target(results[k], r1, uuid).Invalid?;
    assert results[..k] + [results[k]] + results[k + 1..] == results[..k] + ([results[k]] + results[k + 1..]);
    ApplyAllSplit(rows, results[..k], [results[k]] + results[k + 1..], parse, uuid);
    assert ([results[k]] + results[k + 1..])[0] == results[k];
  }

  /** A result that names a stored assignment by its canonical text, which
      the conversion reads back as itself, reaches that row and writes its
      rounded similarity there. */
  lemma StoredIdReachesRow(rows: map<Uuid, StudentAssignment>, x: Json, parse: ParseFloat, uuid: ToUuid,
                           u: Uuid)
    requires x.JObj? && Lookup(x.fields, "assignment_id") == Some(JStr(u))
    requires u in rows && uuid(JStr(u)) == Some(u)
    ensures Target(x, rows, uuid) == Row(u)
    ensures ApplyOne(rows, x, parse, uuid).Ok? ==>
      var sim := ToFloat(GetOrDefault(x.fields, "plagiarism_score", JNum(0.0)), parse);
      sim.Ok? && ApplyOne(rows, x, parse, uuid).value[u].plagiarismScore == Some(Round(sim.value, 4))
  {
    if ApplyOne(rows, x, parse, uuid).Ok? {
      MatchedResult(rows, x, parse, uuid);
    }
  }

  /** The values a matched result stores: the similarity rounded to four
      places and the marks rounded to two, zero for a `COPIED` verdict
      whatever marks were reported, and missing fields read as zero. */
  lemma MatchedResult(rows: map<Uuid, StudentAssignment>, x: Json, parse: ParseFloat, uuid: ToUuid)
    requires Target(x, rows, uuid).Row? && ApplyOne(rows, x, parse, uuid).Ok?
    ensures var u := Target(x, rows, uuid).id;
      var out := ApplyOne(rows, x, parse, uuid).value;
      var sim := ToFloat(GetOrDefault(x.fields, "plagiarism_score", JNum(0.0)), parse);
      var m := ToFloat(GetOrDefault(x.fields, "marks", JNum(0.0)), parse);
      sim.Ok? && m.Ok?
      && out[u].plagiarismScore == Some(Round(sim.value, 4))
      && (Copied(x.fields) ==> out[u].marks == Some(0.0))
      && (!Copied(x.fields) ==> out[u].marks == Some(Round(m.value, 2)))
      && (Lookup(x.fields, "plagiarism_score").None? ==> out[u].plagiarismScore == Some(0.0))
      && (Lookup(x.fields, "marks").None? ==> out[u].marks == Some(0.0))
      && out[u].status == rows[u].status
  {
    RoundOfInt(0, 2);
    RoundOfInt(0, 4);
  }

  /** A similarity reported in [0, 1] is stored in [0, 1], and marks reported
      in [0, 10] are stored in [0, 10]. */
  lemma StoredWithinBounds(sim: real, marks: real)
    requires 0.0 <= sim <= 1.0 && 0.0 <= marks <= 10.0
    ensures 0.0 <= Round(sim, 4) <= 1.0 && 0.0 <= Round(marks, 2) <= 10.0
  {
    RoundWithin(sim, 0, 1, 4);
    RoundWithin(marks, 0, 10, 2);
  }

  /** An unsuccessful response raises `ValueError` and a response without
      `results` is an empty batch: neither writes anything. */
  lemma NothingWritten(rows: map<Uuid, StudentAssignment>, response: Json, parse: ParseFloat, uuid: ToUuid)
    requires response.JObj?
    ensures !JsonTruthy(Lookup(response.fields, "success")) ==>
      SaveResults(rows, response, parse, uuid) == Err(ValueError("Plagiarism service returned unsuccessful response"))
    ensures JsonTruthy(Lookup(response.fields, "success")) && Lookup(response.fields, "results").None? ==>
      SaveResults(rows, response, parse, uuid) == Ok(rows)
  {
  }
}
