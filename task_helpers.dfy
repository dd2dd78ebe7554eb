/** The post-deadline grading steps: correctness scoring through the RAG
    service (`run_rag_grading`) and the combination of the scores into a
    final mark (`finalize_marks`). */
module TaskHelpers {
  import opened Base
  import opened Scores
  import opened ClassroomModels
  import Store

  const PlagWeight: real := 0.4
  const CorrectnessWeight: real := 0.6

  /** The RAG scoring oracle: collection name and PDF path to the decoded
      response, or the exception the call raised. */
  type RagScorer = (string, string) -> Result<Json>

  // ----- run_rag_grading -----

  /** The correctness score of a RAG response: `.get("success")` must be
      truthy, then `["score"]` must exist and be comparable with 10. */
  function ScoreOf(resp: Json): (r: Result<real>)
    ensures r.Ok? <==> (resp.JObj? && JsonTruthy(Lookup(resp.fields, "success"))
                        && Lookup(resp.fields, "score").Some?
                        && (Lookup(resp.fields, "score").value.JNum? || Lookup(resp.fields, "score").value.JBool?))
    ensures (resp.JObj? && !JsonTruthy(Lookup(resp.fields, "success"))) ==>
      r == Err(RuntimeError("RAG scoring failed"))
    ensures (resp.JObj? && JsonTruthy(Lookup(resp.fields, "success"))) ==>
      (r == Err(KeyError("score")) <==> Lookup(resp.fields, "score").None?)
    ensures (r.Ok? && Lookup(resp.fields, "score").value.JNum?) ==>
      Lookup(resp.fields, "score").value.n == r.value
  {
    if !resp.JObj? then Err(AttributeError("object has no attribute 'get'"))
    else if !JsonTruthy(Lookup(resp.fields, "success")) then Err(RuntimeError("RAG scoring failed"))
    else match Lookup(resp.fields, "score")
      case None => Err(KeyError("score"))
      case Some(JNum(n)) => Ok(n)
      // a bool compares with 10 as 0 or 1 and is stored in a float column as such
      case Some(JBool(b)) => Ok(if b then 1.0 else 0.0)
      case Some(_) => Err(TypeError("'>' not supported"))
  }

  /** Scores on a 0-100 scale are brought to 0-10; anything up to 10 is
      taken to be on the 0-10 scale already. */
  function Normalise(score: real): real {
    if score > 10.0 then Round(score / 10.0, 2) else score
  }

  /** The normalised score lies in [0, 10] for any input in [0, 100]: a
      score on either scale ends on the 0-10 scale. */
  lemma NormaliseRange(score: real)
    requires 0.0 <= score <= 100.0
    ensures 0.0 <= Normalise(score) <= 10.0
    ensures score <= 10.0 ==> Normalise(score) == score
  {
    if score > 10.0 {
      RoundWithin(score / 10.0, 1, 10, 2);
    }
  }

  /** The documented example: 78.5 becomes 7.85. */
  lemma NormaliseExample()
    ensures Normalise(78.5) == 7.85
  {
    assert 78.5 / 10.0 == 785.0 / 100.0;
    assert Pow10(2) == 100.0;
    RoundAtGridPoint(785, 100.0);
  }

  /** The scale is guessed from the value, so normalisation is not monotone:
      10 is kept as 10 while 11 becomes 1.1. */
  lemma NormaliseNotMonotone()
    ensures Normalise(10.0) == 10.0 && Normalise(11.0) == 1.1
  {
    assert 11.0 / 10.0 == 110.0 / 100.0;
    assert Pow10(2) == 100.0;
    RoundAtGridPoint(110, 100.0);
  }

  /** The three fields a scored submission saves. */
  function GradedRow(s: StudentAssignment, score: real): StudentAssignment {
    s.(correctnessScore := Some(score), marks := Some(score), status := Graded)
  }

  /** What the loop does with one submission. */
  datatype Step = Skip | Write(score: real) | Fail(error: Error)

  /** Rows already graded or without a file are skipped; otherwise the row is
      scored or the exception ends the loop. */
  function GradeOne(s: StudentAssignment, collection: string, scorer: RagScorer): (r: Step)
    ensures r == Skip <==> s.status == Graded || !Truthy(s.submittedFile)
    ensures r.Write? <==>
      (s.status != Graded && Truthy(s.submittedFile)
       && scorer(collection, s.submittedFile.value).Ok?
       && ScoreOf(scorer(collection, s.submittedFile.value).value).Ok?)
    ensures r.Write? ==> r.score == Normalise(ScoreOf(scorer(collection, s.submittedFile.value).value).value)
    ensures r.Fail? ==>
      s.status != Graded && Truthy(s.submittedFile)
      && var reply := scorer(collection, s.submittedFile.value);
      (reply.Err? ==> r.error == reply.error)
      && (reply.Ok? ==> ScoreOf(reply.value).Err? && r.error == ScoreOf(reply.value).error)
  {
    if s.status == Graded || !Truthy(s.submittedFile) then Skip
    else match scorer(collection, s.submittedFile.value)
      case Err(e) => Fail(e)
      case Ok(resp) =>
        match ScoreOf(resp)
        case Err(e) => Fail(e)
        case Ok(n) => Write(Normalise(n))
  }

  /** A reply whose `success` is falsy fails the submission with
      `RuntimeError("RAG scoring failed")`, which then ends the loop. */
  lemma UnsuccessfulReplyFails(s: StudentAssignment, collection: string, scorer: RagScorer)
    requires s.status != Graded && Truthy(s.submittedFile)
    requires var reply := scorer(collection, s.submittedFile.value);
      reply.Ok? && reply.value.JObj? && !JsonTruthy(Lookup(reply.value.fields, "success"))
    ensures GradeOne(s, collection, scorer) == Fail(RuntimeError("RAG scoring failed"))
  {
  }

  /** The loop over the eligible submissions, in queryset order: the table
      afterwards and the exception that ended it, if any. Ids that name no
      row yield nothing, as a queryset would. */
  function RagGrading(rows: map<Uuid, StudentAssignment>, ids: seq<Uuid>, collection: string,
                      scorer: RagScorer): (map<Uuid, StudentAssignment>, Option<Error>)
  {
    if ids == [] then (rows, None)
    else if ids[0] !in rows then RagGrading(rows, ids[1..], collection, scorer)
    else match GradeOne(rows[ids[0]], collection, scorer)
      case Skip => RagGrading(rows, ids[1..], collection, scorer)
      case Fail(e) => (rows, Some(e))
      case Write(v) => RagGrading(rows[ids[0] := GradedRow(rows[ids[0]], v)], ids[1..], collection, scorer)
  }

  /** `run_rag_grading(assignment, eligible_submissions)`. */
  function RunRagGradingSpec(a: Assignment, rows: map<Uuid, StudentAssignment>, ids: seq<Uuid>,
                             scorer: RagScorer): (map<Uuid, StudentAssignment>, Option<Error>)
  {
    if !Truthy(a.ragCollection) then (rows, Some(RuntimeError("Assignment has no RAG collection")))
    else RagGrading(rows, ids, a.ragCollection.value, scorer)
  }

  method RunRagGrading(db: Store.Database, a: Assignment, eligible: seq<Uuid>, scorer: RagScorer)
    returns (error: Option<Error>)
    modifies db`submissions
    ensures (db.submissions, error) == RunRagGradingSpec(a, old(db.submissions), eligible, scorer)
  {
    if !Truthy(a.ragCollection) {
      return Some(RuntimeError("Assignment has no RAG collection"));
    }
    var collection := a.ragCollection.value;
    var i := 0;
    while i < |eligible|
      invariant 0 <= i <= |eligible|
      invariant RagGrading(old(db.submissions), eligible, collection, scorer)
             == RagGrading(db.submissions, eligible[i..], collection, scorer)
    {
      assert eligible[i..][0] == eligible[i] && eligible[i..][1..] == eligible[i + 1..];
      var id := eligible[i];
      if id in db.submissions {
        var sub := db.submissions[id];
        if sub.status != Graded && Truthy(sub.submittedFile) {
          var resp := scorer(collection, sub.submittedFile.value);
          if resp.Err? {
            return Some(resp.error);
          }
          var score := ScoreOf(resp.value);
          if score.Err? {
            return Some(score.error);
          }
          var correctness := score.value;
          if correctness > 10.0 {
            correctness := Round(correctness / 10.0, 2);
          }
          db.submissions := db.submissions[id := GradedRow(sub, correctness)];
        }
      }
      i := i + 1;
    }
    error := None;
  }

  /** With no collection, nothing is scored and no row changes. */
  lemma NoCollectionNoWrites(a: Assignment, rows: map<Uuid, StudentAssignment>, ids: seq<Uuid>,
                             scorer: RagScorer)
    requires !Truthy(a.ragCollection)
    ensures RunRagGradingSpec(a, rows, ids, scorer) == (rows, Some(RuntimeError("Assignment has no RAG collection")))
  {
  }

  /** Only the listed rows can change, and a changed row differs from the old
      one in its correctness score, marks and status alone: both scores hold
      the same value and the status is graded. Rows that were graded or had
      no file do not change. */
  lemma {:induction false} RagGradingFrame(rows: map<Uuid, StudentAssignment>, ids: seq<Uuid>,
                                           collection: string, scorer: RagScorer)
    ensures var out := RagGrading(rows, ids, collection, scorer).0;
      out.Keys == rows.Keys
      && (forall id :: id in rows && id !in ids ==> out[id] == rows[id])
      && (forall id :: id in rows && (rows[id].status == Graded || !Truthy(rows[id].submittedFile)) ==>
            out[id] == rows[id])
      && (forall id :: id in rows && out[id] != rows[id] ==>
            out[id].marks.Some? && out[id] == GradedRow(rows[id], out[id].marks.value))
  {
    if ids != [] && ids[0] in rows {
      var id0 := ids[0];
      match GradeOne(rows[id0], collection, scorer)
      case Skip => RagGradingFrame(rows, ids[1..], collection, scorer);
      case Fail(_) =>
      case Write(v) =>
        var rows' := rows[id0 := GradedRow(rows[id0], v)];
        RagGradingFrame(rows', ids[1..], collection, scorer);
        var out := RagGrading(rows, ids, collection, scorer).0;
        forall id | id in rows && out[id] != rows[id]
          ensures out[id].marks.Some? && out[id] == GradedRow(rows[id], out[id].marks.value)
        {
          if id != id0 && out[id] == rows'[id] {
          } else if id == id0 && out[id] == rows'[id] {
          } else {
            assert out[id] == GradedRow(rows'[id], out[id].marks.value);
          }
        }
    } else if ids != [] {
      RagGradingFrame(rows, ids[1..], collection, scorer);
    }
  }

  /** The loop over `a + b` is the loop over `a` followed, unless it raised,
      by the loop over `b` on the table it left: an exception stops the
      processing of every later submission. */
  lemma {:induction false} RagGradingSplit(rows: map<Uuid, StudentAssignment>, a: seq<Uuid>, b: seq<Uuid>,
                                           collection: string, scorer: RagScorer)
    ensures var (r1, e1) := RagGrading(rows, a, collection, scorer);
      RagGrading(rows, a + b, collection, scorer)
        == if e1.Some? then (r1, e1) else RagGrading(r1, b, collection, scorer)
  {
    if a != [] {
      assert (a + b)[0] == a[0] && (a + b)[1..] == a[1..] + b;
      if a[0] in rows {
        match GradeOne(rows[a[0]], collection, scorer)
        case Skip => RagGradingSplit(rows, a[1..], b, collection, scorer);
        case Fail(_) =>
        case Write(v) =>
          RagGradingSplit(rows[a[0] := GradedRow(rows[a[0]], v)], a[1..], b, collection, scorer);
      } else {
        RagGradingSplit(rows, a[1..], b, collection, scorer);
      }
    } else {
      assert a + b == b;
    }
  }

  /** When the scorer fails on a submission, the loop ends with that error
      and no submission after it is touched. */
  lemma FailureStopsLoop(rows: map<Uuid, StudentAssignment>, a: seq<Uuid>, id: Uuid, b: seq<Uuid>,
                         collection: string, scorer: RagScorer, e: Error)
    requires RagGrading(rows, a, collection, scorer).1.None?
    requires var r1 := RagGrading(rows, a, collection, scorer).0;
      id in r1 && GradeOne(r1[id], collection, scorer) == Fail(e)
    ensures RagGrading(rows, a + [id] + b, collection, scorer)
         == (RagGrading(rows, a, collection, scorer).0, Some(e))
  {
    RagGradingSplit(rows, a, [id] + b, collection, scorer);
    assert a + [id] + b == a + ([id] + b);
  }

  /** A listed submission that is pending with a file and that the scorer
      answers successfully ends graded, with marks and correctness both equal
      to the normalised score. */
  lemma GradedByScore(rows: map<Uuid, StudentAssignment>, a: seq<Uuid>, id: Uuid, b: seq<Uuid>,
                      collection: string, scorer: RagScorer, v: real)
    requires RagGrading(rows, a, collection, scorer).1.None?
    requires var r1 := RagGrading(rows, a, collection, scorer).0;
      id in r1 && GradeOne(r1[id], collection, scorer) == Write(v)
    ensures var (out, _) := RagGrading(rows, a + [id] + b, collection, scorer);
      id in out && out[id].status == Graded && out[id].marks == Some(v) && out[id].correctnessScore == Some(v)
  {
    var r1 := RagGrading(rows, a, collection, scorer).0;
    RagGradingSplit(rows, a, [id] + b, collection, scorer);
    assert a + [id] + b == a + ([id] + b);
    var r2 := r1[id := GradedRow(r1[id], v)];
    assert ([id] + b)[1..] == b;
    RagGradingFrame(r2, b, collection, scorer);
  }

  // ----- finalize_marks -----

  /** The final mark of one graded submission: zero when plagiarism scored
      zero, otherwise the weighted sum clamped to [0, 10] and rounded to two
      places, null fields read as 0. */
  function FinalScore(s: StudentAssignment): (r: real)
    ensures 0.0 <= r <= 10.0
    ensures s.plagiarismScore == Some(0.0) ==> r == 0.0
  {
    if s.plagiarismScore == Some(0.0) then 0.0
    else
      var raw := s.marks.GetOr(0.0) * PlagWeight + s.correctnessScore.GetOr(0.0) * CorrectnessWeight;
      var c := Clamp(raw, 0.0, 10.0);
      RoundWithin(c, 0, 10, 2);
      Round(c, 2)
  }

  /** The marks of the rows `finalize_marks` selects. */
  predicate Selected(s: StudentAssignment, assignment: Uuid) {
    s.assignment == assignment && s.status == Graded
  }

  /** The table after `finalize_marks(assignment)`. */
  function Finalized(rows: map<Uuid, StudentAssignment>, assignment: Uuid): map<Uuid, StudentAssignment> {
    map id | id in rows :: if Selected(rows[id], assignment) then rows[id].(finalScore := Some(FinalScore(rows[id]))) else rows[id]
  }

  method FinalizeMarks(db: Store.Database, assignment: Uuid)
    modifies db`submissions
    ensures db.submissions == Finalized(old(db.submissions), assignment)
  {
    ghost var rows0 := db.submissions;
    var todo := set id | id in db.submissions && Selected(db.submissions[id], assignment);
    ghost var selected := todo;
    while todo != {}
      invariant todo <= selected
      invariant FinalizedSoFar(rows0, db.submissions, assignment, selected, todo)
      decreases |todo|
    {
      var id :| id in todo;
      var sub := db.submissions[id];
      var final: real;
      if sub.plagiarismScore == Some(0.0) {
        final := 0.0;
      } else {
        var plagMarks := sub.marks.GetOr(0.0);
        var correctness := sub.correctnessScore.GetOr(0.0);
        final := plagMarks * PlagWeight + correctness * CorrectnessWeight;
        final := Round(Clamp(final, 0.0, 10.0), 2);
      }
      assert final == FinalScore(sub);
      FinalizeStep(rows0, db.submissions, assignment, selected, todo, id);
      db.submissions := db.submissions[id := sub.(finalScore := Some(final))];
      todo := todo - {id};
    }
  }

  /** The table after one more selected row is finalised. */
  ghost predicate FinalizedSoFar(rows0: map<Uuid, StudentAssignment>, rows: map<Uuid, StudentAssignment>,
                                 assignment: Uuid, selected: set<Uuid>, todo: set<Uuid>) {
    rows.Keys == rows0.Keys
    && forall id :: id in rows0 ==>
      rows[id] == if id in selected && id !in todo then Finalized(rows0, assignment)[id] else rows0[id]
  }

  lemma FinalizeStep(rows0: map<Uuid, StudentAssignment>, rows: map<Uuid, StudentAssignment>, assignment: Uuid,
                     selected: set<Uuid>, todo: set<Uuid>, id: Uuid)
    requires selected == set x | x in rows0 && Selected(rows0[x], assignment)
    requires id in todo && todo <= selected && FinalizedSoFar(rows0, rows, assignment, selected, todo)
    ensures rows[id] == rows0[id] && Selected(rows[id], assignment)
    ensures FinalizedSoFar(rows0, rows[id := rows[id].(finalScore := Some(FinalScore(rows[id])))], assignment,
                           selected, todo - {id})
  {
  }

  /** `finalize_marks` writes only `final_score`, and only on that
      assignment's graded rows; the mark it writes lies in [0, 10]. */
  lemma FinalizedFrame(rows: map<Uuid, StudentAssignment>, assignment: Uuid)
    ensures var out := Finalized(rows, assignment);
      out.Keys == rows.Keys
      && (forall id :: id in rows ==> out[id].(finalScore := rows[id].finalScore) == rows[id])
      && (forall id :: id in rows && !Selected(rows[id], assignment) ==> out[id] == rows[id])
      && (forall id :: id in rows && Selected(rows[id], assignment) ==>
            out[id].finalScore.Some? && 0.0 <= out[id].finalScore.value <= 10.0)
  {
  }

  /** Finalising twice is finalising once: the second pass recomputes
      the same marks from unchanged inputs. */
  lemma FinalizedIdempotent(rows: map<Uuid, StudentAssignment>, assignment: Uuid)
    ensures Finalized(Finalized(rows, assignment), assignment) == Finalized(rows, assignment)
  {
    var once := Finalized(rows, assignment);
    forall id | id in rows
      ensures Finalized(once, assignment)[id] == once[id]
    {
      if Selected(rows[id], assignment) {
        assert FinalScore(once[id]) == FinalScore(rows[id]);
      }
    }
  }

  /** Higher marks and correctness never lower the final mark. */
  lemma FinalScoreMonotone(s: StudentAssignment, t: StudentAssignment)
    requires s.plagiarismScore != Some(0.0) && t.plagiarismScore != Some(0.0)
    requires s.marks.GetOr(0.0) <= t.marks.GetOr(0.0)
    requires s.correctnessScore.GetOr(0.0) <= t.correctnessScore.GetOr(0.0)
    ensures FinalScore(s) <= FinalScore(t)
  {
    var rs := s.marks.GetOr(0.0) * PlagWeight + s.correctnessScore.GetOr(0.0) * CorrectnessWeight;
    var rt := t.marks.GetOr(0.0) * PlagWeight + t.correctnessScore.GetOr(0.0) * CorrectnessWeight;
    assert rs <= rt;
    RoundMonotone(Clamp(rs, 0.0, 10.0), Clamp(rt, 0.0, 10.0), 2);
  }

  /** After `run_rag_grading` has copied the correctness score into marks,
      the weights add up to one and the final mark is the correctness score
      rounded to two places: the plagiarism marks play no part. */
  lemma FinalIsCorrectnessAfterRag(s: StudentAssignment, v: real)
    requires s.marks == Some(v) && s.correctnessScore == Some(v) && 0.0 <= v <= 10.0
    requires s.plagiarismScore != Some(0.0)
    ensures FinalScore(s) == Round(v, 2)
  {
    assert v * PlagWeight + v * CorrectnessWeight == v;
  }

  /** A submission scored on the 0-100 scale ends with exactly its normalised
      score as its final mark, unless plagiarism scored zero. */
  lemma FinalOfRagRow(s: StudentAssignment, score: real)
    requires 10.0 < score <= 100.0 && s.plagiarismScore != Some(0.0)
    ensures FinalScore(GradedRow(s, Normalise(score))) == Normalise(score)
  {
    NormaliseRange(score);
    FinalIsCorrectnessAfterRag(GradedRow(s, Normalise(score)), Normalise(score));
    RoundIdempotent(score / 10.0, 2);
  }
}
