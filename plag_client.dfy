/** `run_plagiarism_check`: the payload sent to the plagiarism service, the
    short cut for batches too small to compare, and the wrapping of transport
    errors. Nothing here writes to the database. */
module PlagClient {
  import opened Base
  import opened ClassroomModels

  /** `datetime.isoformat()`; the rendering of instants is left to this function. */
  type IsoFormat = Instant -> string

  /** The POST to the plagiarism service followed by `raise_for_status()` and
      `response.json()`: the decoded body, or the exception raised. */
  type PlagPost = Json -> Result<Json>

  /** One submission as the service sees it. */
  datatype PlagEntry = PlagEntry(submission: Uuid, student: Uuid, text: string, submittedAt: Instant)

  function EntryOf(s: StudentAssignment): PlagEntry
    requires s.extractedText.Some? && s.submittedAt.Some?
  {
    PlagEntry(s.id, s.student, s.extractedText.value, s.submittedAt.value)
  }

  /** The entries the loop appends, in submission order: submissions with no
      extracted text are passed over, and one with text but no submission
      time fails on `isoformat()`. */
  function Entries(subs: seq<StudentAssignment>): (r: Result<seq<PlagEntry>>)
    ensures r.Ok? <==> forall i :: 0 <= i < |subs| && Truthy(subs[i].extractedText) ==> subs[i].submittedAt.Some?
    ensures r.Ok? ==> |r.value| <= |subs|
  {
    if subs == [] then Ok([])
    else
      var init := subs[..|subs| - 1];
      var s := subs[|subs| - 1];
      assert forall i :: 0 <= i < |init| ==> init[i] == subs[i];
      match Entries(init)
      case Err(e) => Err(e)
      case Ok(es) =>
        if !Truthy(s.extractedText) then Ok(es)
        else if s.submittedAt.None? then Err(AttributeError("'NoneType' object has no attribute 'isoformat'"))
        else Ok(es + [EntryOf(s)])
  }

  /** Exactly the submissions with text have an entry, and every entry
      carries text. */
  lemma {:induction false} EntriesContents(subs: seq<StudentAssignment>)
    requires Entries(subs).Ok?
    ensures forall e :: e in Entries(subs).value ==>
      e.text != "" && exists i :: 0 <= i < |subs| && Truthy(subs[i].extractedText) && e == EntryOf(subs[i])
    ensures forall i :: 0 <= i < |subs| && Truthy(subs[i].extractedText) ==> EntryOf(subs[i]) in Entries(subs).value
  {
    if subs != [] {
      var n := |subs| - 1;
      var init := subs[..n];
      assert forall i :: 0 <= i < n ==> init[i] == subs[i];
      EntriesContents(init);
      var es := Entries(init).value;
      forall e | e in Entries(subs).value
        ensures e.text != "" && exists i :: 0 <= i < |subs| && Truthy(subs[i].extractedText) && e == EntryOf(subs[i])
      {
        if e !in es {
          assert e == EntryOf(subs[n]);
        }
      }
    }
  }

  /** An entry of `payload["assignments"]`. */
  function EntryJson(e: PlagEntry, iso: IsoFormat): Json {
    JObj([("assignment_id", JStr(e.submission)), ("student_id", JStr(e.student)),
          ("extracted_text", JStr(e.text)), ("submitted_at", JStr(iso(e.submittedAt)))])
  }

  function EntriesJson(es: seq<PlagEntry>, iso: IsoFormat): (r: seq<Json>)
    ensures |r| == |es| && forall i :: 0 <= i < |es| ==> r[i] == EntryJson(es[i], iso)
  {
    if es == [] then [] else EntriesJson(es[..|es| - 1], iso) + [EntryJson(es[|es| - 1], iso)]
  }

  function Payload(assignment: Uuid, es: seq<PlagEntry>, iso: IsoFormat): Json {
    JObj([("assignment_group_id", JStr(assignment)), ("assignments", JArr(EntriesJson(es, iso)))])
  }

  /** `{"success": True, "results": []}`. */
  const NothingToCompare: Json := JObj([("success", JBool(true)), ("results", JArr([]))])

  /** The result of the call and the payload posted, if any. */
  function PlagiarismCheck(a: Assignment, subs: seq<StudentAssignment>, iso: IsoFormat, post: PlagPost)
    : (Result<Json>, Option<Json>)
  {
    match Entries(subs)
    case Err(e) => (Err(e), None)
    case Ok(es) =>
      if |es| < 2 then (Ok(NothingToCompare), None)
      else var p := Payload(a.id, es, iso); (Reraised("Plagiarism service failed: ", post(p)), Some(p))
  }

  method RunPlagiarismCheck(a: Assignment, subs: seq<StudentAssignment>, iso: IsoFormat, post: PlagPost)
    returns (r: Result<Json>, sent: Option<Json>)
    ensures (r, sent) == PlagiarismCheck(a, subs, iso, post)
  {
    var collected := CollectAssignments(subs, iso);
    if collected.Err? {
      return Err(collected.error), None;
    }
    var assignments := collected.value;
    if |assignments| < 2 {
      return Ok(NothingToCompare), None;
    }
    var payload := JObj([("assignment_group_id", JStr(a.id)), ("assignments", JArr(assignments))]);
    var response := post(payload);
    if response.Err? && response.error.RequestException? {
      return Err(RuntimeError("Plagiarism service failed: " + response.error.msg)), Some(payload);
    }
    return response, Some(payload);
  }

  /** The loop building `payload["assignments"]`. */
  method CollectAssignments(subs: seq<StudentAssignment>, iso: IsoFormat) returns (r: Result<seq<Json>>)
    ensures Entries(subs).Err? ==> r == Err(Entries(subs).error)
    ensures Entries(subs).Ok? ==> r == Ok(EntriesJson(Entries(subs).value, iso))
  {
    var assignments: seq<Json> := [];
    ghost var es: seq<PlagEntry> := [];
    var i := 0;
    while i < |subs|
      invariant 0 <= i <= |subs|
      invariant Entries(subs[..i]) == Ok(es) && assignments == EntriesJson(es, iso)
    {
      EntriesStep(subs, i);
      var sub := subs[i];
      if Truthy(sub.extractedText) {
        if sub.submittedAt.None? {
          EntriesFailAt(subs, i);
          return Err(AttributeError("'NoneType' object has no attribute 'isoformat'"));
        }
        EntriesJsonSnoc(es, EntryOf(sub), iso);
        assignments := assignments + [EntryJson(EntryOf(sub), iso)];
        es := es + [EntryOf(sub)];
      }
      i := i + 1;
    }
    assert subs[..i] == subs;
    r := Ok(assignments);
  }

  lemma EntriesJsonSnoc(es: seq<PlagEntry>, e: PlagEntry, iso: IsoFormat)
    ensures EntriesJson(es + [e], iso) == EntriesJson(es, iso) + [EntryJson(e, iso)]
  {
    assert (es + [e])[..|es|] == es;
  }

  /** One turn of the loop over `subs`. */
  lemma EntriesStep(subs: seq<StudentAssignment>, i: nat)
    requires i < |subs|
    ensures Entries(subs[..i + 1])
         == match Entries(subs[..i])
            case Err(e) => Err(e)
            case Ok(es) =>
              if !Truthy(subs[i].extractedText) then Ok(es)
              else if subs[i].submittedAt.None? then Err(AttributeError("'NoneType' object has no attribute 'isoformat'"))
              else Ok(es + [EntryOf(subs[i])])
  {
    assert subs[..i + 1][..i] == subs[..i] && subs[..i + 1][i] == subs[i];
  }

  /** A submission with text and no time fails the whole list. */
  lemma EntriesFailAt(subs: seq<StudentAssignment>, i: nat)
    requires i < |subs| && Entries(subs[..i + 1]).Err?
    ensures Entries(subs) == Entries(subs[..i + 1])
  {
    EntriesErrorSticks(subs[..i + 1], subs[i + 1..]);
    assert subs[..i + 1] + subs[i + 1..] == subs;
  }

  /** Lifts the first failure of two consecutive runs of the loop. */
  function Then(x: Result<seq<PlagEntry>>, y: Result<seq<PlagEntry>>): Result<seq<PlagEntry>> {
    if x.Err? then x else if y.Err? then y else Ok(x.value + y.value)
  }

  /** Building the entries of `a + b` is building those of `a`, then those of
      `b`: entries keep the order of the submissions. */
  lemma {:induction false} EntriesAppend(a: seq<StudentAssignment>, b: seq<StudentAssignment>)
    ensures Entries(a + b) == Then(Entries(a), Entries(b))
  {
    if b == [] {
      assert a + b == a;
      if Entries(a).Ok? { assert Entries(a).value + [] == Entries(a).value; }
    } else {
      var b' := b[..|b| - 1];
      assert (a + b)[..|a + b| - 1] == a + b';
      assert (a + b)[|a + b| - 1] == b[|b| - 1];
      EntriesAppend(a, b');
      if Entries(a).Ok? && Entries(b').Ok? {
        var s := b[|b| - 1];
        if Truthy(s.extractedText) && s.submittedAt.Some? {
          assert Entries(a).value + (Entries(b').value + [EntryOf(s)])
              == (Entries(a).value + Entries(b').value) + [EntryOf(s)];
        }
      }
    }
  }

  lemma EntriesErrorSticks(a: seq<StudentAssignment>, b: seq<StudentAssignment>)
    requires Entries(a).Err?
    ensures Entries(a + b) == Entries(a)
  {
    EntriesAppend(a, b);
  }

  /** A single submission contributes exactly when its text is non-empty. */
  lemma EntriesOfOne(s: StudentAssignment)
    ensures Entries([s]) == if !Truthy(s.extractedText) then Ok([])
                            else if s.submittedAt.None? then Err(AttributeError("'NoneType' object has no attribute 'isoformat'"))
                            else Ok([EntryOf(s)])
  {
    assert [s][..0] == [];
    assert Entries([]) == Ok([]);
    if Truthy(s.extractedText) && s.submittedAt.Some? {
      assert [] + [EntryOf(s)] == [EntryOf(s)];
    }
  }

  /** Fewer than two entries: no call is made and the empty success comes
      back, whatever the service would have said. */
  lemma FewEntriesNoCall(a: Assignment, subs: seq<StudentAssignment>, iso: IsoFormat, post: PlagPost)
    requires Entries(subs).Ok? && |Entries(subs).value| < 2
    ensures PlagiarismCheck(a, subs, iso, post) == (Ok(NothingToCompare), None)
    ensures JsonTruthy(Lookup(NothingToCompare.fields, "success"))
    ensures Lookup(NothingToCompare.fields, "results") == Some(JArr([]))
  {
  }

  /** When the call is made, the payload names the assignment and carries one
      entry per submission with text, in order; a transport failure becomes a
      `RuntimeError` and any body is returned unchanged. */
  lemma CallShape(a: Assignment, subs: seq<StudentAssignment>, iso: IsoFormat, post: PlagPost)
    requires PlagiarismCheck(a, subs, iso, post).1.Some?
    ensures var p := PlagiarismCheck(a, subs, iso, post).1.value;
      var r := PlagiarismCheck(a, subs, iso, post).0;
      p.JObj? && Lookup(p.fields, "assignment_group_id") == Some(JStr(a.id))
      && Lookup(p.fields, "assignments") == Some(JArr(EntriesJson(Entries(subs).value, iso)))
      && |Entries(subs).value| >= 2
      && (post(p).Ok? ==> r == post(p))
      && (post(p).Err? && post(p).error.RequestException? ==>
            r == Err(RuntimeError("Plagiarism service failed: " + post(p).error.msg)))
  {
  }
}
