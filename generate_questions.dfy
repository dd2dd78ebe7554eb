/** `normalize_questions` and the question list that `generate_questions_pdf`
    numbers and draws. Drawing the PDF is not part of this model. */
module GenerateQuestions {
  import opened Base

  /** `json.loads(s)`: the decoded value, or None on `JSONDecodeError`.
      Parsing is left to this function. */
  type JsonLoads = string -> Option<Json>

  /** Python's `str(q)` on a value that is neither a dict nor a string. */
  type PyStr = Json -> string

  /** A string that does not parse stands for a single question. */
  function ParsedOrWrapped(s: string, loads: JsonLoads): (r: Json)
    ensures loads(s).Some? ==> r == loads(s).value
    ensures loads(s).None? ==> r == JArr([JObj([("question", JStr(s))])])
  {
    match loads(s)
    case Some(v) => v
    case None => JArr([JObj([("question", JStr(s))])])
  }

  predicate SingleString(q: Json) {
    q.JArr? && |q.items| == 1 && q.items[0].JStr?
  }

  predicate SingleList(q: Json) {
    q.JArr? && |q.items| == 1 && q.items[0].JArr?
  }

  /** Case 1: stringified JSON. */
  function FromString(q: Json, loads: JsonLoads): Json {
    if q.JStr? then ParsedOrWrapped(q.s, loads) else q
  }

  /** Case 2: a list holding one stringified JSON. */
  function FromSingleString(q: Json, loads: JsonLoads): Json {
    if SingleString(q) then ParsedOrWrapped(q.items[0].s, loads) else q
  }

  /** Case 3: a list holding one list. */
  function FromNested(q: Json): Json {
    if SingleList(q) then q.items[0] else q
  }

  /** `normalize_questions(questions)`: the three cases, each applied to what
      the previous one left. */
  function NormalizeQuestions(q: Json, loads: JsonLoads): Json {
    FromNested(FromSingleString(FromString(q, loads), loads))
  }

  /** An input none of the cases matches comes back unchanged. */
  lemma NormalizeOthersUnchanged(q: Json, loads: JsonLoads)
    requires !q.JStr? && !SingleString(q) && !SingleList(q)
    ensures NormalizeQuestions(q, loads) == q
  {
  }

  /** A nested list loses exactly one level, whatever it holds. */
  lemma NormalizeFlattensOnce(inner: seq<Json>, loads: JsonLoads)
    ensures NormalizeQuestions(JArr([JArr(inner)]), loads) == JArr(inner)
    ensures NormalizeQuestions(JArr([JArr([JArr(inner)])]), loads) == JArr([JArr(inner)])
  {
  }

  /** A string that does not parse becomes one question with that text. */
  lemma NormalizeUnparsedString(s: string, loads: JsonLoads)
    requires loads(s).None?
    ensures NormalizeQuestions(JStr(s), loads) == JArr([JObj([("question", JStr(s))])])
  {
  }

  /** The cases run in sequence: a string that parses to a list holding one
      string has that string parsed again, and one that parses to a list
      holding one list is then flattened. */
  lemma NormalizeCasesChain(s: string, t: string, inner: seq<Json>, loads: JsonLoads)
    ensures loads(s) == Some(JArr([JStr(t)])) && loads(t) == Some(JArr(inner)) && !SingleList(JArr(inner)) ==>
      NormalizeQuestions(JStr(s), loads) == JArr(inner)
    ensures loads(s) == Some(JArr([JStr(t)])) && loads(t).None? ==>
      NormalizeQuestions(JStr(s), loads) == JArr([JObj([("question", JStr(t))])])
    ensures loads(s) == Some(JArr([JArr(inner)])) ==> NormalizeQuestions(JStr(s), loads) == JArr(inner)
  {
  }

  // ----- question text -----

  /** The characters `str.strip()` removes (the ASCII ones). */
  predicate IsSpace(c: char) {
    c == ' ' || c == '\t' || c == '\n' || c == '\r' || c == '\U{B}' || c == '\U{C}'
    || c == '\U{1C}' || c == '\U{1D}' || c == '\U{1E}' || c == '\U{1F}'
  }

  /** The first position at or after `i` that is not whitespace, or `|s|`. */
  function SkipSpaces(s: string, i: nat): (r: nat)
    requires i <= |s|
    ensures i <= r <= |s|
    ensures forall k :: i <= k < r ==> IsSpace(s[k])
    ensures r < |s| ==> !IsSpace(s[r])
    decreases |s| - i
  {
    if i < |s| && IsSpace(s[i]) then SkipSpaces(s, i + 1) else i
  }

  /** The end of `s[..j]` once its trailing whitespace, down to `lo`, is cut off. */
  function CutSpaces(s: string, lo: nat, j: nat): (r: nat)
    requires lo <= j <= |s|
    ensures lo <= r <= j
    ensures forall k :: r <= k < j ==> IsSpace(s[k])
    ensures r > lo ==> !IsSpace(s[r - 1])
    decreases j
  {
    if j > lo && IsSpace(s[j - 1]) then CutSpaces(s, lo, j - 1) else j
  }

  /** The bounds `s.strip()` keeps: every character before and after them is
      whitespace, and the kept slice neither starts nor ends with any. */
  function StripSpan(s: string): (r: (nat, nat))
    ensures r.0 <= r.1 <= |s|
    ensures forall k :: 0 <= k < r.0 ==> IsSpace(s[k])
    ensures forall k :: r.1 <= k < |s| ==> IsSpace(s[k])
    ensures r.0 < r.1 ==> !IsSpace(s[r.0]) && !IsSpace(s[r.1 - 1])
  {
    var i := SkipSpaces(s, 0);
    (i, CutSpaces(s, i, |s|))
  }

  /** `s.strip()`. */
  function Strip(s: string): (r: string)
    ensures r == s[StripSpan(s).0..StripSpan(s).1]
    ensures r == [] || (!IsSpace(r[0]) && !IsSpace(r[|r| - 1]))
  {
    var span := StripSpan(s);
    s[span.0..span.1]
  }

  /** Stripping twice is stripping once, and a string of whitespace strips
      to the empty string. */
  lemma StripIdempotent(s: string)
    ensures Strip(Strip(s)) == Strip(s)
    ensures (forall k :: 0 <= k < |s| ==> IsSpace(s[k])) ==> Strip(s) == ""
  {
    var r := Strip(s);
    if r != [] {
      assert SkipSpaces(r, 0) == 0;
      assert CutSpaces(r, 0, |r|) == |r|;
    }
  }

  /** The text of one question: the `question` entry of a dict, else `str(q)`,
      stripped. `str` of a string is the string itself. A dict whose entry is
      not a string fails on `.strip()`. */
  function QuestionText(q: Json, pyStr: PyStr): (r: Result<string>)
    ensures q.JObj? && Lookup(q.fields, "question").None? ==> r == Ok("")
    ensures q.JObj? && Lookup(q.fields, "question").Some? && Lookup(q.fields, "question").value.JStr? ==>
      r == Ok(Strip(Lookup(q.fields, "question").value.s))
    ensures q.JStr? ==> r == Ok(Strip(q.s))
    ensures !q.JObj? && !q.JStr? ==> r == Ok(Strip(pyStr(q)))
    ensures r.Err? <==> q.JObj? && Lookup(q.fields, "question").Some? && !Lookup(q.fields, "question").value.JStr?
  {
    match q
    case JObj(fields) =>
      (match GetOrDefault(fields, "question", JStr(""))
       case JStr(s) => Ok(Strip(s))
       case _ => Err(AttributeError("object has no attribute 'strip'")))
    case JStr(s) => Ok(Strip(s))
    case _ => Ok(Strip(pyStr(q)))
  }

  /** The numbered questions from `start` on, or the first failure. */
  function Numbered(qs: seq<Json>, start: nat, pyStr: PyStr): Result<seq<(nat, string)>> {
    if qs == [] then Ok([])
    else match QuestionText(qs[0], pyStr)
      case Err(e) => Err(e)
      case Ok(t) =>
        match Numbered(qs[1..], start + 1, pyStr)
        case Err(e) => Err(e)
        case Ok(rest) => Ok([(start, t)] + rest)
  }

  /** The list fails exactly when one of its questions does. */
  lemma {:induction false} NumberedOk(qs: seq<Json>, start: nat, pyStr: PyStr)
    ensures Numbered(qs, start, pyStr).Ok? <==> forall i :: 0 <= i < |qs| ==> QuestionText(qs[i], pyStr).Ok?
  {
    if qs != [] {
      var tail := qs[1..];
      NumberedOk(tail, start + 1, pyStr);
      assert forall i :: 0 < i < |qs| ==> qs[i] == tail[i - 1];
    }
  }

  /** A plain list of strings is drawn as those strings, stripped, numbered
      from 1 in list order. */
  lemma StringQuestionsDrawn(qs: seq<Json>, pyStr: PyStr)
    requires forall i :: 0 <= i < |qs| ==> qs[i].JStr?
    ensures Numbered(qs, 1, pyStr).Ok?
    ensures var v := Numbered(qs, 1, pyStr).value;
      |v| == |qs| && forall i :: 0 <= i < |qs| ==> v[i] == (i + 1, Strip(qs[i].s))
  {
    NumberedOk(qs, 1, pyStr);
    NumberedValues(qs, 1, pyStr);
  }

  /** Questions are numbered consecutively from `start`, in list order, each
      with its own text. */
  lemma {:induction false} NumberedValues(qs: seq<Json>, start: nat, pyStr: PyStr)
    requires Numbered(qs, start, pyStr).Ok?
    ensures var v := Numbered(qs, start, pyStr).value;
      |v| == |qs| && forall i :: 0 <= i < |qs| ==> v[i].0 == start + i && Ok(v[i].1) == QuestionText(qs[i], pyStr)
  {
    if qs != [] {
      var tail := qs[1..];
      NumberedValues(tail, start + 1, pyStr);
      var t := QuestionText(qs[0], pyStr);
      var rest := Numbered(tail, start + 1, pyStr).value;
      var v := [(start, t.value)] + rest;
      assert Numbered(qs, start, pyStr).value == v;
      forall i | 0 < i < |qs| ensures v[i].0 == start + i && Ok(v[i].1) == QuestionText(qs[i], pyStr) {
        assert qs[i] == tail[i - 1];
        assert v[i] == rest[i - 1];
      }
    }
  }

  lemma NumberedFails(qs: seq<Json>, start: nat, pyStr: PyStr)
    requires qs != [] && QuestionText(qs[0], pyStr).Err?
    ensures Numbered(qs, start, pyStr) == Err(QuestionText(qs[0], pyStr).error)
  {
  }

  lemma NumberedStep(qs: seq<Json>, start: nat, pyStr: PyStr, t: string)
    requires qs != [] && QuestionText(qs[0], pyStr) == Ok(t)
    ensures var rest := Numbered(qs[1..], start + 1, pyStr);
      Numbered(qs, start, pyStr) == if rest.Err? then rest else Ok([(start, t)] + rest.value)
  {
  }

  /** The question list of `generate_questions_pdf`: the normalised input,
      iterated, then numbered and drawn. */
  method NumberQuestions(questions: Json, loads: JsonLoads, pyStr: PyStr)
    returns (r: Result<seq<(nat, string)>>)
    ensures var items := Iterate(NormalizeQuestions(questions, loads));
      (items.Err? ==> r == Err(items.error))
      && (items.Ok? ==> r == Numbered(items.value, 1, pyStr))
  {
    var normalized := NormalizeQuestions(questions, loads);
    var items := Iterate(normalized);
    if items.Err? {
      return Err(items.error);
    }
    r := DrawQuestions(items.value, pyStr);
  }

  /** The numbering loop: the label and text of each question, drawn one
      after another. */
  method DrawQuestions(qs: seq<Json>, pyStr: PyStr) returns (r: Result<seq<(nat, string)>>)
    ensures r == Numbered(qs, 1, pyStr)
  {
    var drawn: seq<(nat, string)> := [];
    var idx := 1;
    if Numbered(qs, 1, pyStr).Ok? {
      assert [] + Numbered(qs, 1, pyStr).value == Numbered(qs, 1, pyStr).value;
    }
    while idx <= |qs|
      invariant 1 <= idx <= |qs| + 1
      invariant Numbered(qs, 1, pyStr) == Then(drawn, Numbered(qs[idx - 1..], idx, pyStr))
    {
      var text := QuestionText(qs[idx - 1], pyStr);
      DrawStep(qs, idx, drawn, pyStr);
      if text.Err? {
        return Err(text.error);
      }
      drawn := drawn + [(idx, text.value)];
      idx := idx + 1;
    }
    assert qs[idx - 1..] == [];
    assert Numbered([], idx, pyStr) == Ok([]);
    assert drawn + [] == drawn;
    r := Ok(drawn);
  }

  /** One turn of the numbering loop: a question whose text fails fails the
      whole list, and one whose text succeeds is drawn with its number. */
  lemma DrawStep(qs: seq<Json>, idx: nat, drawn: seq<(nat, string)>, pyStr: PyStr)
    requires 1 <= idx <= |qs|
    requires Numbered(qs, 1, pyStr) == Then(drawn, Numbered(qs[idx - 1..], idx, pyStr))
    ensures var text := QuestionText(qs[idx - 1], pyStr);
      (text.Err? ==> Numbered(qs, 1, pyStr) == Err(text.error))
      && (text.Ok? ==> Numbered(qs, 1, pyStr) == Then(drawn + [(idx, text.value)], Numbered(qs[idx..], idx + 1, pyStr)))
  {
    var rest := qs[idx - 1..];
    assert rest[0] == qs[idx - 1] && rest[1..] == qs[idx..];
    var text := QuestionText(qs[idx - 1], pyStr);
    if text.Err? {
      NumberedFails(rest, idx, pyStr);
    } else {
      NumberedStep(rest, idx, pyStr, text.value);
      ThenCons(drawn, (idx, text.value), Numbered(qs[idx..], idx + 1, pyStr));
    }
  }

  /** `done` followed by what the rest of the loop yields. */
  function Then(done: seq<(nat, string)>, rest: Result<seq<(nat, string)>>): Result<seq<(nat, string)>> {
    if rest.Err? then rest else Ok(done + rest.value)
  }

  lemma ThenCons(done: seq<(nat, string)>, x: (nat, string), rest: Result<seq<(nat, string)>>)
    ensures Then(done, if rest.Err? then rest else Ok([x] + rest.value)) == Then(done + [x], rest)
  {
    if rest.Ok? {
      assert done + ([x] + rest.value) == (done + [x]) + rest.value;
    }
  }
}
