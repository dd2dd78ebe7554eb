/** The RAG service client: collection names derived from a hash of the
    assignment id, the endpoint URLs, and the re-raising of transport errors
    for training and scoring. The HTTP calls are oracles. */
module RagClient {
  import opened Base

  predicate IsLowerHex(c: char) {
    '0' <= c <= '9' || 'a' <= c <= 'f'
  }

  /** The text of a `hexdigest()` of SHA-256: 64 lower-case hex digits. */
  type HexDigest = s: string | |s| == 64 && forall i :: 0 <= i < |s| ==> IsLowerHex(s[i])
    witness Zeros(64)

  function Zeros(n: nat): (r: string)
    ensures |r| == n && forall i :: 0 <= i < n ==> r[i] == '0'
  {
    if n == 0 then "" else "0" + Zeros(n - 1)
  }

  /** `hashlib.sha256(s.encode()).hexdigest()`; the hash itself is left to
      this function. */
  type Sha256Hex = string -> HexDigest

  const CollectionPrefix := "assign_"

  /** `generate_rag_collection_name(assignment_id)`. */
  function CollectionName(id: Uuid, sha: Sha256Hex): string {
    CollectionPrefix + sha(id)[..16]
  }

  /** The name is `assign_` and the first 16 hex digits of the hash: 23
      characters, within the 63 the vector store accepts, all lower-case
      letters, digits or `_`. */
  lemma CollectionNameShape(id: Uuid, sha: Sha256Hex)
    ensures var n := CollectionName(id, sha);
      |n| == 23 && |n| <= 63
      && n[..7] == "assign_" && n[7..] == sha(id)[..16]
      && forall i :: 0 <= i < |n| ==> n[i] == '_' || 'a' <= n[i] <= 'z' || '0' <= n[i] <= '9'
  {
    var n := CollectionName(id, sha);
    forall i | 0 <= i < |n| ensures n[i] == '_' || 'a' <= n[i] <= 'z' || '0' <= n[i] <= '9' {
      if i >= 7 { assert n[i] == sha(id)[i - 7] && IsLowerHex(sha(id)[i - 7]); } else { assert n[i] == "assign_"[i]; }
    }
  }

  /** Names are a function of the id alone; two names differ only if the
      hash prefixes differ. */
  lemma CollectionNameDeterministic(a: Uuid, b: Uuid, sha: Sha256Hex)
    ensures CollectionName(a, sha) == CollectionName(b, sha) <==> sha(a)[..16] == sha(b)[..16]
  {
    CollectionNameShape(a, sha);
    CollectionNameShape(b, sha);
  }

  // ----- endpoints -----

  /** A request to the service as the client sends it. */
  datatype Request = Request(
    httpMethod: string,
    url: string,
    form: seq<(string, string)>,
    file: Option<string>,
    body: Option<Json>)

  /** The request, `raise_for_status()` and `resp.json()`: the decoded body
      or the exception raised. */
  type Http = Request -> Result<Json>

  /** `open(file_path, "rb")`: None when the file opens, else the error. */
  type OpenFile = string -> Option<Error>

  function TrainUrl(ragPath: string): string { ragPath + "/train" }
  function ScoreUrl(ragPath: string): string { ragPath + "/score" }
  function DeleteUrl(ragPath: string, name: string): string { ragPath + "/collection/" + name }
  function GenerateUrl(ragPath: string): string { ragPath + "/generate-questions" }

  /** The endpoints hang off the service root at distinct paths. */
  lemma EndpointsDistinct(ragPath: string, name: string)
    ensures TrainUrl(ragPath) != ScoreUrl(ragPath)
    ensures |DeleteUrl(ragPath, name)| > |ragPath| && DeleteUrl(ragPath, name)[..|ragPath|] == ragPath
    ensures TrainUrl(ragPath)[|ragPath|..] == "/train" && ScoreUrl(ragPath)[|ragPath|..] == "/score"
  {
    assert TrainUrl(ragPath)[|ragPath| + 1] == 't';
    assert ScoreUrl(ragPath)[|ragPath| + 1] == 's';
  }

  /** `train_rag_from_pdf(file_path, collection_name)`: a failure to open the
      file is not a transport error and propagates as is. */
  function TrainRagFromPdf(ragPath: string, path: string, collection: string, open: OpenFile, http: Http)
    : Result<Json>
  {
    if open(path).Some? then Err(open(path).value)
    else Reraised("RAG training failed: ",
                  http(Request("POST", TrainUrl(ragPath), [("collection_name", collection)], Some(path), None)))
  }

  /** `score_assignment_text(collection_name, extracted_text)`. */
  function ScoreAssignmentText(ragPath: string, collection: string, text: string, http: Http): Result<Json> {
    Reraised("RAG scoring failed: ",
             http(Request("POST", ScoreUrl(ragPath), [("collection_name", collection), ("extracted_text", text)], None, None)))
  }

  /** `delete_rag_collection(collection_name)`: errors are not wrapped. */
  function DeleteRagCollection(ragPath: string, name: string, http: Http): Result<Json> {
    http(Request("DELETE", DeleteUrl(ragPath, name), [], None, None))
  }

  /** `generate_questions_from_rag(...)`: errors are not wrapped. */
  function GenerateQuestionsFromRag(ragPath: string, collection: string, n: int, difficulty: string, http: Http)
    : Result<Json>
  {
    http(Request("POST", GenerateUrl(ragPath), [], None,
                 Some(JObj([("collection_name", JStr(collection)), ("num_questions", JNum(n as real)),
                            ("difficulty", JStr(difficulty))]))))
  }

  /** Training sends the file and the collection name to the train endpoint;
      a transport failure becomes a `RuntimeError` with the training prefix,
      any other failure and any body pass through. */
  lemma TrainingErrors(ragPath: string, path: string, collection: string, open: OpenFile, http: Http)
    requires open(path).None?
    ensures var req := Request("POST", TrainUrl(ragPath), [("collection_name", collection)], Some(path), None);
      var r := TrainRagFromPdf(ragPath, path, collection, open, http);
      (http(req).Ok? ==> r == http(req))
      && (http(req).Err? && http(req).error.RequestException? ==>
            r == Err(RuntimeError("RAG training failed: " + http(req).error.msg)))
      && (http(req).Err? && !http(req).error.RequestException? ==> r == http(req))
  {
  }

  /** A file that cannot be opened fails training with its own error, and no
      request is made. */
  lemma TrainingUnreadableFile(ragPath: string, path: string, collection: string, open: OpenFile, http: Http)
    requires open(path).Some?
    ensures TrainRagFromPdf(ragPath, path, collection, open, http) == Err(open(path).value)
  {
  }

  /** Scoring is wrapped the same way with its own prefix; the service never
      sees a transport failure as a result. */
  lemma ScoringErrors(ragPath: string, collection: string, text: string, http: Http)
    ensures var req := Request("POST", ScoreUrl(ragPath), [("collection_name", collection), ("extracted_text", text)], None, None);
      var r := ScoreAssignmentText(ragPath, collection, text, http);
      (http(req).Ok? ==> r == http(req))
      && (http(req).Err? && http(req).error.RequestException? ==>
            r == Err(RuntimeError("RAG scoring failed: " + http(req).error.msg)))
      && !(r.Err? && r.error.RequestException?)
  {
  }

  /** Deleting a collection sends one DELETE to the collection's own URL,
      with no form, file or body; unlike training and scoring, a transport
      failure reaches the caller as a `RequestException`, unwrapped. */
  lemma DeleteUnwrapped(ragPath: string, name: string, http: Http)
    ensures var req := Request("DELETE", DeleteUrl(ragPath, name), [], None, None);
      var r := DeleteRagCollection(ragPath, name, http);
      r == http(req)
      && (http(req).Err? && http(req).error.RequestException? ==> r.Err? && r.error.RequestException?)
      && DeleteUrl(ragPath, name)[|ragPath|..] == "/collection/" + name
  {
    assert DeleteUrl(ragPath, name) == ragPath + ("/collection/" + name);
  }

  /** Question generation posts a JSON body with exactly the collection, the
      count and the difficulty to the generate endpoint, and returns the
      reply or the transport error as is. */
  lemma GenerateUnwrapped(ragPath: string, collection: string, n: int, difficulty: string, http: Http)
    ensures var body := JObj([("collection_name", JStr(collection)), ("num_questions", JNum(n as real)),
                              ("difficulty", JStr(difficulty))]);
      var req := Request("POST", GenerateUrl(ragPath), [], None, Some(body));
      var r := GenerateQuestionsFromRag(ragPath, collection, n, difficulty, http);
      r == http(req)
      && Lookup(body.fields, "collection_name") == Some(JStr(collection))
      && Lookup(body.fields, "num_questions") == Some(JNum(n as real))
      && Lookup(body.fields, "difficulty") == Some(JStr(difficulty))
      && (http(req).Err? && http(req).error.RequestException? ==> r.Err? && r.error.RequestException?)
  {
    var f := [("collection_name", JStr(collection)), ("num_questions", JNum(n as real)),
              ("difficulty", JStr(difficulty))];
    var f2 := f[..2];
    assert f2[..1] == [f[0]];
    assert Lookup(f2, "collection_name") == Lookup([f[0]], "collection_name") == Some(JStr(collection));
    assert Lookup(f, "collection_name") == Lookup(f2, "collection_name");
  }
}
