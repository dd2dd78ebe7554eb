/** The text half of `extract_text_from_pdf_file`: the OCR service's pages
    joined into one text. The upload itself is an oracle. */
module OcrClient {
  import opened Base

  /** Opening the file, the POST, `raise_for_status()` and `resp.json()`:
      the decoded body or the exception raised, which is propagated as is. */
  type OcrService = string -> Result<Json>

  const PageSeparator := "\n\n"

  /** `sep.join(parts)`. */
  function Join(parts: seq<string>, sep: string): (r: string)
    ensures parts == [] ==> r == ""
    ensures |parts| == 1 ==> r == parts[0]
  {
    if parts == [] then ""
    else if |parts| == 1 then parts[0]
    else Join(parts[..|parts| - 1], sep) + sep + parts[|parts| - 1]
  }

  /** `[p.get("extracted_text", "") for p in pages]`: the list is built in
      full first, so a page that is not an object raises `AttributeError`
      before any text is checked. */
  function Gathered(pages: seq<Json>): (r: Result<seq<Json>>)
    ensures r.Ok? <==> forall i :: 0 <= i < |pages| ==> pages[i].JObj?
    ensures r.Err? ==> r.error == AttributeError("object has no attribute 'get'")
    ensures r.Ok? ==> |r.value| == |pages| && forall i :: 0 <= i < |pages| ==>
      r.value[i] == GetOrDefault(pages[i].fields, "extracted_text", JStr(""))
  {
    if pages == [] then Ok([])
    else
      var init := pages[..|pages| - 1];
      var p := pages[|pages| - 1];
      assert forall i :: 0 <= i < |init| ==> init[i] == pages[i];
      match Gathered(init)
      case Err(e) => Err(e)
      case Ok(vs) =>
        if !p.JObj? then Err(AttributeError("object has no attribute 'get'"))
        else Ok(vs + [GetOrDefault(p.fields, "extracted_text", JStr(""))])
  }

  /** The type check `str.join` makes on its items. */
  function Strings(items: seq<Json>): (r: Result<seq<string>>)
    ensures r.Ok? <==> forall i :: 0 <= i < |items| ==> items[i].JStr?
    ensures r.Ok? ==> |r.value| == |items| && forall i :: 0 <= i < |items| ==> items[i] == JStr(r.value[i])
  {
    if items == [] then Ok([])
    else
      var init := items[..|items| - 1];
      assert forall i :: 0 <= i < |init| ==> init[i] == items[i];
      match Strings(init)
      case Err(e) => Err(e)
      case Ok(ts) =>
        match items[|items| - 1]
        case JStr(t) => Ok(ts + [t])
        case _ => Err(TypeError("sequence item: expected str instance"))
  }

  /** The page texts `join` receives: one per page, that page's
      `extracted_text` or "". A page that is not an object fails first, with
      `AttributeError`; otherwise a text that is not a string fails the join. */
  function PageTexts(pages: seq<Json>): (r: Result<seq<string>>)
    ensures r.Ok? ==> |r.value| == |pages|
    ensures r.Ok? ==> forall i :: 0 <= i < |pages| ==>
      pages[i].JObj? && GetOrDefault(pages[i].fields, "extracted_text", JStr("")) == JStr(r.value[i])
    ensures r.Ok? <==> forall i :: 0 <= i < |pages| ==>
      pages[i].JObj? && GetOrDefault(pages[i].fields, "extracted_text", JStr("")).JStr?
    ensures (exists i :: 0 <= i < |pages| && !pages[i].JObj?) ==> r == Err(AttributeError("object has no attribute 'get'"))
  {
    match Gathered(pages)
    case Err(e) => Err(e)
    case Ok(vs) => Strings(vs)
  }

  /** The joined text of a decoded OCR response. */
  function TextOf(data: Json): Result<string> {
    if !data.JObj? then Err(AttributeError("object has no attribute 'get'"))
    else match Iterate(GetOrDefault(data.fields, "pages", JArr([])))
      case Err(e) => Err(e)
      case Ok(pages) =>
        match PageTexts(pages)
        case Err(e) => Err(e)
        case Ok(texts) => Ok(Join(texts, PageSeparator))
  }

  /** `extract_text_from_pdf_file(file_path)`: the joined text and the raw
      response. */
  function ExtractTextFromPdfFile(path: string, ocr: OcrService): (r: Result<(string, Json)>)
    ensures ocr(path).Err? ==> r == Err(ocr(path).error)
    ensures r.Ok? ==> ocr(path) == Ok(r.value.1) && TextOf(r.value.1) == Ok(r.value.0)
  {
    match ocr(path)
    case Err(e) => Err(e)
    case Ok(data) =>
      match TextOf(data)
      case Err(e) => Err(e)
      case Ok(text) => Ok((text, data))
  }

  /** The join of two non-empty runs of pages is the join of each, separated
      once: the text keeps page order. */
  lemma {:induction false} JoinAppend(a: seq<string>, b: seq<string>, sep: string)
    requires a != [] && b != []
    ensures Join(a + b, sep) == Join(a, sep) + sep + Join(b, sep)
  {
    var ab := a + b;
    var last := b[|b| - 1];
    var b' := b[..|b| - 1];
    assert ab[..|ab| - 1] == a + b' && ab[|ab| - 1] == last;
    if |b| == 1 {
      assert a + b' == a;
    } else {
      JoinAppend(a, b', sep);
      ConcatAssoc(Join(a, sep), Join(b', sep), last, sep);
    }
  }

  /** The contents of a join read from the front: the first page text, one
      separator, then the join of the remaining pages. */
  lemma JoinCons(parts: seq<string>, sep: string)
    requires |parts| > 1
    ensures Join(parts, sep) == parts[0] + sep + Join(parts[1..], sep)
  {
    assert [parts[0]] + parts[1..] == parts;
    JoinAppend([parts[0]], parts[1..], sep);
  }

  lemma ConcatAssoc(x: string, y: string, z: string, sep: string)
    ensures (x + sep + y) + sep + z == x + sep + (y + sep + z)
  {
  }

  /** The length of a join: the parts plus one separator between each pair. */
  lemma {:induction false} JoinLength(parts: seq<string>, sep: string)
    requires parts != []
    ensures |Join(parts, sep)| == SumLengths(parts) + (|parts| - 1) * |sep|
  {
    if |parts| > 1 {
      var init := parts[..|parts| - 1];
      var last := parts[|parts| - 1];
      JoinLength(init, sep);
      SumLengthsSnoc(init, last);
      assert init + [last] == parts;
      var n := |init| - 1;
      assert (n + 1) * |sep| == n * |sep| + |sep|;
      assert |Join(parts, sep)| == |Join(init, sep)| + |sep| + |last|;
    }
  }

  function SumLengths(parts: seq<string>): nat {
    if parts == [] then 0 else |parts[0]| + SumLengths(parts[1..])
  }

  lemma {:induction false} SumLengthsSnoc(parts: seq<string>, x: string)
    ensures SumLengths(parts + [x]) == SumLengths(parts) + |x|
  {
    if parts != [] {
      assert (parts + [x])[1..] == parts[1..] + [x];
      SumLengthsSnoc(parts[1..], x);
    }
  }

  /** No `pages` key, or an empty list of pages, gives the empty text; a page
      without `extracted_text` contributes the empty string. */
  lemma MissingPages(data: Json)
    requires data.JObj? && (Lookup(data.fields, "pages").None? || Lookup(data.fields, "pages") == Some(JArr([])))
    ensures TextOf(data) == Ok("")
  {
  }

  lemma PageWithoutText(p: Json)
    requires p.JObj? && Lookup(p.fields, "extracted_text").None?
    ensures PageTexts([p]) == Ok([""])
  {
    assert [p][..0] == [];
    assert PageTexts([]) == Ok([]);
    assert [] + [""] == [""];
  }

  lemma SingleText(t: string)
    ensures GetOrDefault([("extracted_text", JStr(t))], "extracted_text", JStr("")) == JStr(t)
  {
    assert [("extracted_text", JStr(t))][..0] == [];
  }

  /** Two pages give their texts separated by one blank line. */
  lemma TwoPages(data: Json, t1: string, t2: string)
    requires data == JObj([("pages", JArr([JObj([("extracted_text", JStr(t1))]), JObj([("extracted_text", JStr(t2))])]))])
    ensures TextOf(data) == Ok(t1 + "\n\n" + t2)
  {
    var pages := [JObj([("extracted_text", JStr(t1))]), JObj([("extracted_text", JStr(t2))])];
    SingleText(t1);
    SingleText(t2);
    assert pages[..1][..0] == [];
    assert PageTexts([]) == Ok([]);
    assert [] + [t1] == [t1];
    assert PageTexts(pages[..1]) == Ok([t1]);
    assert pages[..|pages| - 1] == pages[..1];
    assert [t1] + [t2] == [t1, t2];
    assert PageTexts(pages) == Ok([t1, t2]);
  }
}
