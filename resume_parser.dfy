/**
 * The deterministic glue of `ResumeParser` around the language-model call:
 * the choice of extractor by file extension, the empty-text guard, the removal of
 * a Markdown code fence from the model's answer, and the recursive sanitiser that
 * turns every number, boolean and null of the decoded tree into a string.
 * The extractors, the model call and `json.loads` are parameters.
 */
module ResumeParser {
  import opened Results
  import opened PyStr
  import opened PyJson

  type Bytes = seq<bv8>

  /** The failures `parse_resume` re-raises, by cause. */
  datatype ParseError =
    | UnsupportedFileType
    | ExtractionFailed
    | EmptyText
    | OracleCallFailed
    | InvalidJson

  /** `_sanitize_data_types`: dicts and lists are rebuilt member by member, `None`
      becomes `""`, and every other leaf becomes `str(leaf)`; a bool is an int in
      Python, so `False` becomes the string `"False"`. */
  function Sanitize(j: Json): Json
    decreases j
  {
    match j
    case JObj(fs) => JObj(seq(|fs|, i requires 0 <= i < |fs| => (fs[i].0, Sanitize(fs[i].1))))
    case JList(xs) => JList(seq(|xs|, i requires 0 <= i < |xs| => Sanitize(xs[i])))
    case JNull => JStr("")
    case _ => JStr(Str(j))
  }

  /** Every leaf is a string. */
  predicate StringLeaves(j: Json)
  {
    match j
    case JObj(fs) => forall i :: 0 <= i < |fs| ==> StringLeaves(fs[i].1)
    case JList(xs) => forall i :: 0 <= i < |xs| ==> StringLeaves(xs[i])
    case JStr(_) => true
    case _ => false
  }

  /** `a` and `b` have the same containers, the same keys in the same order and the
      same list lengths; only leaves may differ. */
  predicate SameShape(a: Json, b: Json)
  {
    match a
    case JObj(fs) =>
      && b.JObj?
      && |b.fields| == |fs|
      && forall i :: 0 <= i < |fs| ==> b.fields[i].0 == fs[i].0 && SameShape(fs[i].1, b.fields[i].1)
    case JList(xs) =>
      && b.JList?
      && |b.items| == |xs|
      && forall i :: 0 <= i < |xs| ==> SameShape(xs[i], b.items[i])
    case _ => !b.JObj? && !b.JList?
  }

  /** Sanitising keeps every key, in order, and every list length and order. */
  lemma {:induction false} SanitizeKeepsShape(j: Json)
    ensures SameShape(j, Sanitize(j))
  {
    match j
    case JObj(fs) =>
      forall i | 0 <= i < |fs| ensures SameShape(fs[i].1, Sanitize(j).fields[i].1) {
        SanitizeKeepsShape(fs[i].1);
      }
    case JList(xs) =>
      forall i | 0 <= i < |xs| ensures SameShape(xs[i], Sanitize(j).items[i]) {
        SanitizeKeepsShape(xs[i]);
      }
    case _ =>
  }

  /** Every leaf of a sanitised tree is a string. */
  lemma {:induction false} SanitizeStringLeaves(j: Json)
    ensures StringLeaves(Sanitize(j))
  {
    match j
    case JObj(fs) =>
      forall i | 0 <= i < |fs| ensures StringLeaves(Sanitize(j).fields[i].1) {
        SanitizeStringLeaves(fs[i].1);
      }
    case JList(xs) =>
      forall i | 0 <= i < |xs| ensures StringLeaves(Sanitize(j).items[i]) {
        SanitizeStringLeaves(xs[i]);
      }
    case _ =>
  }

  /** A tree whose leaves are all strings is left as it is. */
  lemma {:induction false} SanitizeFixesStringTrees(j: Json)
    requires StringLeaves(j)
    ensures Sanitize(j) == j
  {
    match j
    case JObj(fs) =>
      forall i | 0 <= i < |fs| ensures Sanitize(fs[i].1) == fs[i].1 {
        SanitizeFixesStringTrees(fs[i].1);
      }
      assert Sanitize(j).fields == fs;
    case JList(xs) =>
      forall i | 0 <= i < |xs| ensures Sanitize(xs[i]) == xs[i] {
        SanitizeFixesStringTrees(xs[i]);
      }
      assert Sanitize(j).items == xs;
    case JStr(_) =>
  }

  /** Sanitising twice is sanitising once. */
  lemma SanitizeIdempotent(j: Json)
    ensures Sanitize(Sanitize(j)) == Sanitize(j)
  {
    SanitizeStringLeaves(j);
    SanitizeFixesStringTrees(Sanitize(j));
  }

  /** After sanitising, a value is falsy only when it was `None`, `""`, `[]` or
      `{}`: a `False` or a `0` becomes a non-empty string and so is truthy. */
  lemma SanitizeTruthy(j: Json)
    ensures Truthy(Sanitize(j)) <==> !(j == JNull || j == JStr("") || j == JList([]) || j == JObj([]))
  {
    match j
    case JInt(i) =>
      assert Str(j) == IntToStr(i);
      if i < 0 {
        assert |IntToStr(i)| > 0;
      } else {
        assert |NatToStr(i)| > 0;
      }
    case _ =>
  }

  /** Two field lists with the same keys in the same order find a key at the same place. */
  lemma {:induction false} KeyIndexSameKeys(fs: Fields, gs: Fields, k: string)
    requires |fs| == |gs| && forall i :: 0 <= i < |fs| ==> fs[i].0 == gs[i].0
    ensures KeyIndex(fs, k) == KeyIndex(gs, k)
  {
    if fs != [] {
      KeyIndexSameKeys(fs[1..], gs[1..], k);
    }
  }

  /** Looking a key up in a sanitised dict gives the sanitised value; an absent key
      stays absent. */
  lemma SanitizeGet(fs: Fields, k: string)
    ensures Sanitize(JObj(fs)).JObj?
    ensures Get(Sanitize(JObj(fs)).fields, k) ==
            (if HasField(fs, k) then Some(Sanitize(GetOr(fs, k, JNull))) else None)
  {
    KeyIndexSameKeys(fs, Sanitize(JObj(fs)).fields, k);
  }

  const OpenFence := "```json"
  const CloseFence := "```"

  /** The clean-up of the model's answer before `json.loads`: a leading "```json" is
      cut off when present, then a trailing "```" when present. */
  function StripFences(content: string): string
  {
    var a := if StartsWith(content, OpenFence) then content[|OpenFence|..] else content;
    if EndsWith(a, CloseFence) then a[..|a| - |CloseFence|] else a
  }

  /** A fenced answer gives back exactly its body. */
  lemma StripFencesRoundTrip(body: string)
    ensures StripFences(OpenFence + body + CloseFence) == body
  {
    var c := OpenFence + body + CloseFence;
    assert c[..|OpenFence|] == OpenFence;
    assert c[|OpenFence|..] == body + CloseFence;
  }

  /** The opening fence alone does not end with a closing fence. */
  lemma OpenFenceNotClosing(a: string)
    ensures |a| < |CloseFence| ==> !EndsWith(OpenFence + a, CloseFence)
  {
    var c := OpenFence + a;
    if |a| < |CloseFence| {
      assert c[|c| - 3..][2 - |a|] == c[6] == 'n';
    }
  }

  /** Each fence is removed only when it is there, and nothing else is removed. */
  lemma StripFencesCases(c: string)
    ensures !StartsWith(c, OpenFence) && !EndsWith(c, CloseFence) ==> StripFences(c) == c
    ensures StartsWith(c, OpenFence) && !EndsWith(c, CloseFence) ==> OpenFence + StripFences(c) == c
    ensures !StartsWith(c, OpenFence) && EndsWith(c, CloseFence) ==> StripFences(c) + CloseFence == c
    ensures StartsWith(c, OpenFence) && EndsWith(c, CloseFence) ==>
              |c| >= |OpenFence| + |CloseFence| && OpenFence + StripFences(c) + CloseFence == c
  {
    if StartsWith(c, OpenFence) && EndsWith(c, CloseFence) {
      BothFencesCut(c);
    } else if StartsWith(c, OpenFence) {
      OpenFenceCut(c);
    } else if EndsWith(c, CloseFence) {
      assert c == c[..|c| - 3] + CloseFence;
    }
  }

  /** A text inside both fences loses exactly the two fences. */
  lemma BothFencesCut(c: string)
    requires StartsWith(c, OpenFence) && EndsWith(c, CloseFence)
    ensures |c| >= |OpenFence| + |CloseFence| && OpenFence + StripFences(c) + CloseFence == c
  {
    var a := c[|OpenFence|..];
    AfterOpenFence(c);
    var b := a[..|a| - 3];
    CloseFenceSplit(a);
    assert StripFences(c) == b;
    assert OpenFence + b + CloseFence == OpenFence + (b + CloseFence);
  }

  /** What follows an opening fence still ends with the closing fence, after at
      least its three characters. */
  lemma AfterOpenFence(c: string)
    requires StartsWith(c, OpenFence) && EndsWith(c, CloseFence)
    ensures var a := c[|OpenFence|..];
            c == OpenFence + a && |a| >= |CloseFence| && EndsWith(a, CloseFence)
  {
    var a := c[|OpenFence|..];
    assert c == OpenFence + a;
    OpenFenceNotClosing(a);
    assert a[|a| - 3..] == c[|c| - 3..];
  }

  lemma CloseFenceSplit(a: string)
    requires EndsWith(a, CloseFence)
    ensures a == a[..|a| - |CloseFence|] + CloseFence
  {
  }

  /** A text with only the opening fence loses only that fence. */
  lemma OpenFenceCut(c: string)
    requires StartsWith(c, OpenFence) && !EndsWith(c, CloseFence)
    ensures OpenFence + StripFences(c) == c
  {
    var a := c[|OpenFence|..];
    assert c == OpenFence + a;
    if |a| >= |CloseFence| {
      assert a[|a| - 3..] == c[|c| - 3..];
    }
  }

  datatype FileKind = Pdf | Word

  /** The dispatch of `_extract_text` on the lower-cased file name. */
  function FileKindOf(filename: string): (r: Result<FileKind, ParseError>)
    ensures r.Ok? <==> EndsWith(Lower(filename), ".pdf") || EndsWith(Lower(filename), ".doc")
                       || EndsWith(Lower(filename), ".docx")
    ensures r == Ok(Pdf) <==> EndsWith(Lower(filename), ".pdf")
    ensures r.Err? ==> r.error == UnsupportedFileType
  {
    var name := Lower(filename);
    if EndsWith(name, ".pdf") then Ok(Pdf)
    else if EndsWith(name, ".doc") || EndsWith(name, ".docx") then Ok(Word)
    else Err(UnsupportedFileType)
  }

  /** `_structure_with_openai` from the model's answer on: strip, remove the fence,
      decode, sanitise. */
  function StructureResponse(content: string, decode: string -> Option<Json>): Result<Json, ParseError>
  {
    match decode(StripFences(Strip(content)))
    case None => Err(InvalidJson)
    case Some(tree) => Ok(Sanitize(tree))
  }

  /** `parse_resume`: extract the text with the extractor the file name selects,
      refuse a text that is only whitespace, ask the model, and structure its answer. */
  function ParseResume(content: Bytes, filename: string,
                       extractPdf: Bytes -> Option<string>, extractWord: Bytes -> Option<string>,
                       oracle: string -> Option<string>, decode: string -> Option<Json>): Result<Json, ParseError>
  {
    var kind :- FileKindOf(filename);
    var extracted := if kind == Pdf then extractPdf(content) else extractWord(content);
    match extracted
    case None => Err(ExtractionFailed)
    case Some(text) =>
      if Strip(text) == "" then Err(EmptyText)
      else
        match oracle(text)
        case None => Err(OracleCallFailed)
        case Some(answer) => StructureResponse(answer, decode)
  }

  /** A file whose text is only whitespace is refused before the model is asked:
      the outcome is the same whatever the model and the decoder would do. */
  lemma EmptyTextStopsBeforeOracle(content: Bytes, filename: string,
                                   extractPdf: Bytes -> Option<string>, extractWord: Bytes -> Option<string>,
                                   oracle: string -> Option<string>, decode: string -> Option<Json>,
                                   oracle': string -> Option<string>, decode': string -> Option<Json>)
    requires FileKindOf(filename).Ok?
    requires var e := if FileKindOf(filename).value == Pdf then extractPdf(content) else extractWord(content);
             e.Some? && forall i :: 0 <= i < |e.value| ==> IsSpace(e.value[i])
    ensures ParseResume(content, filename, extractPdf, extractWord, oracle, decode) == Err(EmptyText)
    ensures ParseResume(content, filename, extractPdf, extractWord, oracle, decode)
         == ParseResume(content, filename, extractPdf, extractWord, oracle', decode')
  {
  }

  /** A name of any other type is refused before anything is extracted. */
  lemma UnsupportedStopsBeforeExtraction(content: Bytes, filename: string,
                                         extractPdf: Bytes -> Option<string>, extractWord: Bytes -> Option<string>,
                                         oracle: string -> Option<string>, decode: string -> Option<Json>)
    requires !EndsWith(Lower(filename), ".pdf") && !EndsWith(Lower(filename), ".doc")
    requires !EndsWith(Lower(filename), ".docx")
    ensures ParseResume(content, filename, extractPdf, extractWord, oracle, decode) == Err(UnsupportedFileType)
  {
  }

  /** Whatever the model answers, a successful parse has only strings at its leaves. */
  lemma ParseResumeStringLeaves(content: Bytes, filename: string,
                                extractPdf: Bytes -> Option<string>, extractWord: Bytes -> Option<string>,
                                oracle: string -> Option<string>, decode: string -> Option<Json>)
    requires ParseResume(content, filename, extractPdf, extractWord, oracle, decode).Ok?
    ensures StringLeaves(ParseResume(content, filename, extractPdf, extractWord, oracle, decode).value)
  {
    var kind := FileKindOf(filename).value;
    var text := (if kind == Pdf then extractPdf(content) else extractWord(content)).value;
    var answer := oracle(text).value;
    SanitizeStringLeaves(decode(StripFences(Strip(answer))).value);
  }
}
