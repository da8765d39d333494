/**
 * The helpers of ATS_resume_analyzer/utils.py that the batch screening uses:
 * text extraction chosen by file suffix, the first e-mail address, the
 * similarity-to-percent mapping, the default fit prediction and the
 * missing-skills keyword diff.
 */
module Utils {
  import opened Outcomes
  import opened Text
  import opened Rounding
  import EmailPattern
  import Parser

  // ---------------------------------------------------------------------------
  // Text extraction

  /** Each page that yields non-empty text, followed by a newline. */
  function PagesWithBreaks(pages: seq<Parser.PageText>): string
    decreases |pages|
  {
    if pages == [] then ""
    else
      var last := pages[|pages| - 1];
      PagesWithBreaks(pages[..|pages| - 1]) + (if last.Extracted? && last.text != "" then last.text + "\n" else "")
  }

  predicate AnyRaises(pages: seq<Parser.PageText>) {
    exists k :: 0 <= k < |pages| && pages[k].Raises?
  }

  /** `extract_text_from_pdf`: an exception anywhere discards everything read so far. */
  function PdfText(doc: Parser.PdfDocument): string {
    match doc
    case PdfUnreadable => ""
    case PdfPages(pages) => if AnyRaises(pages) then "" else Strip(PagesWithBreaks(pages))
  }

  method ExtractTextFromPdf(doc: Parser.PdfDocument) returns (text: string)
    ensures text == PdfText(doc)
  {
    if doc.PdfUnreadable? {
      return "";
    }
    var pages := doc.pages;
    var gathered := "";
    for i := 0 to |pages|
      invariant !AnyRaises(pages[..i])
      invariant gathered == PagesWithBreaks(pages[..i])
    {
      assert pages[..i + 1][..i] == pages[..i];
      if pages[i].Raises? {
        return "";
      }
      var pageText := pages[i];
      if pageText.Extracted? && pageText.text != "" {
        gathered := gathered + pageText.text + "\n";
      }
    }
    assert pages[..|pages|] == pages;
    text := Strip(gathered);
  }

  /** `extract_text_from_docx`: the paragraphs joined by newlines, stripped. */
  function DocxText(doc: Parser.DocxDocument): string {
    match doc
    case DocxUnreadable => ""
    case DocxParagraphs(paragraphs) => Strip(Join(paragraphs, "\n"))
  }

  /**
   * `extract_text_from_resume`: by the lower-cased suffix of the path, `.pdf`
   * or `.docx`; anything else, `.doc` included, gives "".
   */
  function ResumeText(path: string, pdf: Parser.PdfDocument, docx: Parser.DocxDocument): (text: string)
    ensures text != [] ==> !IsSpace(text[0]) && !IsSpace(text[|text| - 1])
    ensures !EndsWith(Lower(path), ".pdf") && !EndsWith(Lower(path), ".docx") ==> text == ""
  {
    if EndsWith(Lower(path), ".pdf") then PdfText(pdf)
    else if EndsWith(Lower(path), ".docx") then DocxText(docx)
    else ""
  }

  /** The two readers of the code base disagree on a legacy Word file: the parser reads it, this one does not. */
  lemma DocFilesDiffer(pdf: Parser.PdfDocument, docx: Parser.DocxDocument)
    ensures ResumeText("cv.DOC", pdf, docx) == ""
    ensures Parser.ReaderFor("cv.DOC") == Ok(Parser.DocxReader)
  {
    var lowered := Lower("cv.DOC");
    assert lowered == "cv.doc";
    assert lowered[|lowered| - 4..] != ".pdf";
    assert lowered[|lowered| - 5..] != ".docx";
    Parser.DocGoesToDocxReader();
  }

  // ---------------------------------------------------------------------------
  // E-mail

  /** `extract_email_from_text`: the first element of `re.findall`, if any. */
  function EmailFromText(text: string): (r: Option<string>) {
    var matches := EmailPattern.AllEmails(text, 0);
    if matches != [] then Some(matches[0]) else None
  }

  /** The two e-mail extractors of the code base always agree. */
  lemma EmailFromTextIsParserEmail(text: string)
    ensures EmailFromText(text) == EmailPattern.FindEmail(text)
  {
    EmailPattern.FirstOfAllEmails(text);
  }

  // ---------------------------------------------------------------------------
  // Scores and fit

  /** `compute_semantic_score`: `round((similarity + 1) * 50, 2)`. */
  function SemanticScore(similarity: real): (score: real)
    ensures -1.0 <= similarity <= 1.0 ==> 0.0 <= score <= 100.0
  {
    var scaled := (similarity + 1.0) * 50.0;
    if -1.0 <= similarity <= 1.0 then Round2Percent(scaled); Round2(scaled)
    else Round2(scaled)
  }

  /** A closer resume never scores lower. */
  lemma SemanticScoreMonotone(a: real, b: real)
    requires a <= b
    ensures SemanticScore(a) <= SemanticScore(b)
  {
    Round2Monotone((a + 1.0) * 50.0, (b + 1.0) * 50.0);
  }

  /** The ends of the similarity range map onto the ends of the percent range. */
  lemma SemanticScoreEnds()
    ensures SemanticScore(-1.0) == 0.0 && SemanticScore(0.0) == 50.0 && SemanticScore(1.0) == 100.0
  {
    Round2OfCents(0);
    Round2OfCents(5000);
    Round2OfCents(10000);
  }

  /**
   * `predict_fit`: 1 (fit) when no model is loaded, otherwise the class the
   * model predicts for the embedding, given here as `prediction`.
   */
  function PredictFit(model: Option<int>): (fit: int)
    ensures model.None? ==> fit == 1
    ensures model.Some? ==> fit == model.value
  {
    match model
    case None => 1
    case Some(prediction) => prediction
  }

  // ---------------------------------------------------------------------------
  // Missing skills

  const TechKeywords: seq<string> := [
    "python", "java", "javascript", "sql", "react", "angular",
    "node.js", "aws", "docker", "kubernetes", "git", "machine learning",
    "deep learning", "data science", "api", "rest", "graphql"]

  /** A keyword the job description asks for and the resume does not mention. */
  predicate IsMissingKeyword(keyword: string, jobLower: string, resumeLower: string) {
    Contains(jobLower, keyword) && !Contains(resumeLower, keyword)
  }

  /** The title-cased missing keywords, in keyword order. */
  function MissingKeywords(keywords: seq<string>, jobLower: string, resumeLower: string): (r: seq<string>)
    ensures |r| <= |keywords|
    decreases |keywords|
  {
    if keywords == [] then []
    else
      var last := keywords[|keywords| - 1];
      MissingKeywords(keywords[..|keywords| - 1], jobLower, resumeLower)
        + (if IsMissingKeyword(last, jobLower, resumeLower) then [Title(last)] else [])
  }

  /** The given skills whose lower-case form is not in the resume, in the given order. */
  function MissingGiven(skills: seq<string>, resumeLower: string): (r: seq<string>)
    ensures |r| <= |skills|
    decreases |skills|
  {
    if skills == [] then []
    else
      var last := skills[|skills| - 1];
      MissingGiven(skills[..|skills| - 1], resumeLower)
        + (if !Contains(resumeLower, Lower(last)) then [last] else [])
  }

  /** What `extract_skills_missing` returns. */
  function SkillsMissing(resumeText: string, jobDescription: string, commonSkills: Option<seq<string>>): seq<string> {
    match commonSkills
    case None => Take(MissingKeywords(TechKeywords, Lower(jobDescription), Lower(resumeText)), 5)
    case Some(skills) => MissingGiven(skills, Lower(resumeText))
  }

  /** `extract_skills_missing` */
  method ExtractSkillsMissing(resumeText: string, jobDescription: string, commonSkills: Option<seq<string>>)
    returns (missing: seq<string>)
    ensures missing == SkillsMissing(resumeText, jobDescription, commonSkills)
  {
    missing := [];
    var resumeLower := Lower(resumeText);
    if commonSkills.None? {
      var jobLower := Lower(jobDescription);
      for i := 0 to |TechKeywords|
        invariant missing == MissingKeywords(TechKeywords[..i], jobLower, resumeLower)
      {
        assert TechKeywords[..i + 1][..i] == TechKeywords[..i];
        var keyword := TechKeywords[i];
        if Contains(jobLower, keyword) && !Contains(resumeLower, keyword) {
          missing := missing + [Title(keyword)];
        }
      }
      assert TechKeywords[..|TechKeywords|] == TechKeywords;
      return Take(missing, 5);
    }
    var skills := commonSkills.value;
    for i := 0 to |skills|
      invariant missing == MissingGiven(skills[..i], resumeLower)
    {
      assert skills[..i + 1][..i] == skills[..i];
      if !Contains(resumeLower, Lower(skills[i])) {
        missing := missing + [skills[i]];
      }
    }
    assert skills[..|skills|] == skills;
  }

  /** Exactly the missing keywords are reported, title-cased. */
  lemma {:induction false} MissingKeywordsExact(keywords: seq<string>, jobLower: string, resumeLower: string)
    ensures forall t :: t in MissingKeywords(keywords, jobLower, resumeLower) ==>
      exists k :: k in keywords && IsMissingKeyword(k, jobLower, resumeLower) && t == Title(k)
    ensures forall k :: k in keywords && IsMissingKeyword(k, jobLower, resumeLower) ==>
      Title(k) in MissingKeywords(keywords, jobLower, resumeLower)
    decreases |keywords|
  {
    if keywords != [] {
      var init := keywords[..|keywords| - 1];
      MissingKeywordsExact(init, jobLower, resumeLower);
      assert keywords == init + [keywords[|keywords| - 1]];
      assert forall k :: k in init ==> k in keywords;
    }
  }

  /** Exactly the given skills absent from the resume are reported. */
  lemma {:induction false} MissingGivenExact(skills: seq<string>, resumeLower: string)
    ensures forall s :: s in MissingGiven(skills, resumeLower) <==> s in skills && !Contains(resumeLower, Lower(s))
    decreases |skills|
  {
    if skills != [] {
      var init := skills[..|skills| - 1];
      MissingGivenExact(init, resumeLower);
      assert skills == init + [skills[|skills| - 1]];
    }
  }

  /**
   * Without a skill list: at most five title-cased keywords, each asked for by
   * the job and absent from the resume; when at most five qualify, all of
   * them. With a list: exactly the listed skills absent from the resume.
   */
  lemma SkillsMissingFacts(resumeText: string, jobDescription: string, commonSkills: Option<seq<string>>)
    ensures var r := SkillsMissing(resumeText, jobDescription, commonSkills);
      commonSkills.None? ==>
        && |r| <= 5
        && (forall t :: t in r ==>
              exists k :: k in TechKeywords && IsMissingKeyword(k, Lower(jobDescription), Lower(resumeText)) && t == Title(k))
        && (|MissingKeywords(TechKeywords, Lower(jobDescription), Lower(resumeText))| <= 5 ==>
              forall k :: k in TechKeywords && IsMissingKeyword(k, Lower(jobDescription), Lower(resumeText)) ==>
                Title(k) in r)
    ensures var r := SkillsMissing(resumeText, jobDescription, commonSkills);
      commonSkills.Some? ==>
        forall s :: s in r <==> s in commonSkills.value && !Contains(Lower(resumeText), Lower(s))
  {
    var jobLower, resumeLower := Lower(jobDescription), Lower(resumeText);
    if commonSkills.None? {
      var all := MissingKeywords(TechKeywords, jobLower, resumeLower);
      MissingKeywordsExact(TechKeywords, jobLower, resumeLower);
      var r := Take(all, 5);
      assert forall t :: t in r ==> t in all;
    } else {
      MissingGivenExact(commonSkills.value, resumeLower);
    }
  }
}
