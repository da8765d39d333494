/**
 * `ResumeParser` of resume_parser.py: choosing a reader by file extension and
 * turning the extracted text into a `CandidateProfile`. The PDF and DOCX
 * libraries are represented by what they yield for a file: page texts, or
 * paragraph texts, or an exception.
 */
module Parser {
  import opened Outcomes
  import opened Text
  import opened Profile
  import Sections
  import Patterns
  import EmailPattern

  /** `self.skills_keywords` */
  const SkillsKeywords: seq<string> := [
    "python", "java", "javascript", "react", "node.js", "sql", "mongodb",
    "postgresql", "aws", "docker", "kubernetes", "git", "machine learning",
    "deep learning", "tensorflow", "pytorch", "scikit-learn", "pandas",
    "numpy", "flask", "fastapi", "django", "html", "css", "typescript",
    "angular", "vue", "redis", "elasticsearch", "kafka", "spark",
    "hadoop", "tableau", "power bi", "azure", "gcp", "linux", "bash"]

  // ---------------------------------------------------------------------------
  // Choosing a reader

  /** The index of the last `c` in `s[..n]`. */
  function LastIndexBefore(s: string, c: char, n: nat): (r: Option<nat>)
    requires n <= |s|
    ensures r.Some? ==> r.value < n && s[r.value] == c && forall k :: r.value < k < n ==> s[k] != c
    ensures r.None? ==> forall k :: 0 <= k < n ==> s[k] != c
    decreases n
  {
    if n == 0 then None
    else if s[n - 1] == c then Some(n - 1)
    else LastIndexBefore(s, c, n - 1)
  }

  /** `s.rfind(c)`, with `None` for -1. */
  function LastIndex(s: string, c: char): (r: Option<nat>)
    ensures r.Some? ==> r.value < |s| && s[r.value] == c && forall k :: r.value < k < |s| ==> s[k] != c
    ensures r.None? ==> forall k :: 0 <= k < |s| ==> s[k] != c
  {
    LastIndexBefore(s, c, |s|)
  }

  /**
   * `os.path.splitext(path)[1]` on POSIX: from the last dot of the last path
   * component, provided something other than a dot comes before that dot in
   * the component; otherwise empty.
   */
  function Extension(path: string): (ext: string) {
    var base := match LastIndex(path, '/') case None => 0 case Some(i) => i + 1;
    match LastIndex(path, '.')
    case None => []
    case Some(d) => if d >= base && exists k :: base <= k < d && path[k] != '.' then path[d..] else []
  }

  /** An extension is a final piece of the path that starts with its only dot and holds no slash. */
  lemma ExtensionFacts(path: string)
    ensures var ext := Extension(path);
      ext == [] || (ext[0] == '.' && EndsWith(path, ext) && '.' !in ext[1..] && '/' !in ext)
  {
    var ext := Extension(path);
    if ext != [] {
      var d := LastIndex(path, '.').value;
      var base := match LastIndex(path, '/') case None => 0 case Some(i) => i + 1;
      assert ext == path[d..];
      assert forall k :: 0 <= k < |ext| ==> ext[k] == path[d + k];
      assert forall k :: d <= k < |path| ==> path[k] != '/';
    }
  }

  datatype Reader = PdfReader | DocxReader

  /** The reader `parse` calls: `.pdf` the PDF one; `.docx` and also `.doc` the DOCX one. */
  function ReaderFor(path: string): (r: Result<Reader, string>) {
    var ext := Lower(Extension(path));
    if ext == ".pdf" then Ok(PdfReader)
    else if ext == ".docx" || ext == ".doc" then Ok(DocxReader)
    else Err("Unsupported file format: " + ext)
  }

  /** Every path is either routed to a reader by its lower-cased extension or refused with that extension. */
  lemma ReaderForCases(path: string)
    ensures ReaderFor(path) == Ok(PdfReader) <==> Lower(Extension(path)) == ".pdf"
    ensures ReaderFor(path) == Ok(DocxReader) <==> Lower(Extension(path)) in [".docx", ".doc"]
    ensures ReaderFor(path).Err? <==> Lower(Extension(path)) !in [".pdf", ".docx", ".doc"]
    ensures ReaderFor(path).Err? ==> ReaderFor(path).error == "Unsupported file format: " + Lower(Extension(path))
  {
  }

  /** A legacy Word file goes to the DOCX reader, whatever the case of its extension. */
  lemma DocGoesToDocxReader()
    ensures ReaderFor("cv.DOC") == Ok(DocxReader)
  {
    var path := "cv.DOC";
    assert LastIndex(path, '/') == None;
    assert LastIndexBefore(path, '.', 3) == Some(2);
    assert LastIndex(path, '.') == Some(2);
    assert path[0] != '.';
    assert Extension(path) == ".DOC";
    assert Lower(".DOC") == ".doc";
  }

  // ---------------------------------------------------------------------------
  // Extracted text

  /** What `page.extract_text()` does for one page. */
  datatype PageText = Extracted(text: string) | NoText | Raises

  /** What pdfplumber yields for a file: an exception on opening, or its pages. */
  datatype PdfDocument = PdfUnreadable | PdfPages(pages: seq<PageText>)

  /** What python-docx yields for a file: an exception on opening, or its paragraph texts. */
  datatype DocxDocument = DocxUnreadable | DocxParagraphs(paragraphs: seq<string>)

  /** A stored resume, with what each reader library would yield for it. */
  datatype ResumeFile = ResumeFile(path: string, pdf: PdfDocument, docx: DocxDocument)

  /** The index of the first page whose extraction raises, or `|pages|`. */
  function FirstRaise(pages: seq<PageText>): (i: nat)
    ensures i <= |pages| && (i < |pages| ==> pages[i].Raises?)
    ensures forall k :: 0 <= k < i ==> !pages[k].Raises?
    decreases |pages|
  {
    if pages == [] then 0 else if pages[0].Raises? then 0 else 1 + FirstRaise(pages[1..])
  }

  /** The page texts one after another, with nothing between them; `None` counts as "". */
  function PagesText(pages: seq<PageText>): string
    decreases |pages|
  {
    if pages == [] then ""
    else
      var last := pages[|pages| - 1];
      PagesText(pages[..|pages| - 1]) + (if last.Extracted? then last.text else "")
  }

  /** `_extract_from_pdf`: the text gathered before an exception stops the reading is kept. */
  function PdfText(doc: PdfDocument): string {
    match doc
    case PdfUnreadable => ""
    case PdfPages(pages) => PagesText(pages[..FirstRaise(pages)])
  }

  method ExtractFromPdf(doc: PdfDocument) returns (text: string)
    ensures text == PdfText(doc)
  {
    text := "";
    if doc.PdfUnreadable? {
      return;
    }
    var pages := doc.pages;
    var i := 0;
    while i < |pages|
      invariant i <= FirstRaise(pages)
      invariant text == PagesText(pages[..i])
    {
      if pages[i].Raises? {
        break;
      }
      assert pages[..i + 1][..i] == pages[..i];
      if pages[i].Extracted? {
        text := text + pages[i].text;
      }
      i := i + 1;
    }
  }

  /** A page whose extraction raises hides every page after it. */
  lemma PdfTextStopsAtRaise(pages: seq<PageText>, k: nat)
    requires k < |pages| && pages[k].Raises? && forall j :: 0 <= j < k ==> !pages[j].Raises?
    ensures PdfText(PdfPages(pages)) == PagesText(pages[..k])
  {
  }

  /** Each paragraph followed by a newline. */
  function ParagraphsText(paragraphs: seq<string>): string
    decreases |paragraphs|
  {
    if paragraphs == [] then ""
    else ParagraphsText(paragraphs[..|paragraphs| - 1]) + paragraphs[|paragraphs| - 1] + "\n"
  }

  /** `_extract_from_docx` */
  function DocxText(doc: DocxDocument): string {
    match doc
    case DocxUnreadable => ""
    case DocxParagraphs(paragraphs) => ParagraphsText(paragraphs)
  }

  method ExtractFromDocx(doc: DocxDocument) returns (text: string)
    ensures text == DocxText(doc)
  {
    text := "";
    if doc.DocxUnreadable? {
      return;
    }
    var paragraphs := doc.paragraphs;
    for i := 0 to |paragraphs|
      invariant text == ParagraphsText(paragraphs[..i])
    {
      assert paragraphs[..i + 1][..i] == paragraphs[..i];
      text := text + paragraphs[i] + "\n";
    }
    assert paragraphs[..|paragraphs|] == paragraphs;
  }

  /** Splitting the DOCX text at newlines gives back the single-line paragraphs and a final "". */
  lemma {:induction false} SplitParagraphsText(paragraphs: seq<string>)
    requires forall p :: p in paragraphs ==> '\n' !in p
    ensures Split(ParagraphsText(paragraphs), '\n') == paragraphs + [""]
    decreases |paragraphs|
  {
    if paragraphs != [] {
      var init := paragraphs[..|paragraphs| - 1];
      var last := paragraphs[|paragraphs| - 1];
      assert paragraphs == init + [last];
      SplitParagraphsText(init);
      var before := ParagraphsText(init);
      assert ParagraphsText(paragraphs) == before + last + "\n";
      SplitAfterLine(before, last);
      var parts := Split(before, '\n');
      assert parts[..|parts| - 1] == init;
      assert parts[|parts| - 1] + last == last;
      assert paragraphs + [""] == init + [last, ""];
    }
  }

  /** Appending a line and a newline to a text appends the line to its split, before the final "". */
  lemma {:induction false} SplitAfterLine(text: string, line: string)
    requires '\n' !in line
    ensures Split(text + line + "\n", '\n') == Split(text, '\n')[..|Split(text, '\n')| - 1]
                                               + [Split(text, '\n')[|Split(text, '\n')| - 1] + line, ""]
    decreases |text|, 1
  {
    var i := IndexOf(text, '\n');
    if i == |text| {
      SplitLastLine(text, line);
      assert Split(text, '\n') == [text];
    } else {
      SplitAfterLineAt(text, line, i);
    }
  }

  /** The case of `SplitAfterLine` where the text has a newline, first at `i`. */
  lemma {:induction false} SplitAfterLineAt(text: string, line: string, i: nat)
    requires '\n' !in line && i < |text| && text[i] == '\n' && forall k :: 0 <= k < i ==> text[k] != '\n'
    ensures Split(text + line + "\n", '\n') == Split(text, '\n')[..|Split(text, '\n')| - 1]
                                               + [Split(text, '\n')[|Split(text, '\n')| - 1] + line, ""]
    decreases |text|, 0
  {
    var whole := text + line + "\n";
    var rest := text[i + 1..];
    SplitAtFirst(text, i);
    SplitAtFirst(whole, i);
    assert whole[..i] == text[..i];
    assert whole[i + 1..] == rest + line + "\n";
    SplitAfterLine(rest, line);
    var tail := Split(rest, '\n');
    var parts := Split(text, '\n');
    assert parts == [text[..i]] + tail;
    assert parts[..|parts| - 1] == [text[..i]] + tail[..|tail| - 1];
    assert parts[|parts| - 1] == tail[|tail| - 1];
  }

  /** A text and a line without newlines, then a newline: two parts. */
  lemma SplitLastLine(text: string, line: string)
    requires '\n' !in line && forall k :: 0 <= k < |text| ==> text[k] != '\n'
    ensures Split(text + line + "\n", '\n') == [text + line, ""]
  {
    var whole := text + line + "\n";
    assert forall k :: 0 <= k < |text| + |line| ==> whole[k] != '\n';
    SplitAtFirst(whole, |text| + |line|);
    assert whole[..|text| + |line|] == text + line;
    assert whole[|text| + |line| + 1..] == "";
  }

  /** A split cuts at the first newline. */
  lemma SplitAtFirst(s: string, i: nat)
    requires i < |s| && s[i] == '\n' && forall k :: 0 <= k < i ==> s[k] != '\n'
    ensures Split(s, '\n') == [s[..i]] + Split(s[i + 1..], '\n')
  {
    IndexOfFirst(s, i);
  }

  /** `IndexOf` finds the first occurrence. */
  lemma IndexOfFirst(s: string, i: nat)
    requires i < |s| && s[i] == '\n' && forall k :: 0 <= k < i ==> s[k] != '\n'
    ensures IndexOf(s, '\n') == i
  {
    var j := IndexOf(s, '\n');
  }

  /** The text the chosen reader produces. */
  function TextOf(file: ResumeFile, reader: Reader): string {
    match reader
    case PdfReader => PdfText(file.pdf)
    case DocxReader => DocxText(file.docx)
  }

  // ---------------------------------------------------------------------------
  // Name

  /** `re.match(r'^[A-Z][a-z]+ [A-Z][a-z]+', line)` succeeds. */
  predicate NameLike(line: string) {
    && |line| >= 1 && IsUpper(line[0])
    && var e := RunEnd(line, 1, IsLower);
       1 < e && e + 2 < |line| && line[e] == ' ' && IsUpper(line[e + 1]) && IsLower(line[e + 2])
  }

  /** The pattern read declaratively: a capital, lower-case letters, a space, a capital, a lower-case letter. */
  ghost predicate StartsWithTwoWords(line: string) {
    exists e: nat :: TwoWordsSplitAt(line, e)
  }

  /** `line[..e]` is a capitalised word and a space and a capitalised word begin at `e`. */
  predicate TwoWordsSplitAt(line: string, e: nat) {
    && 1 < e && e + 2 < |line| && IsUpper(line[0])
    && (forall k :: 1 <= k < e ==> IsLower(line[k]))
    && line[e] == ' ' && IsUpper(line[e + 1]) && IsLower(line[e + 2])
  }

  lemma NameLikeMeansTwoWords(line: string)
    ensures NameLike(line) <==> StartsWithTwoWords(line)
  {
    if NameLike(line) {
      assert TwoWordsSplitAt(line, RunEnd(line, 1, IsLower));
    }
    if StartsWithTwoWords(line) {
      var e: nat :| TwoWordsSplitAt(line, e);
      var run := RunEnd(line, 1, IsLower);
      assert run == e;
    }
  }

  /** A stripped line `_extract_name` accepts. */
  predicate IsNameLine(line: string) {
    3 < |line| < 50 && NameLike(line)
  }

  /** The first of `lines[i..]` that, once stripped, is a name line. */
  function NameFrom(lines: seq<string>, i: nat): (r: Option<string>)
    requires i <= |lines|
    decreases |lines| - i
  {
    if i == |lines| then None
    else if IsNameLine(Strip(lines[i])) then Some(Strip(lines[i]))
    else NameFrom(lines, i + 1)
  }

  /** The first five lines of the text. */
  function HeadLines(text: string): seq<string> {
    Take(Split(text, '\n'), 5)
  }

  function NameOf(text: string): Option<string> {
    NameFrom(HeadLines(text), 0)
  }

  /** `_extract_name` */
  method ExtractName(text: string) returns (name: Option<string>)
    ensures name == NameOf(text)
  {
    var lines := HeadLines(text);
    for i := 0 to |lines|
      invariant NameFrom(lines, 0) == NameFrom(lines, i)
    {
      var line := Strip(lines[i]);
      if IsNameLine(line) {
        return Some(line);
      }
    }
    return None;
  }

  /** `lines[j]`, stripped, is a name line and no line of `lines[i..j]` is. */
  predicate FirstNameLineAt(lines: seq<string>, i: nat, j: nat) {
    i <= j < |lines| && IsNameLine(Strip(lines[j]))
    && forall k :: i <= k < j ==> !IsNameLine(Strip(lines[k]))
  }

  /** The name is the stripped form of the first line from `i` on that qualifies, or there is none. */
  lemma NameFromFacts(lines: seq<string>, i: nat)
    requires i <= |lines|
    ensures NameFrom(lines, i).Some? ==>
      exists j: nat :: FirstNameLineAt(lines, i, j) && NameFrom(lines, i).value == Strip(lines[j])
    ensures NameFrom(lines, i).None? <==> forall j :: i <= j < |lines| ==> !IsNameLine(Strip(lines[j]))
  {
    NameFromFirst(lines, i);
    NameFromNone(lines, i);
  }

  lemma {:induction false} NameFromFirst(lines: seq<string>, i: nat)
    requires i <= |lines|
    ensures NameFrom(lines, i).Some? ==>
      exists j: nat :: FirstNameLineAt(lines, i, j) && NameFrom(lines, i).value == Strip(lines[j])
    decreases |lines| - i
  {
    if i < |lines| {
      var line := Strip(lines[i]);
      if IsNameLine(line) {
        assert NameFrom(lines, i) == Some(line);
        assert FirstNameLineAt(lines, i, i);
      } else {
        assert NameFrom(lines, i) == NameFrom(lines, i + 1);
        NameFromFirst(lines, i + 1);
        if NameFrom(lines, i + 1).Some? {
          var j: nat :| FirstNameLineAt(lines, i + 1, j) && NameFrom(lines, i + 1).value == Strip(lines[j]);
          forall k | i <= k < j
            ensures !IsNameLine(Strip(lines[k]))
          {
            if k > i {
              assert i + 1 <= k < j;
            }
          }
          assert FirstNameLineAt(lines, i, j);
        }
      }
    }
  }

  lemma {:induction false} NameFromNone(lines: seq<string>, i: nat)
    requires i <= |lines|
    ensures NameFrom(lines, i).None? <==> forall j :: i <= j < |lines| ==> !IsNameLine(Strip(lines[j]))
    decreases |lines| - i
  {
    if i < |lines| && !IsNameLine(Strip(lines[i])) {
      NameFromNone(lines, i + 1);
    }
  }

  /** The head lines are the first five lines, or all of them when there are fewer. */
  lemma HeadLinesFacts(text: string)
    ensures |HeadLines(text)| == if |Split(text, '\n')| < 5 then |Split(text, '\n')| else 5
    ensures forall i :: 0 <= i < |HeadLines(text)| ==> HeadLines(text)[i] == Split(text, '\n')[i]
  {
    var parts := Split(text, '\n');
    assert HeadLines(text) == Take(parts, 5);
  }

  /**
   * Only the first five lines are read; the name, if any, is the first of them
   * that qualifies once stripped, and it has 4 to 49 characters and starts
   * with two capitalised words.
   */
  lemma NameOfFacts(text: string)
    ensures |HeadLines(text)| == if |Split(text, '\n')| < 5 then |Split(text, '\n')| else 5
    ensures forall i :: 0 <= i < |HeadLines(text)| ==> HeadLines(text)[i] == Split(text, '\n')[i]
    ensures NameOf(text).Some? ==>
      exists j: nat :: FirstNameLineAt(HeadLines(text), 0, j) && NameOf(text).value == Strip(HeadLines(text)[j])
    ensures NameOf(text).Some? ==> 3 < |NameOf(text).value| < 50 && StartsWithTwoWords(NameOf(text).value)
    ensures NameOf(text).None? <==> forall i :: 0 <= i < |HeadLines(text)| ==> !IsNameLine(Strip(HeadLines(text)[i]))
  {
    HeadLinesFacts(text);
    var lines := HeadLines(text);
    NameFromFacts(lines, 0);
    var name := NameFrom(lines, 0);
    assert NameOf(text) == name;
    if name.Some? {
      var j: nat :| FirstNameLineAt(lines, 0, j) && name.value == Strip(lines[j]);
      assert IsNameLine(name.value);
      NameLikeMeansTwoWords(name.value);
    }
  }

  // ---------------------------------------------------------------------------
  // Skills

  /** The vocabulary keywords that occur in the lower-cased text. */
  function SkillsOf(text: string): set<string> {
    var lowered := Lower(text);
    set k | k in SkillsKeywords && Contains(lowered, k)
  }

  /**
   * `_extract_skills`: the section scan, then the scan of the whole text, then
   * duplicates removed. What the section scan finds also occurs in the whole
   * text, so it never changes the result.
   */
  method ExtractSkills(text: string) returns (skills: set<string>)
    ensures skills == SkillsOf(text)
  {
    var lowered := Lower(text);
    var found: seq<string> := [];
    var section := Sections.FindSection(lowered, Sections.SkillsHeadings, Sections.SkillsBreak);
    if section.Some? {
      var body := lowered[section.value.start..section.value.end];
      for i := 0 to |SkillsKeywords|
        invariant forall k :: k in found ==> k in SkillsKeywords && Contains(lowered, k)
      {
        if Contains(body, SkillsKeywords[i]) {
          ContainsInSlice(lowered, section.value.start, section.value.end, SkillsKeywords[i]);
          found := found + [SkillsKeywords[i]];
        }
      }
    }
    for i := 0 to |SkillsKeywords|
      invariant forall k :: k in found ==> k in SkillsKeywords && Contains(lowered, k)
      invariant forall j :: 0 <= j < i && Contains(lowered, SkillsKeywords[j]) ==> SkillsKeywords[j] in found
    {
      if Contains(lowered, SkillsKeywords[i]) && SkillsKeywords[i] !in found {
        found := found + [SkillsKeywords[i]];
      }
    }
    skills := set k | k in found;
  }

  // ---------------------------------------------------------------------------
  // Experience entries

  /** The body of the section with one of `headings`, searched in `text` ignoring case. */
  function SectionBody(text: string, headings: seq<string>): Option<string> {
    match Sections.FindSection(text, headings, Sections.BlockBreak)
    case None => None
    case Some(span) => Some(text[span.start..span.end])
  }

  function EntryOf(job: Patterns.JobGroups): ExperienceEntry {
    ExperienceEntry(Strip(job.title), job.date)
  }

  function EntriesOf(jobs: seq<Patterns.JobGroups>): (r: seq<ExperienceEntry>)
    ensures |r| == |jobs|
    decreases |jobs|
  {
    if jobs == [] then [] else EntriesOf(jobs[..|jobs| - 1]) + [EntryOf(jobs[|jobs| - 1])]
  }

  lemma {:induction false} EntriesOfFrom(jobs: seq<Patterns.JobGroups>)
    ensures forall e :: e in EntriesOf(jobs) ==> exists j :: j in jobs && e == EntryOf(j)
    decreases |jobs|
  {
    if jobs != [] {
      EntriesOfFrom(jobs[..|jobs| - 1]);
      assert forall j :: j in jobs[..|jobs| - 1] ==> j in jobs;
    }
  }

  /** The loop step of `ExtractExperience`: job i's entry follows the earlier ones. */
  lemma EntriesStep(jobs: seq<Patterns.JobGroups>, i: nat)
    requires i < |jobs|
    ensures EntriesOf(jobs[..i + 1]) == EntriesOf(jobs[..i]) + [EntryOf(jobs[i])]
  {
    assert jobs[..i + 1][..i] == jobs[..i];
  }

  /** The job lines of the experience section. */
  function JobsOf(text: string): seq<Patterns.JobGroups> {
    match SectionBody(text, Sections.ExperienceHeadings)
    case None => []
    case Some(body) => Patterns.JobsFrom(body, 0)
  }

  function ExperienceEntries(text: string): seq<ExperienceEntry> {
    EntriesOf(JobsOf(text))
  }

  /** `_extract_experience` */
  method ExtractExperience(text: string) returns (experience: seq<ExperienceEntry>)
    ensures experience == ExperienceEntries(text)
  {
    var jobs := JobsOf(text);
    experience := EntriesFromJobs(jobs);
  }

  /** The loop of `_extract_experience` over the job matches: one entry per job, title stripped. */
  method EntriesFromJobs(jobs: seq<Patterns.JobGroups>) returns (experience: seq<ExperienceEntry>)
    ensures experience == EntriesOf(jobs)
  {
    experience := [];
    for i := 0 to |jobs|
      invariant experience == EntriesOf(jobs[..i])
    {
      EntriesStep(jobs, i);
      experience := experience + [EntryOf(jobs[i])];
    }
    assert jobs[..|jobs|] == jobs;
  }

  /**
   * Each entry's title is a stripped piece of one line and each duration ends
   * in a four-digit year; without an experience section there are none.
   */
  lemma ExperienceEntriesFacts(text: string)
    ensures SectionBody(text, Sections.ExperienceHeadings).None? ==> ExperienceEntries(text) == []
    ensures forall e :: e in ExperienceEntries(text) ==>
      && '\n' !in e.title
      && (e.title != [] ==> !IsSpace(e.title[0]) && !IsSpace(e.title[|e.title| - 1]))
      && |e.duration| >= 4 && AllDigits(e.duration[|e.duration| - 4..])
  {
    var jobs := JobsOf(text);
    EntriesOfFrom(jobs);
    forall e | e in ExperienceEntries(text)
      ensures '\n' !in e.title
      ensures |e.duration| >= 4 && AllDigits(e.duration[|e.duration| - 4..])
    {
      var j :| j in jobs && e == EntryOf(j);
      assert Patterns.WellFormedGroups(j);
      StripKeepsOut(j.title, '\n');
    }
  }

  /** Stripping never brings in a character. */
  lemma StripKeepsOut(s: string, c: char)
    requires c !in s
    ensures c !in Strip(s)
  {
    var l := StripLeft(s);
    assert forall k :: 0 <= k < |l| ==> l[k] == s[|s| - |l| + k];
    var r := StripRight(l);
    assert forall k :: 0 <= k < |r| ==> r[k] == l[k];
  }

  // ---------------------------------------------------------------------------
  // Years of experience

  const YearsPatterns: seq<Patterns.YearsPattern> := [Patterns.NumberFirst, Patterns.KeywordFirst]

  /** `years = max(years, int(matches[0]))` over `patterns`, from 0. */
  function BestFirst(lowered: string, patterns: seq<Patterns.YearsPattern>): (r: nat)
    decreases |patterns|
  {
    if patterns == [] then 0
    else
      var first := Patterns.FirstYears(lowered, 0, patterns[|patterns| - 1]);
      var before := BestFirst(lowered, patterns[..|patterns| - 1]);
      if first.Some? && first.value > before then first.value else before
  }

  /** `_extract_experience_years` */
  function ExperienceYears(text: string): nat {
    var years := BestFirst(Lower(text), YearsPatterns);
    if years == 0 then |ExperienceEntries(text)| else years
  }

  lemma BestFirstStep(lowered: string, patterns: seq<Patterns.YearsPattern>, i: nat)
    requires i < |patterns|
    ensures var first := Patterns.FirstYears(lowered, 0, patterns[i]);
      var before := BestFirst(lowered, patterns[..i]);
      BestFirst(lowered, patterns[..i + 1]) == if first.Some? && first.value > before then first.value else before
  {
    assert patterns[..i + 1][..i] == patterns[..i];
  }

  method ExtractExperienceYears(text: string) returns (years: nat)
    ensures years == ExperienceYears(text)
  {
    var lowered := Lower(text);
    years := 0;
    for i := 0 to |YearsPatterns|
      invariant years == BestFirst(lowered, YearsPatterns[..i])
    {
      BestFirstStep(lowered, YearsPatterns, i);
      var first := Patterns.FirstYears(lowered, 0, YearsPatterns[i]);
      if first.Some? {
        years := if first.value > years then first.value else years;
      }
    }
    assert YearsPatterns[..|YearsPatterns|] == YearsPatterns;
    if years == 0 {
      var entries := ExtractExperience(text);
      if |entries| > 0 {
        years := |entries|;
      }
    }
  }

  /** The best of the first hits is at least each first hit, and is 0 or one of them. */
  lemma {:induction false} BestFirstFacts(lowered: string, patterns: seq<Patterns.YearsPattern>)
    ensures forall p :: p in patterns && Patterns.FirstYears(lowered, 0, p).Some? ==>
      Patterns.FirstYears(lowered, 0, p).value <= BestFirst(lowered, patterns)
    ensures BestFirst(lowered, patterns) == 0
      || exists p :: p in patterns && Patterns.FirstYears(lowered, 0, p) == Some(BestFirst(lowered, patterns))
    decreases |patterns|
  {
    if patterns != [] {
      var init := patterns[..|patterns| - 1];
      var last := patterns[|patterns| - 1];
      BestFirstFacts(lowered, init);
      assert patterns == init + [last];
      assert forall p :: p in init ==> p in patterns;
      var first := Patterns.FirstYears(lowered, 0, last);
      if first.Some? && first.value > BestFirst(lowered, init) {
        assert Patterns.FirstYears(lowered, 0, last) == Some(BestFirst(lowered, patterns));
      } else if BestFirst(lowered, init) != 0 {
        var p :| p in init && Patterns.FirstYears(lowered, 0, p) == Some(BestFirst(lowered, init));
        assert p in patterns;
      }
    }
  }

  /**
   * The years are the largest of the numbers at the first match of each
   * pattern in the lower-cased text; when that is 0 (no match, or only zeros)
   * they are the number of experience entries instead.
   */
  lemma ExperienceYearsFacts(text: string)
    ensures forall p :: p in YearsPatterns && Patterns.FirstYears(Lower(text), 0, p).Some?
                        && Patterns.FirstYears(Lower(text), 0, p).value > 0 ==>
      Patterns.FirstYears(Lower(text), 0, p).value <= ExperienceYears(text)
    ensures (forall p :: p in YearsPatterns ==> Patterns.FirstYears(Lower(text), 0, p) in {None, Some(0)})
      ==> ExperienceYears(text) == |ExperienceEntries(text)|
    ensures ExperienceYears(text) == |ExperienceEntries(text)|
      || exists p :: p in YearsPatterns && Patterns.FirstYears(Lower(text), 0, p) == Some(ExperienceYears(text))
  {
    BestFirstFacts(Lower(text), YearsPatterns);
  }

  // ---------------------------------------------------------------------------
  // Education entries

  function DegreesOf(text: string): seq<string> {
    match SectionBody(text, Sections.EducationHeadings)
    case None => []
    case Some(body) => Patterns.DegreesIn(body)
  }

  /** The `details` every education entry carries: the first 200 characters of the section. */
  function EducationDetails(text: string): string {
    match SectionBody(text, Sections.EducationHeadings)
    case None => ""
    case Some(body) => Take(body, 200)
  }

  function EducationEntriesOf(degrees: seq<string>, details: string): (r: seq<EducationEntry>)
    ensures |r| == |degrees|
    decreases |degrees|
  {
    if degrees == [] then []
    else EducationEntriesOf(degrees[..|degrees| - 1], details) + [EducationEntry(Strip(degrees[|degrees| - 1]), details)]
  }

  lemma {:induction false} EducationEntriesOfFrom(degrees: seq<string>, details: string)
    ensures forall e :: e in EducationEntriesOf(degrees, details) ==>
      exists d :: d in degrees && e == EducationEntry(Strip(d), details)
    decreases |degrees|
  {
    if degrees != [] {
      EducationEntriesOfFrom(degrees[..|degrees| - 1], details);
      assert forall d :: d in degrees[..|degrees| - 1] ==> d in degrees;
    }
  }

  function EducationEntries(text: string): seq<EducationEntry> {
    EducationEntriesOf(DegreesOf(text), EducationDetails(text))
  }

  /** `_extract_education` */
  method ExtractEducation(text: string) returns (education: seq<EducationEntry>)
    ensures education == EducationEntries(text)
  {
    education := [];
    var degrees := DegreesOf(text);
    var details := EducationDetails(text);
    for i := 0 to |degrees|
      invariant education == EducationEntriesOf(degrees[..i], details)
    {
      assert degrees[..i + 1][..i] == degrees[..i];
      education := education + [EducationEntry(Strip(degrees[i]), details)];
    }
    assert degrees[..|degrees|] == degrees;
  }

  /** No keyword has a whitespace character in it, so `strip` leaves a matched keyword alone. */
  lemma StripDegree(d: string)
    requires Lower(d) in Patterns.DegreeKeywords
    ensures Strip(d) == d
  {
    assert forall k :: 0 <= k < |d| ==> !IsSpace(Lower(d)[k]);
    assert forall k :: 0 <= k < |d| ==> !IsSpace(d[k]);
  }

  /**
   * One entry per degree keyword found in the section, each the keyword as
   * written; all of them share the first 200 characters of the section.
   */
  lemma EducationEntriesFacts(text: string)
    ensures SectionBody(text, Sections.EducationHeadings).None? ==> EducationEntries(text) == []
    ensures forall e :: e in EducationEntries(text) ==>
      Lower(e.degree) in Patterns.DegreeKeywords && e.details == EducationDetails(text) && |e.details| <= 200
  {
    var degrees := DegreesOf(text);
    EducationEntriesOfFrom(degrees, EducationDetails(text));
    forall e | e in EducationEntries(text)
      ensures Lower(e.degree) in Patterns.DegreeKeywords
    {
      var d :| d in degrees && e == EducationEntry(Strip(d), EducationDetails(text));
      StripDegree(d);
    }
  }

  // ---------------------------------------------------------------------------
  // Projects

  /** A piece `_extract_projects` keeps. */
  predicate IsProjectPiece(entry: string) {
    |Strip(entry)| > 20
  }

  function ProjectOf(entry: string): Project {
    Project(Strip(Split(entry, '\n')[0]), Take(entry, 300))
  }

  function ProjectsOf(pieces: seq<string>): (r: seq<Project>)
    ensures |r| <= |pieces|
    decreases |pieces|
  {
    if pieces == [] then []
    else
      var last := pieces[|pieces| - 1];
      ProjectsOf(pieces[..|pieces| - 1]) + (if IsProjectPiece(last) then [ProjectOf(last)] else [])
  }

  /** The first five pieces of the project section. */
  function ProjectCandidates(text: string): seq<string> {
    match SectionBody(text, Sections.ProjectHeadings)
    case None => []
    case Some(body) => Take(Patterns.ProjectPieces(body), 5)
  }

  function ProjectEntries(text: string): seq<Project> {
    ProjectsOf(ProjectCandidates(text))
  }

  /** `_extract_projects` */
  method ExtractProjects(text: string) returns (projects: seq<Project>)
    ensures projects == ProjectEntries(text)
  {
    projects := [];
    var pieces := ProjectCandidates(text);
    for i := 0 to |pieces|
      invariant projects == ProjectsOf(pieces[..i])
    {
      assert pieces[..i + 1][..i] == pieces[..i];
      var entry := pieces[i];
      if IsProjectPiece(entry) {
        projects := projects + [ProjectOf(entry)];
      }
    }
    assert pieces[..|pieces|] == pieces;
  }

  /** Every kept project comes from a qualifying piece, in order. */
  lemma {:induction false} ProjectsOfFacts(pieces: seq<string>)
    ensures forall p :: p in ProjectsOf(pieces) ==>
      exists e :: e in pieces && IsProjectPiece(e) && p == ProjectOf(e)
    decreases |pieces|
  {
    if pieces != [] {
      var init := pieces[..|pieces| - 1];
      ProjectsOfFacts(init);
      assert forall e :: e in init ==> e in pieces;
    }
  }

  /**
   * At most five projects, each from one of the first five pieces of the
   * section whose stripped length exceeds 20: its title is the piece's first
   * line stripped, its description the piece's first 300 characters.
   */
  lemma ProjectEntriesFacts(text: string)
    ensures |ProjectEntries(text)| <= 5
    ensures SectionBody(text, Sections.ProjectHeadings).None? ==> ProjectEntries(text) == []
    ensures forall p :: p in ProjectEntries(text) ==>
      exists e :: e in ProjectCandidates(text) && |Strip(e)| > 20
        && p.title == Strip(Split(e, '\n')[0]) && p.description == e[..if |e| < 300 then |e| else 300]
  {
    var pieces := ProjectCandidates(text);
    ProjectsOfFacts(pieces);
    forall p | p in ProjectEntries(text)
      ensures exists e :: e in pieces && |Strip(e)| > 20
                          && p.title == Strip(Split(e, '\n')[0]) && p.description == e[..if |e| < 300 then |e| else 300]
    {
      var e :| e in pieces && IsProjectPiece(e) && p == ProjectOf(e);
      ProjectOfFacts(e);
    }
  }

  lemma ProjectOfFacts(entry: string)
    ensures ProjectOf(entry).title == Strip(Split(entry, '\n')[0])
    ensures ProjectOf(entry).description == entry[..if |entry| < 300 then |entry| else 300]
  {
  }

  // ---------------------------------------------------------------------------
  // Certifications

  const CertificationWords: seq<string> := ["certified", "certification", "aws", "google", "microsoft"]

  /** A stripped line `_extract_certifications` keeps. */
  predicate IsCertification(entry: string) {
    var lowered := Lower(entry);
    |entry| > 5 && exists w :: w in CertificationWords && Contains(lowered, w)
  }

  function CertificationsOf(lines: seq<string>): (r: seq<string>)
    ensures |r| <= |lines|
    decreases |lines|
  {
    if lines == [] then []
    else
      var entry := Strip(lines[|lines| - 1]);
      CertificationsOf(lines[..|lines| - 1]) + (if IsCertification(entry) then [entry] else [])
  }

  /** The lines of the certification section. */
  function CertificationLines(text: string): seq<string> {
    match SectionBody(text, Sections.CertificationHeadings)
    case None => []
    case Some(body) => Split(body, '\n')
  }

  function CertificationEntries(text: string): seq<string> {
    CertificationsOf(CertificationLines(text))
  }

  /** `_extract_certifications` */
  method ExtractCertifications(text: string) returns (certifications: seq<string>)
    ensures certifications == CertificationEntries(text)
  {
    certifications := [];
    var lines := CertificationLines(text);
    for i := 0 to |lines|
      invariant certifications == CertificationsOf(lines[..i])
    {
      CertificationsStep(lines, i);
      var entry := Strip(lines[i]);
      if IsCertification(entry) {
        certifications := certifications + [entry];
      }
    }
    assert lines[..|lines|] == lines;
  }

  /** The loop step of `ExtractCertifications`: line i is kept or dropped after the earlier ones. */
  lemma CertificationsStep(lines: seq<string>, i: nat)
    requires i < |lines|
    ensures CertificationsOf(lines[..i + 1])
         == CertificationsOf(lines[..i]) + (if IsCertification(Strip(lines[i])) then [Strip(lines[i])] else [])
  {
    assert lines[..i + 1][..i] == lines[..i];
  }

  /** Every kept entry is a stripped line of the section longer than 5 that names a certification word. */
  lemma {:induction false} CertificationsOfFacts(lines: seq<string>)
    ensures forall c :: c in CertificationsOf(lines) ==>
      IsCertification(c) && exists l :: l in lines && c == Strip(l)
    decreases |lines|
  {
    if lines != [] {
      var init := lines[..|lines| - 1];
      CertificationsOfFacts(init);
      assert forall l :: l in init ==> l in lines;
    }
  }

  lemma CertificationEntriesFacts(text: string)
    ensures SectionBody(text, Sections.CertificationHeadings).None? ==> CertificationEntries(text) == []
    ensures forall c :: c in CertificationEntries(text) ==>
      |c| > 5 && !IsSpace(c[0]) && !IsSpace(c[|c| - 1]) && '\n' !in c
      && exists w :: w in CertificationWords && Contains(Lower(c), w)
  {
    var lines := CertificationLines(text);
    CertificationsOfFacts(lines);
    forall c | c in CertificationEntries(text)
      ensures '\n' !in c
    {
      var l :| l in lines && c == Strip(l);
      StripKeepsOut(l, '\n');
    }
  }

  // ---------------------------------------------------------------------------
  // parse

  /** The profile of an extracted text. */
  function ProfileOf(text: string): CandidateProfile {
    CandidateProfile(
      text, NameOf(text), EmailPattern.FindEmail(text), SkillsOf(text), ExperienceYears(text),
      ExperienceEntries(text), EducationEntries(text), ProjectEntries(text), CertificationEntries(text))
  }

  /** `parse`: refuse an unsupported extension, read the text, extract every field. */
  method Parse(file: ResumeFile) returns (r: Result<CandidateProfile, string>)
    ensures ReaderFor(file.path).Err? ==> r == Err(ReaderFor(file.path).error)
    ensures ReaderFor(file.path).Ok? ==> r == Ok(ProfileOf(TextOf(file, ReaderFor(file.path).value)))
  {
    var reader := ReaderFor(file.path);
    if reader.Err? {
      return Err(reader.error);
    }
    var text;
    if reader.value == PdfReader {
      text := ExtractFromPdf(file.pdf);
    } else {
      text := ExtractFromDocx(file.docx);
    }
    var name := ExtractName(text);
    var skills := ExtractSkills(text);
    var years := ExtractExperienceYears(text);
    var experience := ExtractExperience(text);
    var education := ExtractEducation(text);
    var projects := ExtractProjects(text);
    var certifications := ExtractCertifications(text);
    r := Ok(CandidateProfile(
      text, name, EmailPattern.FindEmail(text), skills, years, experience, education, projects, certifications));
  }
}
