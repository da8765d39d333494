# ATS Resume Analyzer: a verified model of the screening core

This project models the core of the ATS Resume Analyzer, a resume-screening service written in Python, in Dafny. The core has four parts:

- **The parser (`resume_parser.py`).** It turns a PDF or Word resume into a candidate profile: name, e-mail, skills, years of experience, job entries, degrees, projects and certifications.
- **The scorer (`ai_scorer.py`).** It rates a profile against a job role. It combines five component scores (semantic similarity, skills, experience, education, projects) with a weight table. It shortlists at 70, and writes recommendations for candidates below that.
- **The batch-screening helpers (`ATS_resume_analyzer/utils.py`).** These are:
  - text extraction chosen by file suffix;
  - the first e-mail address;
  - the similarity-to-percent mapping;
  - the default fit prediction;
  - the missing-skills diff.
- **The batch-screening service (`ATS_resume_analyzer/main.py`).** It:
  - processes each upload into a record with a status and an e-mail status;
  - slices uploads into batches and ranks the results by score;
  - checks the upload;
  - tallies the dashboard.

## Modules

- `Outcomes`: `Option` and `Result`
- `Text`: The Python string operations the code uses: `lower`, `strip`, `in`, `split`, `join`, `title`, `int`.
- `Rounding`: `round(x, 2)` and `round(x, 1)` as round-half-even on exact reals.
- `Profile`: The parsed records.
- `Scorer`: The scoring in `ai_scorer.py`.
- `Sections`: The section-heading regular expression of the parser.
- `EmailPattern`: The shared e-mail regular expression.
- `Patterns`: The years, job-line, degree and project-split expressions.
- `Parser`: `resume_parser.py`.
- `Utils`: `ATS_resume_analyzer/utils.py`.
- `Screening`: `ATS_resume_analyzer/main.py`.

The regular expressions are written as the deterministic backtracking search Python's `re` performs, for the inputs the expressions can meet. The section, e-mail, years and job-line searches come with lemmas saying that they report the leftmost match. The lazy groups, the section body and the job title, are proved to be the shortest that lets the rest of the pattern match. The degree search is proved to find nothing exactly when no keyword occurs. The project split is proved to lose nothing and to cut at every newline its lookahead accepts.

Code that loops and accumulates becomes methods with loop invariants. Each method is proved equal to a recursive specification function, and the specification functions carry the lemmas. Code that only computes becomes functions.

Where the code and the project's own description of the system disagree, the model follows the code:

- Years of experience take the first match of each pattern, not the largest number in the text.
- A `.doc` file is read as Word by the parser. The batch-screening text extraction returns no text for it (`Utils.DocFilesDiffer`).
- The projects score has no lower clamp: negative similarities give a negative score, and with the default weights the overall score can be negative; it stays at or above -2, since the education score is never below 30 (`Scorer.DefaultOverallRange`).
- Two recommendations fire when the experience or education details carry no `meets_requirement`. These are the experience advice when no experience is required, and the education advice when there is no education (`Scorer.ExperienceAdviceWithoutRequirement`).
- `top_projects` is the first three relevant projects in input order, not the three most relevant.
- A resume whose database insert fails after its record was appended contributes two records: its own and an error record (`Screening.AppendedFacts`).

## Model

| member | source | states |
|---|---|---|
| Scorer.SemanticScore | ai_scorer.py:60-82 | The similarity is clamped to [0, 1] and scaled to percent: the score lies in [0, 100], and equals 100 × similarity inside the clamp. |
| Scorer.SemanticScoreMonotone | ai_scorer.py:60-82 | A higher similarity never gives a lower semantic score. |
| Scorer.NormalizeAll | ai_scorer.py:99-100 | Each skill, lower-cased and stripped, in the same order. |
| Scorer.MatchSkills | ai_scorer.py:103-115 | The nested matching loop yields exactly the matched and missing lists of the specification functions. |
| Scorer.MatchedMissingPartition | ai_scorer.py:103-115 | Matched and missing together are a permutation of the required skills. A required skill is matched iff some resume skill contains it or is contained in it. |
| Scorer.UnmatchedAvoidsMatched | ai_scorer.py:122 | The extra skills are resume skills that were not matched. |
| Scorer.SkillsScore | ai_scorer.py:84-131 | The method computes the skills assessment: 50 with no required skills, else the match ratio in percent, with the explanation lists. |
| Scorer.SkillsAssessmentFacts | ai_scorer.py:95-131 | The skills score lies in [0, 100]. Matched plus missing account for every required skill. At most five extras are reported. |
| Scorer.SkillsScoreIsRatio | ai_scorer.py:118-119 | With required skills, the score is the number matched over the number required, times 100. |
| Scorer.FullSkillsScoreWhenAllListed | ai_scorer.py:106-119 | When every required skill is listed verbatim in the resume, the score is 100 and nothing is missing. |
| Scorer.AllListedAllMatched | ai_scorer.py:106-115 | A requirement list drawn from the resume skills is matched entirely. |
| Scorer.ExperienceScore | ai_scorer.py:133-159 | 100 with no requirement or when the requirement is met, else the linear fraction in [0, 100). The details record whether the requirement is met. |
| Scorer.ExperienceScoreMonotone | ai_scorer.py:144-151 | More years never lower the experience score. |
| Scorer.RequiredLevels | ai_scorer.py:176-193 | The loop over the role table returns the levels of the first key contained in the lower-cased job title, else the bachelor default. |
| Scorer.LevelsForRoleIsFirstKey | ai_scorer.py:184-193 | Those levels belong to the first table key the title contains, and are the default exactly when no key occurs. |
| Scorer.CollectLevels | ai_scorer.py:196-201 | The inner loop appends the required levels found in one entry's text, in level order. |
| Scorer.EducationScore | ai_scorer.py:161-215 | The method computes the education assessment. |
| Scorer.EducationScoreCases | ai_scorer.py:172-207 | 30 without education. Otherwise 100 iff some required level occurs in some degree-and-details text, and 60 otherwise. |
| Scorer.Degrees | ai_scorer.py:210 | `found_education` lists each entry's degree in order. |
| Scorer.Similarities | ai_scorer.py:238-250 | One similarity in [-1, 1] per project whose stripped text has at least ten characters. |
| Scorer.Relevance | ai_scorer.py:254 | The relevance percent of a similarity in [-1, 1] lies in [-100, 100]. |
| Scorer.RateProjects | ai_scorer.py:235-255 | The project loop yields exactly the similarity list and the relevant-project list of the specification. |
| Scorer.ProjectsScore | ai_scorer.py:217-273 | The method computes the projects assessment. |
| Scorer.ProjectsScoreRange | ai_scorer.py:228-262 | The projects score lies in [-100, 100], with no lower clamp. It is 0 when there are no projects or none is long enough to rate. |
| Scorer.TopProjectsAreFirstRelevant | ai_scorer.py:264-267 | `top_projects` is the first three relevant projects in input order. `relevant_projects` counts all relevant ones. |
| Scorer.Recommendations | ai_scorer.py:389-411 | At 70 or more, only the strong-candidate advice. Below 70, each advice appears iff its condition holds (missing skills, experience not met, education not met), nothing else appears, and the list has one entry per condition that holds, in that order. |
| Scorer.GenerateRecommendations | ai_scorer.py:389-411 | The imperative advice list equals the specification. |
| Scorer.ExperienceAdviceWithoutRequirement | ai_scorer.py:144-145 | With no experience requirement, the details carry no `meets_requirement`, so the experience advice still fires below 70. |
| Scorer.ReadWeights | ai_scorer.py:320-325 | Reading the weight table succeeds iff all five keys are present. Otherwise it fails on an absent key. |
| Scorer.Assessment | ai_scorer.py:275-387 | The overall result fails exactly when a weight is missing. Otherwise it is shortlisted iff the rounded total is at least 70. |
| Scorer.OverallScore | ai_scorer.py:275-387 | The method that computes every component and the weighted total equals the assessment. |
| Scorer.DefaultOverallRange | ai_scorer.py:52-58 | With the default weights and non-negative years, the overall score lies in [-2, 100]. |
| Scorer.ShortlistBoundaryInclusive | ai_scorer.py:332 | A total of exactly 70 is shortlisted. |
| Scorer.RoundedTotalDecides | ai_scorer.py:329-332 | The decision reads the rounded total: 69.995 rounds to 70.00. |
| Rounding.Round2 | ai_scorer.py:329 | `round(x, 2)` is a whole number of cents within half a cent of x. |
| Rounding.RoundHalfEven | ai_scorer.py:329 | The integer nearest to x; at an exact tie, the even one. |
| Rounding.Round2Monotone | ai_scorer.py:329 | Rounding to cents preserves order. |
| Rounding.Round2OfCents | ai_scorer.py:329 | A whole number of cents is left unchanged. |
| Rounding.Round1Percent | ATS_resume_analyzer/main.py:420 | `round(x, 1)` of a percentage is still a percentage. |
| Sections.FindSection | resume_parser.py:110-111 | The section body is non-empty and ends where the pattern's break or end anchor matches. |
| Sections.FindSectionAfterHeading | resume_parser.py:110-111 | The section body starts after the end of a heading that occurs in the text with at least one character after it. |
| Sections.SearchFromIsLeftmost | resume_parser.py:110-111 | The section found is the one whose heading occurs leftmost. |
| Sections.SearchFromFindsNothing | resume_parser.py:110-111 | No section is found iff no heading position opens one. |
| EmailPattern.EmailAtIsEmail | resume_parser.py:98-102 | What the matcher accepts has the e-mail shape: local part, '@', domain, '.', a top-level domain of two or more, word boundaries at both ends. |
| EmailPattern.EmailAtComplete | resume_parser.py:98-102 | Wherever an e-mail shape starts, the matcher accepts that start. |
| EmailPattern.FindEmailFacts | resume_parser.py:98-102 | `_extract_email` returns an e-mail-shaped substring starting at the leftmost position where any shape starts. It returns None iff no shape occurs. |
| EmailPattern.FirstOfAllEmails | ATS_resume_analyzer/utils.py:97-103 | The first `findall` result is the `search` result. The list is empty iff the search fails. |
| Patterns.FirstYearsNone | resume_parser.py:130-139 | A years pattern finds nothing iff it matches at no position. |
| Patterns.FirstYearsIsLeftmost | resume_parser.py:137-139 | A pattern's count is the digits of its leftmost match. |
| Patterns.OneSeparatorOnly | resume_parser.py:132 | `[:;]?` takes at most one separator: "experience:;5 years" has no match of the keyword-first pattern, while "experience: 5 years" matches with the digits at 12..13. |
| Patterns.FirstHit | resume_parser.py:137-139 | The leftmost position with a match and that match. None iff no position in range matches. |
| Patterns.FirstYearsSkipsTo | resume_parser.py:137-139 | Positions where the pattern does not match are passed over: the search from p reports what the search from the first match reports. |
| Patterns.JobsFrom | resume_parser.py:161-168 | Every job match has a non-empty single-line title and a date ending in four digits. |
| Patterns.LazyEnd | resume_parser.py:161-162 | The lazy `(.+?)` ends at the first position after which the rest of the pattern matches, every character it takes being on the line. When it finds none, every position where the rest would match lies past a newline. |
| Patterns.JobAtShortest | resume_parser.py:161-162 | The title of a job match is the shortest after which the dash and the date match, and after it they match as reported. |
| Patterns.JobAtNone | resume_parser.py:161-162 | There is no job match at a position exactly when every title end where the dash and the date would match lies past a newline. |
| Patterns.JobsFromNone | resume_parser.py:161-162 | `findall` finds no job exactly when no position has a match. |
| Patterns.JobsFromLeftmost | resume_parser.py:161-162 | The first job reported is the match at the leftmost position that has one, and the rest of the list is the search resumed where that match ends. |
| Patterns.DegreesIn | resume_parser.py:183-190 | Every degree found lower-cases to one of the degree keywords. |
| Patterns.KeywordsFromEmpty | resume_parser.py:183-190 | No degree is found iff no keyword occurs in the text. |
| Patterns.JoinProjectPieces | resume_parser.py:205-206 | Splitting before capital or numbered lines loses nothing: joining the pieces with newlines gives back the text. |
| Patterns.SplitPoint | resume_parser.py:205 | The cut is the first newline from the given position that the lookahead `(?=[A-Z]\|\d+\.)` accepts: it is accepted, and no earlier newline is. |
| Patterns.ProjectPiecesCutEverywhere | resume_parser.py:205 | The split cuts at every accepted newline: no piece keeps a newline that the lookahead accepts. |
| Parser.ReaderForCases | resume_parser.py:39-48 | `.pdf` selects the PDF reader, `.docx` and `.doc` the Word reader, and anything else fails with "Unsupported file format: " and the extension. |
| Parser.ExtensionFacts | resume_parser.py:39 | `splitext` returns "" or a suffix of the path that starts with its only '.' and contains no '/'. |
| Parser.DocGoesToDocxReader | resume_parser.py:43-44 | An upper-case `.DOC` file goes to the Word reader. |
| Parser.ExtractFromPdf | resume_parser.py:65-74 | The page loop returns the text of the pages read before the first page that raises. |
| Parser.PdfTextStopsAtRaise | resume_parser.py:65-74 | A page that raises keeps the text gathered before it. |
| Parser.ExtractFromDocx | resume_parser.py:76-85 | The paragraph loop returns each paragraph followed by a newline. |
| Parser.SplitParagraphsText | resume_parser.py:76-85 | Splitting that text at newlines gives the paragraphs back, plus a trailing empty line. |
| Parser.ExtractName | resume_parser.py:87-96 | The loop returns the name the specification picks. |
| Parser.NameOfFacts | resume_parser.py:87-96 | Only the first five lines of the text are looked at. The name is the first of them that qualifies once stripped: 4 to 49 characters, starting with two capitalised words. None iff no head line qualifies. |
| Parser.NameFromFacts | resume_parser.py:90-96 | The result is the stripped first qualifying line from i on, and None iff no line from i on qualifies. |
| Parser.NameLikeMeansTwoWords | resume_parser.py:93 | The character scan accepts a line iff it starts with two capitalised words. |
| Parser.ExtractSkills | resume_parser.py:104-125 | The skills are exactly the keywords that occur in the lower-cased text; the pass over the skills section adds nothing the whole-text pass misses. |
| Parser.ExtractExperienceYears | resume_parser.py:127-148 | The loop over the two patterns equals the specification: the largest first-match count, else the number of job entries. |
| Parser.ExperienceYearsFacts | resume_parser.py:127-148 | The result is at least every pattern's first count. It falls back to the job-entry count iff every pattern finds nothing or 0. |
| Parser.BestFirstFacts | resume_parser.py:137-139 | The maximum is attained by some pattern's first match, or is 0. |
| Parser.ExtractExperience | resume_parser.py:150-170 | The method yields the job entries of the specification. |
| Parser.EntriesFromJobs | resume_parser.py:164-168 | The loop over the job matches yields one entry per job, in order, with the title stripped and the date kept as the duration. |
| Parser.ExperienceEntriesFacts | resume_parser.py:150-170 | No experience section gives []. Every entry has a stripped single-line title and a duration ending in four digits. |
| Parser.ExtractEducation | resume_parser.py:172-192 | The method yields one entry per degree match, in order. |
| Parser.EducationEntriesFacts | resume_parser.py:172-192 | No education section gives []. Every degree is a keyword up to case. Every details field is the first 200 characters of the section. |
| Parser.ExtractProjects | resume_parser.py:194-214 | The method yields the project entries of the specification. |
| Parser.ProjectEntriesFacts | resume_parser.py:194-214 | At most five projects; none without a section. Each comes from a piece longer than 20 stripped characters. The title is its first line, stripped, and the description its first 300 characters (all of it when shorter). |
| Parser.ExtractCertifications | resume_parser.py:216-234 | The method yields the certification lines of the specification. |
| Parser.CertificationEntriesFacts | resume_parser.py:216-234 | No section gives []. Each entry is a stripped single line mentioning a certification word. |
| Parser.Parse | resume_parser.py:24-63 | An unsupported extension fails with its message. Otherwise the profile is built from the text the chosen reader yields. |
| Utils.ExtractTextFromPdf | ATS_resume_analyzer/utils.py:28-48 | The page loop returns "" as soon as a page raises. Otherwise it returns the non-empty pages, each followed by a newline, stripped. |
| Utils.ResumeText | ATS_resume_analyzer/utils.py:68-84 | The text has no whitespace at either end, and is "" for any suffix other than `.pdf` and `.docx` up to case. |
| Utils.DocFilesDiffer | ATS_resume_analyzer/utils.py:68-84 | A `.DOC` file yields no text here, while the parser reads it as Word. |
| Utils.EmailFromTextIsParserEmail | ATS_resume_analyzer/utils.py:86-103 | The two e-mail extractors of the code base always agree. |
| Utils.SemanticScore | ATS_resume_analyzer/utils.py:149-154 | A similarity in [-1, 1] maps into [0, 100]. |
| Utils.SemanticScoreMonotone | ATS_resume_analyzer/utils.py:149-154 | A higher similarity never gives a lower score. |
| Utils.SemanticScoreEnds | ATS_resume_analyzer/utils.py:152 | -1, 0 and 1 map to 0, 50 and 100. |
| Utils.PredictFit | ATS_resume_analyzer/utils.py:174-192 | 1 with no model, else the model's prediction. |
| Utils.ExtractSkillsMissing | ATS_resume_analyzer/utils.py:194-232 | Both loops equal the specification of the missing skills. |
| Utils.SkillsMissingFacts | ATS_resume_analyzer/utils.py:208-232 | Without a list: at most five title-cased keywords, each asked for by the job and absent from the resume, and all of them when at most five qualify. With a list: exactly the listed skills absent from the resume. |
| Utils.MissingKeywordsExact | ATS_resume_analyzer/utils.py:214-224 | The keyword diff reports exactly the qualifying keywords, title-cased. |
| Screening.StatusFor | ATS_resume_analyzer/main.py:181-188 | Shortlisted iff the score is at least 80 and the fit is 1, else Rejected. |
| Screening.MlFitIsPredictFit | ATS_resume_analyzer/main.py:178 | The guard in front of `predict_fit` agrees with its own default: 1 without a model. |
| Screening.SendEmail | ATS_resume_analyzer/main.py:113-115 | Without both credentials nothing is sent. Otherwise it is sent only if delivery succeeds. |
| Screening.EmailStatusFor | ATS_resume_analyzer/main.py:194-200 | "No Email Found" iff there is no address. With an address, "Sent Automatically" iff the mail was sent, else "Failed". |
| Screening.ProcessSingleResume | ATS_resume_analyzer/main.py:138-243 | The records appended are those the specification gives for the file's text and outcome. |
| Screening.ScoreResume | ATS_resume_analyzer/main.py:168-213 | The record built step by step (e-mail, score, fit, status, missing skills, mail outcome) is exactly the completed record `RecordFor` whose invariants `RecordForFacts` proves. |
| Screening.RecordForFacts | ATS_resume_analyzer/main.py:168-213 | A completed record is shortlisted iff score ≥ 80 and fit = 1. A sent mail implies an address. The score lies in [0, 100] for a similarity in [-1, 1]. The fit is 1 without a model. |
| Screening.AppendedFacts | ATS_resume_analyzer/main.py:154-243 | One or two records per resume, two iff the database insert fails after the append. Empty text gives only the error record. Every record keeps the status invariant. |
| Screening.AppendedAllCount | ATS_resume_analyzer/main.py:279-295 | Between n and 2n records for n files, exactly n when no insert fails. |
| Screening.BatchesCover | ATS_resume_analyzer/main.py:279-280 | The `range(0, n, size)` slices cover the files exactly once, in order, each holding 1 to `size` files. |
| Screening.ProcessBatch | ATS_resume_analyzer/main.py:283-293 | One batch appends the records of its files in order. |
| Screening.ProcessAllBatches | ATS_resume_analyzer/main.py:279-296 | The batch loop collects the records of all files in order. The batches it takes are, in order, the `range(0, n, size)` slices of `Screening.BatchesFrom` (a loop invariant). |
| Screening.SortByScoreFacts | ATS_resume_analyzer/main.py:306 | The sort orders records by score, highest first, and is a permutation. |
| Screening.InsertByScoreSorted | ATS_resume_analyzer/main.py:306 | Inserting a record keeps the list ordered by score. |
| Screening.AssignRankings | ATS_resume_analyzer/main.py:309-310 | The k-th record gets ranking k. |
| Screening.ProcessResumesBatch | ATS_resume_analyzer/main.py:245-312 | The result is every record, sorted by score and ranked from 1. |
| Screening.RankedResultsFacts | ATS_resume_analyzer/main.py:306-310 | The ranked list holds exactly the records, each as often as in the input (equal multisets), scores never increase, and rankings run 1..n. |
| Screening.ValidateUpload | ATS_resume_analyzer/main.py:352-359 | No files, more than 1000, or a blank job description is refused, in that order of precedence. Anything else passes. |
| Screening.UploadResumes | ATS_resume_analyzer/main.py:336-369 | A refused upload answers with its error, and a valid one always succeeds. The results are then the records of all batches sorted by score and ranked from 1. `processed` is the number of results, at least `total_files`, and equal to it when no insert fails. |
| Screening.Dashboard | ATS_resume_analyzer/main.py:386-420 | The loop counts shortlisted and rejected rows and sums the scores. The average is rounded to one decimal, 0.0 with no rows. |
| Screening.CountsPartition | ATS_resume_analyzer/main.py:392-397 | Shortlisted, rejected and error counts add up to the number of rows. |
| Screening.DashboardFacts | ATS_resume_analyzer/main.py:386-420 | Shortlisted plus rejected never exceed the rows. The average is 0.0 without rows, and a percentage when all scores are. |

## Left out

- **Embeddings.** The sentence-embedding model, cosine similarity and `np.mean` are not part of this model. The similarities are parameters: a function bounded to [-1, 1] in `Scorer`, and a per-file value in `Screening`.
- **The ML classifier.** Its prediction is a per-file parameter.
- **PDF and Word libraries.** They are represented by what they yield: pages that give text, give nothing, or raise, and paragraphs. File I/O, saving uploads and deleting them afterwards are not modelled. Neither is the error message the PDF and Word readers print when the library raises (resume_parser.py:72-73 and 83-84); only the text gathered so far is modelled.
- **Case folding and character classes.** Lower/upper casing, `\w`, `\d` and `[A-Z]` are ASCII only. `str.isspace` is modelled on its full code-point set.
- **Floating point.** Scores are exact reals. `round` is round-half-even on the exact value, which can differ from CPython on values that are not exactly representable.
- **Mail.** SMTP delivery and the message texts are not modelled. Delivery is a per-file boolean.
- **Storage and the web layer.** The SQLite database, `processing_state`, the HTML pages, the template context and the dashboard's display mapping (`"Fit"`/`"Not Fit"`, `"N/A"`, JSON decoding) are not modelled.
- **Database contents.** The stored `job_description` column and the JSON encoding of `missing_skills` are not modelled; records keep the list.
- **Record fields.** `Screening.ScreeningRecord` keeps the e-mail flag as a boolean where the source stores 0/1.
- Screening.ProcessResumesBatch: the files of a batch run concurrently in the source (`asyncio.gather`); the model processes them in upload order, so the order of records inside a batch before sorting is one of the possible orders.
- Screening.ProcessResumesBatch: the function that specifies the sort inserts each record after its equals, which is Python's stable order. That stability is not stated as a lemma; only descending order and permutation are proved.
- Screening.AppendedFacts: where an exception strikes is an input (before the record, or during the database insert). Which library raises is not modelled.
- Parser.Extension: follows `os.path.splitext` as it behaves on POSIX, where only '/' separates path components; on Windows a `\` also separates them, and a dot before the last backslash would give a different extension. That variant is not modelled.
- Parser.ExtractSkills: returns a set; `list(set(...))` in the source has no specified order.
- Scorer.DefaultOverallRange: the [-2, 100] bound is proved for the default weight table only; custom weight tables are unconstrained in the source.
- Scorer.Assessment: the explanation's string fields (the `match_ratio` text, the messages) and numpy type conversion are not modelled.
- Scorer.Recommendations: the advice is a datatype; the text it renders to is `Scorer.AdviceText`, which carries no proved property.
- EmailPattern.FindEmailFacts: the characterisation is the leftmost start. The end chosen at that start is proved to satisfy the shape, but that it is the backtracking order's end (last dot, longest top-level domain) is stated only by the matcher's definition.
