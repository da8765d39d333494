/**
 * The decision rules of the batch screening service in
 * ATS_resume_analyzer/main.py: the record made for each resume, the slicing
 * of an upload into batches, the ranking by score, the checks on an upload and
 * the dashboard tallies. Embeddings, the ML classifier, SMTP delivery and
 * exceptions are inputs: each upload carries what they contribute for it.
 */
module Screening {
  import opened Outcomes
  import opened Text
  import opened Rounding
  import Parser
  import Utils

  // ---------------------------------------------------------------------------
  // One resume

  datatype FinalStatus = Shortlisted | Rejected | Error

  datatype EmailStatus = SentAutomatically | Failed | NoEmailFound

  /** The dictionary appended to the batch results (`missing_skills` before `json.dumps`). */
  datatype ScreeningRecord = ScreeningRecord(
    filename: string,
    email: Option<string>,
    semanticScore: real,
    mlFit: int,
    finalStatus: FinalStatus,
    emailSent: bool,
    emailStatus: EmailStatus,
    missingSkills: seq<string>)

  /** Shortlisted exactly when the score reaches 80 and the fit prediction is 1. */
  function StatusFor(semanticScore: real, mlFit: int): (status: FinalStatus)
    ensures status == Shortlisted <==> semanticScore >= 80.0 && mlFit == 1
    ensures status != Error
  {
    if semanticScore >= 80.0 && mlFit == 1 then Shortlisted else Rejected
  }

  /** `predict_fit(...) if ml_model else 1`: `prediction` is what a loaded model predicts. */
  function MlFit(model: Option<int>): int {
    match model
    case None => 1
    case Some(prediction) => Utils.PredictFit(Some(prediction))
  }

  /** The guard in front of `predict_fit` repeats its own default: the two always agree. */
  lemma MlFitIsPredictFit(model: Option<int>)
    ensures MlFit(model) == Utils.PredictFit(model)
    ensures model.None? ==> MlFit(model) == 1
  {
  }

  /** The SMTP account; either part may be unset (""). */
  datatype Mailer = Mailer(user: string, password: string)

  /** `send_email_async`: false without credentials, else whether delivery succeeded. */
  function SendEmail(mailer: Mailer, delivered: bool): (sent: bool)
    ensures sent ==> delivered
    ensures mailer.user == "" || mailer.password == "" ==> !sent
  {
    if mailer.user == "" || mailer.password == "" then false else delivered
  }

  function EmailStatusFor(email: Option<string>, sent: bool): (status: EmailStatus)
    ensures status == NoEmailFound <==> email.None?
    ensures email.Some? ==> (status == SentAutomatically <==> sent)
  {
    if email.Some? then (if sent then SentAutomatically else Failed) else NoEmailFound
  }

  /** The record of a resume whose processing raised, or whose text came out empty. */
  function ErrorRecord(filename: string): ScreeningRecord {
    ScreeningRecord(filename, None, 0.0, 0, Error, false, Failed, [])
  }

  /** Where an exception interrupts `process_single_resume`, if anywhere. */
  datatype Interruption =
    | Completes
    | FailsBeforeRecord  // embedding, model or mail code raises
    | FailsWhileSaving   // the database insert raises after the record was appended

  /** One uploaded file, with what the outside world contributes for it. */
  datatype Submission = Submission(
    filename: string,
    pdf: Parser.PdfDocument,
    docx: Parser.DocxDocument,
    similarity: real,   // cosine similarity of the resume and job embeddings
    prediction: int,    // the class a loaded ML model predicts for the resume
    delivered: bool,    // whether SMTP delivery would succeed
    interruption: Interruption)

  /** The process-wide settings: whether an ML model was loaded, and the SMTP account. */
  datatype Environment = Environment(modelLoaded: bool, mailer: Mailer)

  /** `os.path.join("uploads", filename)` */
  function SavedPath(filename: string): string {
    if filename != [] && filename[0] == '/' then filename else "uploads/" + filename
  }

  function ResumeTextOf(sub: Submission): string {
    Utils.ResumeText(SavedPath(sub.filename), sub.pdf, sub.docx)
  }

  /** The record of a resume processed to the end. */
  function RecordFor(sub: Submission, jobDescription: string, env: Environment): ScreeningRecord {
    var text := ResumeTextOf(sub);
    var email := Utils.EmailFromText(text);
    var score := Utils.SemanticScore(sub.similarity);
    var fit := MlFit(if env.modelLoaded then Some(sub.prediction) else None);
    var sent := email.Some? && SendEmail(env.mailer, sub.delivered);
    ScreeningRecord(
      sub.filename, email, score, fit, StatusFor(score, fit), sent,
      EmailStatusFor(email, sent), Utils.SkillsMissing(text, jobDescription, None))
  }

  /** What `process_single_resume` appends to the batch results. */
  function Appended(sub: Submission, jobDescription: string, env: Environment): seq<ScreeningRecord> {
    if ResumeTextOf(sub) == "" then [ErrorRecord(sub.filename)]
    else match sub.interruption
      case Completes => [RecordFor(sub, jobDescription, env)]
      case FailsBeforeRecord => [ErrorRecord(sub.filename)]
      case FailsWhileSaving => [RecordFor(sub, jobDescription, env), ErrorRecord(sub.filename)]
  }

  /** `process_single_resume`, appending to `batchResults`. */
  method ProcessSingleResume(sub: Submission, jobDescription: string, env: Environment,
                             batchResults: seq<ScreeningRecord>)
    returns (updated: seq<ScreeningRecord>)
    ensures updated == batchResults + Appended(sub, jobDescription, env)
  {
    var text := ResumeTextOf(sub);
    if text == "" {
      return batchResults + [ErrorRecord(sub.filename)];
    }
    if sub.interruption == FailsBeforeRecord {
      return batchResults + [ErrorRecord(sub.filename)];
    }
    var record := ScoreResume(sub, text, jobDescription, env);
    updated := batchResults + [record];
    if sub.interruption == FailsWhileSaving {
      updated := updated + [ErrorRecord(sub.filename)];
    }
  }

  /**
   * The body of the `try` in `process_single_resume` once the text is known to
   * be non-empty, step by step as the source computes it. `RecordFor` is its
   * specification; the steps sit in a method of their own so that
   * `ProcessSingleResume` reasons about the record only through this contract.
   */
  method ScoreResume(sub: Submission, text: string, jobDescription: string, env: Environment)
    returns (record: ScreeningRecord)
    requires text == ResumeTextOf(sub) && text != ""
    ensures record == RecordFor(sub, jobDescription, env)
  {
    var email := Utils.EmailFromText(text);
    var score := Utils.SemanticScore(sub.similarity);
    var fit := MlFit(if env.modelLoaded then Some(sub.prediction) else None);
    var status := StatusFor(score, fit);
    var missing := Utils.ExtractSkillsMissing(text, jobDescription, None);
    var sent := false;
    var emailStatus;
    if email.Some? {
      sent := SendEmail(env.mailer, sub.delivered);
      emailStatus := if sent then SentAutomatically else Failed;
    } else {
      emailStatus := NoEmailFound;
    }
    record := ScreeningRecord(sub.filename, email, score, fit, status, sent, emailStatus, missing);
  }

  /** The invariant every record keeps, the error records included. */
  predicate Consistent(r: ScreeningRecord) {
    && (r.finalStatus == Shortlisted <==> r.semanticScore >= 80.0 && r.mlFit == 1)
    && (r.emailSent ==> r.email.Some? && r.emailStatus == SentAutomatically)
    && (r.emailStatus == NoEmailFound ==> r.email.None?)
    && (r.finalStatus == Error ==> r.semanticScore == 0.0 && r.mlFit == 0 && r.emailStatus == Failed && r.missingSkills == [])
  }

  /** A completed record carries the file name, keeps the invariant and maps the similarity into [0, 100]. */
  lemma RecordForFacts(sub: Submission, jobDescription: string, env: Environment)
    ensures var r := RecordFor(sub, jobDescription, env);
      && r.filename == sub.filename && Consistent(r) && r.finalStatus != Error
      && (-1.0 <= sub.similarity <= 1.0 ==> 0.0 <= r.semanticScore <= 100.0)
      && (!env.modelLoaded ==> r.mlFit == 1)
      && (env.mailer.user == "" || env.mailer.password == "" ==> !r.emailSent && r.emailStatus != SentAutomatically)
  {
    var text := ResumeTextOf(sub);
    var email := Utils.EmailFromText(text);
    var score := Utils.SemanticScore(sub.similarity);
    var fit := MlFit(if env.modelLoaded then Some(sub.prediction) else None);
    var sent := email.Some? && SendEmail(env.mailer, sub.delivered);
    var status := StatusFor(score, fit);
    var emailStatus := EmailStatusFor(email, sent);
    var r := ScreeningRecord(sub.filename, email, score, fit, status, sent, emailStatus,
                             Utils.SkillsMissing(text, jobDescription, None));
    assert RecordFor(sub, jobDescription, env) == r;
  }

  /**
   * A resume yields one record, or two when the database insert fails after the
   * record was appended; an empty text yields only the error record. Every
   * record carries the file name, is consistent, and scores in [0, 100] when
   * the similarity lies in [-1, 1]; without SMTP credentials no mail is ever
   * reported as sent.
   */
  lemma AppendedFacts(sub: Submission, jobDescription: string, env: Environment)
    ensures var rs := Appended(sub, jobDescription, env);
      && 1 <= |rs| <= 2
      && (|rs| == 2 <==> ResumeTextOf(sub) != "" && sub.interruption == FailsWhileSaving)
      && (ResumeTextOf(sub) == "" ==> rs == [ErrorRecord(sub.filename)])
      && (forall r :: r in rs ==> r.filename == sub.filename && Consistent(r))
      && (-1.0 <= sub.similarity <= 1.0 ==> forall r :: r in rs ==> 0.0 <= r.semanticScore <= 100.0)
      && (!env.modelLoaded ==> forall r :: r in rs && r.finalStatus != Error ==> r.mlFit == 1)
      && (env.mailer.user == "" || env.mailer.password == "" ==>
            forall r :: r in rs ==> !r.emailSent && r.emailStatus != SentAutomatically)
  {
    var rs := Appended(sub, jobDescription, env);
    var e := ErrorRecord(sub.filename);
    assert Consistent(e);
    if ResumeTextOf(sub) == "" || sub.interruption == FailsBeforeRecord {
      assert rs == [e];
    } else {
      var r := RecordFor(sub, jobDescription, env);
      RecordForFacts(sub, jobDescription, env);
      if sub.interruption == Completes {
        assert rs == [r];
      } else {
        assert rs == [r, e];
      }
    }
  }

  // ---------------------------------------------------------------------------
  // Batches

  function Min(a: nat, b: nat): nat { if a <= b then a else b }

  /** The slices `items[i:i + size]` for `i` in `range(start, len(items), size)`. */
  function BatchesFrom<T>(items: seq<T>, start: nat, size: nat): seq<seq<T>>
    requires size > 0
    decreases |items| - start
  {
    if start >= |items| then []
    else [items[start..Min(start + size, |items|)]] + BatchesFrom(items, start + size, size)
  }

  function Flatten<T>(parts: seq<seq<T>>): seq<T>
    decreases |parts|
  {
    if parts == [] then [] else parts[0] + Flatten(parts[1..])
  }

  /** The batches cover the items exactly once, in order, each holding 1 to `size` items. */
  lemma {:induction false} BatchesCover<T>(items: seq<T>, start: nat, size: nat)
    requires size > 0 && start <= |items|
    ensures Flatten(BatchesFrom(items, start, size)) == items[start..]
    ensures forall b :: b in BatchesFrom(items, start, size) ==> 1 <= |b| <= size
    decreases |items| - start
  {
    if start < |items| {
      var next := start + size;
      if next <= |items| {
        BatchesCover(items, next, size);
        assert items[start..] == items[start..next] + items[next..];
      } else {
        assert BatchesFrom(items, next, size) == [];
      }
    }
  }

  /** `f` applied to each item in turn, the results concatenated. */
  function FlatMap<T, U>(items: seq<T>, f: T -> seq<U>): seq<U>
    decreases |items|
  {
    if items == [] then [] else FlatMap(items[..|items| - 1], f) + f(items[|items| - 1])
  }

  lemma {:induction false} FlatMapConcat<T, U>(a: seq<T>, b: seq<T>, f: T -> seq<U>)
    ensures FlatMap(a + b, f) == FlatMap(a, f) + FlatMap(b, f)
    decreases |b|
  {
    if b != [] {
      var init := b[..|b| - 1];
      FlatMapConcat(a, init, f);
      var last := b[|b| - 1];
      assert (a + b)[..|a + b| - 1] == a + init;
      assert (a + b)[|a + b| - 1] == last;
      calc {
        FlatMap(a + b, f);
        FlatMap(a + init, f) + f(last);
        FlatMap(a, f) + FlatMap(init, f) + f(last);
        FlatMap(a, f) + (FlatMap(init, f) + f(last));
        FlatMap(a, f) + FlatMap(b, f);
      }
    } else {
      assert a + b == a;
    }
  }

  function AppendFor(jobDescription: string, env: Environment): Submission -> seq<ScreeningRecord> {
    sub => Appended(sub, jobDescription, env)
  }

  /** The records appended for `subs`, one resume after another. */
  function AppendedAll(subs: seq<Submission>, jobDescription: string, env: Environment): seq<ScreeningRecord> {
    FlatMap(subs, AppendFor(jobDescription, env))
  }

  /** The records of consecutive slices of the files follow one another. */
  lemma AppendedAllSlices(subs: seq<Submission>, i: nat, end: nat, jobDescription: string, env: Environment)
    requires i <= end <= |subs|
    ensures AppendedAll(subs[..end], jobDescription, env)
         == AppendedAll(subs[..i], jobDescription, env) + AppendedAll(subs[i..end], jobDescription, env)
  {
    assert subs[..end] == subs[..i] + subs[i..end];
    FlatMapConcat(subs[..i], subs[i..end], AppendFor(jobDescription, env));
  }

  /** Each resume adds one or two records, so there are never fewer records than files. */
  lemma {:induction false} AppendedAllCount(subs: seq<Submission>, jobDescription: string, env: Environment)
    ensures |subs| <= |AppendedAll(subs, jobDescription, env)| <= 2 * |subs|
    ensures (forall s :: s in subs ==> s.interruption != FailsWhileSaving) ==>
      |AppendedAll(subs, jobDescription, env)| == |subs|
    decreases |subs|
  {
    if subs != [] {
      var init := subs[..|subs| - 1];
      AppendedAllCount(init, jobDescription, env);
      AppendedFacts(subs[|subs| - 1], jobDescription, env);
      assert AppendedAll(subs, jobDescription, env)
          == AppendedAll(init, jobDescription, env) + Appended(subs[|subs| - 1], jobDescription, env);
      assert forall s :: s in init ==> s in subs;
    }
  }

  // ---------------------------------------------------------------------------
  // Sorting and ranking

  /** Scores never increase along the list. */
  predicate ByScoreDescending(rs: seq<ScreeningRecord>) {
    forall i, j :: 0 <= i < j < |rs| ==> rs[i].semanticScore >= rs[j].semanticScore
  }

  /** Inserts `r` after every record scoring at least as much, which keeps ties in arrival order. */
  function InsertByScore(r: ScreeningRecord, sorted: seq<ScreeningRecord>): seq<ScreeningRecord>
    decreases |sorted|
  {
    if sorted == [] then [r]
    else if sorted[|sorted| - 1].semanticScore >= r.semanticScore then sorted + [r]
    else InsertByScore(r, sorted[..|sorted| - 1]) + [sorted[|sorted| - 1]]
  }

  /** `all_results.sort(key=semantic_score, reverse=True)`, a stable sort. */
  function SortByScore(rs: seq<ScreeningRecord>): seq<ScreeningRecord>
    decreases |rs|
  {
    if rs == [] then [] else InsertByScore(rs[|rs| - 1], SortByScore(rs[..|rs| - 1]))
  }

  lemma {:induction false} InsertByScorePermutes(r: ScreeningRecord, sorted: seq<ScreeningRecord>)
    ensures multiset(InsertByScore(r, sorted)) == multiset(sorted) + multiset{r}
    decreases |sorted|
  {
    if sorted != [] && sorted[|sorted| - 1].semanticScore < r.semanticScore {
      var init := sorted[..|sorted| - 1];
      InsertByScorePermutes(r, init);
      assert sorted == init + [sorted[|sorted| - 1]];
    }
  }

  /** Every record of the insertion result scores at least `bound` when `r` and `sorted` do. */
  lemma {:induction false} InsertByScoreAbove(r: ScreeningRecord, sorted: seq<ScreeningRecord>, bound: real)
    requires r.semanticScore >= bound
    requires forall k :: 0 <= k < |sorted| ==> sorted[k].semanticScore >= bound
    ensures forall k :: 0 <= k < |InsertByScore(r, sorted)| ==> InsertByScore(r, sorted)[k].semanticScore >= bound
    decreases |sorted|
  {
    if sorted != [] && sorted[|sorted| - 1].semanticScore < r.semanticScore {
      InsertByScoreAbove(r, sorted[..|sorted| - 1], bound);
    }
  }

  lemma {:induction false} InsertByScoreSorted(r: ScreeningRecord, sorted: seq<ScreeningRecord>)
    requires ByScoreDescending(sorted)
    ensures ByScoreDescending(InsertByScore(r, sorted))
    decreases |sorted|
  {
    if sorted != [] && sorted[|sorted| - 1].semanticScore < r.semanticScore {
      var init, last := sorted[..|sorted| - 1], sorted[|sorted| - 1];
      InsertByScoreSorted(r, init);
      InsertByScoreAbove(r, init, last.semanticScore);
      var out := InsertByScore(r, init);
      assert InsertByScore(r, sorted) == out + [last];
    }
  }

  /** The sort orders by score, highest first, and neither loses nor invents a record. */
  lemma SortByScoreFacts(rs: seq<ScreeningRecord>)
    ensures ByScoreDescending(SortByScore(rs))
    ensures multiset(SortByScore(rs)) == multiset(rs)
  {
    SortByScoreSorted(rs);
    SortByScorePermutes(rs);
  }

  lemma {:induction false} SortByScoreSorted(rs: seq<ScreeningRecord>)
    ensures ByScoreDescending(SortByScore(rs))
    decreases |rs|
  {
    if rs != [] {
      var init, last := rs[..|rs| - 1], rs[|rs| - 1];
      SortByScoreSorted(init);
      InsertByScoreSorted(last, SortByScore(init));
    }
  }

  lemma {:induction false} SortByScorePermutes(rs: seq<ScreeningRecord>)
    ensures multiset(SortByScore(rs)) == multiset(rs)
    decreases |rs|
  {
    if rs != [] {
      var init, last := rs[..|rs| - 1], rs[|rs| - 1];
      SortByScorePermutes(init);
      InsertByScorePermutes(last, SortByScore(init));
      assert rs == init + [last];
    }
  }

  datatype RankedRecord = RankedRecord(record: ScreeningRecord, ranking: nat)

  /** The ranking loop: the k-th record (from 1) gets ranking k. */
  method AssignRankings(sorted: seq<ScreeningRecord>) returns (ranked: seq<RankedRecord>)
    ensures |ranked| == |sorted|
    ensures forall k :: 0 <= k < |ranked| ==> ranked[k] == RankedRecord(sorted[k], k + 1)
  {
    ranked := [];
    for k := 0 to |sorted|
      invariant |ranked| == k
      invariant forall j :: 0 <= j < k ==> ranked[j] == RankedRecord(sorted[j], j + 1)
    {
      ranked := ranked + [RankedRecord(sorted[k], k + 1)];
    }
  }

  /** The inner loop of `process_resumes_batch`: the files of one batch in turn. */
  method ProcessBatch(batch: seq<Submission>, jobDescription: string, env: Environment)
    returns (batchResults: seq<ScreeningRecord>)
    ensures batchResults == AppendedAll(batch, jobDescription, env)
  {
    batchResults := [];
    for j := 0 to |batch|
      invariant batchResults == FlatMap(batch[..j], AppendFor(jobDescription, env))
    {
      assert batch[..j + 1][..j] == batch[..j];
      batchResults := ProcessSingleResume(batch[j], jobDescription, env, batchResults);
    }
    assert batch[..|batch|] == batch;
  }

  /** The outer loop of `process_resumes_batch`: the slices of `batchSize` files in turn. */
  method ProcessAllBatches(subs: seq<Submission>, jobDescription: string, env: Environment, batchSize: nat)
    returns (all: seq<ScreeningRecord>)
    requires batchSize > 0
    ensures all == AppendedAll(subs, jobDescription, env)
  {
    all := [];
    var i := 0;
    ghost var done: seq<seq<Submission>> := [];
    while i < |subs|
      invariant i <= |subs|
      invariant all == AppendedAll(subs[..i], jobDescription, env)
      invariant done + BatchesFrom(subs, i, batchSize) == BatchesFrom(subs, 0, batchSize)
      decreases |subs| - i
    {
      var end := Min(i + batchSize, |subs|);
      var batch := subs[i..end];
      BatchesStep(subs, i, batchSize);
      done := done + [batch];
      var batchResults := ProcessBatch(batch, jobDescription, env);
      AppendedAllSlices(subs, i, end, jobDescription, env);
      all := all + batchResults;
      i := end;
    }
    assert subs[..|subs|] == subs;
    assert done == BatchesFrom(subs, 0, batchSize);
  }

  /** The batch the loop takes at `i` is the first of the remaining `range` slices. */
  lemma BatchesStep<T>(items: seq<T>, i: nat, size: nat)
    requires size > 0 && i < |items|
    ensures BatchesFrom(items, i, size)
      == [items[i..Min(i + size, |items|)]] + BatchesFrom(items, Min(i + size, |items|), size)
  {
    if i + size > |items| {
      assert BatchesFrom(items, i + size, size) == [] == BatchesFrom(items, |items|, size);
    }
  }

  /**
   * `process_resumes_batch`: every record of every batch, sorted by score and
   * ranked from 1.
   */
  method ProcessResumesBatch(subs: seq<Submission>, jobDescription: string, env: Environment, batchSize: nat)
    returns (results: seq<RankedRecord>)
    requires batchSize > 0
    ensures var sorted := SortByScore(AppendedAll(subs, jobDescription, env));
      && |results| == |sorted|
      && forall k :: 0 <= k < |results| ==> results[k] == RankedRecord(sorted[k], k + 1)
  {
    var all := ProcessAllBatches(subs, jobDescription, env, batchSize);
    var sorted := SortByScore(all);
    results := AssignRankings(sorted);
  }

  /** The records of ranked results, in their order. */
  function RecordsOf(results: seq<RankedRecord>): (records: seq<ScreeningRecord>)
    ensures |records| == |results|
    ensures forall k :: 0 <= k < |results| ==> records[k] == results[k].record
  {
    seq(|results|, k requires 0 <= k < |results| => results[k].record)
  }

  /** The ranked results hold every record once, highest score first, ranked 1, 2, ... */
  lemma RankedResultsFacts(all: seq<ScreeningRecord>, results: seq<RankedRecord>)
    requires |results| == |SortByScore(all)|
    requires forall k :: 0 <= k < |results| ==> results[k] == RankedRecord(SortByScore(all)[k], k + 1)
    ensures |results| == |all|
    ensures forall i, j :: 0 <= i < j < |results| ==> results[i].record.semanticScore >= results[j].record.semanticScore
    ensures forall k :: 0 <= k < |results| ==> results[k].ranking == k + 1
    ensures forall r :: r in all <==> exists k :: 0 <= k < |results| && results[k].record == r
    ensures multiset(RecordsOf(results)) == multiset(all)
  {
    var sorted := SortByScore(all);
    SortByScoreFacts(all);
    assert RecordsOf(results) == sorted;
    assert |sorted| == |multiset(sorted)| == |multiset(all)| == |all|;
    forall r
      ensures r in all <==> exists k :: 0 <= k < |results| && results[k].record == r
    {
      assert r in all <==> r in multiset(all);
      assert r in sorted <==> r in multiset(sorted);
      if r in sorted {
        var k :| 0 <= k < |sorted| && sorted[k] == r;
        assert results[k].record == r;
      }
    }
  }

  // ---------------------------------------------------------------------------
  // Upload

  datatype UploadError = NoFiles | TooManyFiles | NoJobDescription

  /** The `detail` of the HTTP 400 answer. */
  function Detail(e: UploadError): string {
    match e
    case NoFiles => "No files uploaded"
    case TooManyFiles => "Maximum 1000 files allowed per upload"
    case NoJobDescription => "Job description is required"
  }

  const MaxFiles: nat := 1000

  /** The checks of `upload_resumes`, in their order. */
  function ValidateUpload(fileCount: nat, jobDescription: string): (r: Option<UploadError>)
    ensures r.None? <==> 1 <= fileCount <= MaxFiles && Strip(jobDescription) != ""
    ensures r == Some(NoFiles) <==> fileCount == 0
    ensures r == Some(TooManyFiles) <==> fileCount > MaxFiles
    ensures r == Some(NoJobDescription) <==> 1 <= fileCount <= MaxFiles && Strip(jobDescription) == ""
  {
    if fileCount == 0 then Some(NoFiles)
    else if fileCount > MaxFiles then Some(TooManyFiles)
    else if Strip(jobDescription) == "" then Some(NoJobDescription)
    else None
  }

  datatype UploadResponse = UploadResponse(totalFiles: nat, processed: nat, results: seq<RankedRecord>)

  /** `upload_resumes`: refuse a bad upload, else screen the files in batches of 50. */
  method UploadResumes(subs: seq<Submission>, jobDescription: string, env: Environment)
    returns (r: Result<UploadResponse, UploadError>)
    ensures ValidateUpload(|subs|, jobDescription).Some? ==> r == Err(ValidateUpload(|subs|, jobDescription).value)
    ensures ValidateUpload(|subs|, jobDescription).None? ==> r.Ok?
    ensures r.Ok? ==> var sorted := SortByScore(AppendedAll(subs, jobDescription, env));
                      && |r.value.results| == |sorted|
                      && forall k :: 0 <= k < |r.value.results| ==> r.value.results[k] == RankedRecord(sorted[k], k + 1)
    ensures r.Ok? ==> r.value.totalFiles == |subs| && r.value.processed == |r.value.results|
                      && |subs| <= r.value.processed
                      && ((forall s :: s in subs ==> s.interruption != FailsWhileSaving) ==> r.value.processed == |subs|)
  {
    var invalid := ValidateUpload(|subs|, jobDescription);
    if invalid.Some? {
      return Err(invalid.value);
    }
    var results := ProcessResumesBatch(subs, jobDescription, env, 50);
    RankedResultsFacts(AppendedAll(subs, jobDescription, env), results);
    AppendedAllCount(subs, jobDescription, env);
    r := Ok(UploadResponse(|subs|, |results|, results));
  }

  // ---------------------------------------------------------------------------
  // Dashboard

  /** The columns of a stored screening row that the tallies read. */
  datatype StoredRow = StoredRow(semanticScore: real, finalStatus: FinalStatus)

  function CountStatus(rows: seq<StoredRow>, status: FinalStatus): (n: nat)
    ensures n <= |rows|
    decreases |rows|
  {
    if rows == [] then 0
    else CountStatus(rows[..|rows| - 1], status) + (if rows[|rows| - 1].finalStatus == status then 1 else 0)
  }

  function ScoreSum(rows: seq<StoredRow>): real
    decreases |rows|
  {
    if rows == [] then 0.0 else ScoreSum(rows[..|rows| - 1]) + rows[|rows| - 1].semanticScore
  }

  /** `round(total_score / len(results) if results else 0.0, 1)` */
  function AverageScore(rows: seq<StoredRow>): real {
    Round1(if rows == [] then 0.0 else ScoreSum(rows) / |rows| as real)
  }

  datatype DashboardSummary = DashboardSummary(totalCandidates: nat, shortlistedCount: nat, rejectedCount: nat, avgScore: real)

  /** The counting loop of `dashboard`. */
  method Dashboard(rows: seq<StoredRow>) returns (summary: DashboardSummary)
    ensures summary.totalCandidates == |rows|
    ensures summary.shortlistedCount == CountStatus(rows, Shortlisted)
    ensures summary.rejectedCount == CountStatus(rows, Rejected)
    ensures summary.avgScore == AverageScore(rows)
  {
    var shortlisted, rejected, total := 0, 0, 0.0;
    for i := 0 to |rows|
      invariant shortlisted == CountStatus(rows[..i], Shortlisted)
      invariant rejected == CountStatus(rows[..i], Rejected)
      invariant total == ScoreSum(rows[..i])
    {
      assert rows[..i + 1][..i] == rows[..i];
      if rows[i].finalStatus == Shortlisted {
        shortlisted := shortlisted + 1;
      } else if rows[i].finalStatus == Rejected {
        rejected := rejected + 1;
      }
      total := total + rows[i].semanticScore;
    }
    assert rows[..|rows|] == rows;
    var average := if |rows| > 0 then total / |rows| as real else 0.0;
    summary := DashboardSummary(|rows|, shortlisted, rejected, Round1(average));
  }

  /** The three statuses partition the rows. */
  lemma {:induction false} CountsPartition(rows: seq<StoredRow>)
    ensures CountStatus(rows, Shortlisted) + CountStatus(rows, Rejected) + CountStatus(rows, Error) == |rows|
    decreases |rows|
  {
    if rows != [] {
      CountsPartition(rows[..|rows| - 1]);
    }
  }

  lemma {:induction false} ScoreSumWithin(rows: seq<StoredRow>)
    requires forall r :: r in rows ==> 0.0 <= r.semanticScore <= 100.0
    ensures 0.0 <= ScoreSum(rows) <= 100.0 * |rows| as real
    decreases |rows|
  {
    if rows != [] {
      assert forall r :: r in rows[..|rows| - 1] ==> r in rows;
      ScoreSumWithin(rows[..|rows| - 1]);
    }
  }

  /**
   * Shortlisted and rejected rows never outnumber the rows; the average is 0.0
   * with no rows and stays in [0, 100] when every score does.
   */
  lemma DashboardFacts(rows: seq<StoredRow>)
    ensures CountStatus(rows, Shortlisted) + CountStatus(rows, Rejected) <= |rows|
    ensures rows == [] ==> AverageScore(rows) == 0.0
    ensures (forall r :: r in rows ==> 0.0 <= r.semanticScore <= 100.0) ==> 0.0 <= AverageScore(rows) <= 100.0
  {
    CountsPartition(rows);
    if rows == [] {
      Round1OfTenths(0);
    } else if forall r :: r in rows ==> 0.0 <= r.semanticScore <= 100.0 {
      AverageScoreWithin(rows);
    }
  }

  lemma AverageScoreWithin(rows: seq<StoredRow>)
    requires rows != [] && forall r :: r in rows ==> 0.0 <= r.semanticScore <= 100.0
    ensures 0.0 <= AverageScore(rows) <= 100.0
  {
    var mean := ScoreSum(rows) / |rows| as real;
    ScoreSumWithin(rows);
    MeanWithin(ScoreSum(rows), |rows| as real);
    Round1Percent(mean);
    assert AverageScore(rows) == Round1(mean);
  }

  lemma MeanWithin(sum: real, n: real)
    requires n > 0.0 && 0.0 <= sum <= 100.0 * n
    ensures 0.0 <= sum / n <= 100.0
  {
    DivMonotone(0.0, sum, n);
    DivMonotone(sum, 100.0 * n, n);
  }
}
