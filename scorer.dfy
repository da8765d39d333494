/**
 * The rule-based resume scorer of ai_scorer.py (class AIScorer): five component
 * scores (semantic, skills, experience, education, projects), their weighted
 * total rounded to two decimals, the shortlisting decision at 70 and the
 * recommendations. Scores are exact reals. The sentence-embedding similarity is
 * a parameter of type `Similarity`; the weights the scorer is built with never
 * change, so they are a constant.
 */
module Scorer {
  import opened Outcomes
  import opened Text
  import opened Rounding
  import opened Profile

  /** Cosine similarity between the embeddings of two texts: always within [-1, 1]. */
  type Similarity = f: (string, string) -> real | forall a, b :: -1.0 <= f(a, b) <= 1.0
    witness (a: string, b: string) => 0.0

  const ShortlistThreshold: real := 70.0

  /** A project is relevant when its similarity to the job description exceeds this. */
  const RelevanceThreshold: real := 0.3

  // ---------------------------------------------------------------------------
  // Semantic component

  /** `calculate_semantic_similarity` clamps the cosine to [0, 1]; the score is that times 100. */
  function SemanticScore(similarity: real): (score: real)
    ensures 0.0 <= score <= 100.0
    ensures 0.0 <= similarity <= 1.0 ==> score == similarity * 100.0
    ensures similarity < 0.0 ==> score == 0.0
    ensures similarity > 1.0 ==> score == 100.0
  {
    var clamped := if similarity < 0.0 then 0.0 else if similarity > 1.0 then 1.0 else similarity;
    clamped * 100.0
  }

  /** A more similar resume never gets a lower semantic score. */
  lemma SemanticScoreMonotone(x: real, y: real)
    requires x <= y
    ensures SemanticScore(x) <= SemanticScore(y)
  {
  }

  // ---------------------------------------------------------------------------
  // Skills component

  /** Skills are compared lower-cased and stripped. */
  function Normalize(skill: string): string {
    Strip(Lower(skill))
  }

  function NormalizeAll(skills: seq<string>): (r: seq<string>)
    ensures |r| == |skills|
    ensures forall i :: 0 <= i < |skills| ==> r[i] == Normalize(skills[i])
  {
    seq(|skills|, i requires 0 <= i < |skills| => Normalize(skills[i]))
  }

  /** The two-way substring test: either skill occurs inside the other. */
  predicate Overlaps(required: string, candidate: string) {
    Contains(candidate, required) || Contains(required, candidate)
  }

  /** Some resume skill overlaps the required skill. */
  predicate IsCovered(required: string, resume: seq<string>) {
    exists j :: 0 <= j < |resume| && Overlaps(required, resume[j])
  }

  /** The covered required skills, in the order they are required. */
  function Matched(required: seq<string>, resume: seq<string>): seq<string>
    decreases |required|
  {
    if required == [] then []
    else
      var last := required[|required| - 1];
      Matched(required[..|required| - 1], resume) + (if IsCovered(last, resume) then [last] else [])
  }

  /** The required skills no resume skill covers, in the order they are required. */
  function Missing(required: seq<string>, resume: seq<string>): seq<string>
    decreases |required|
  {
    if required == [] then []
    else
      var last := required[|required| - 1];
      Missing(required[..|required| - 1], resume) + (if IsCovered(last, resume) then [] else [last])
  }

  /** The resume skills that are not, verbatim, a matched skill. */
  function Unmatched(resume: seq<string>, matched: seq<string>): seq<string>
    decreases |resume|
  {
    if resume == [] then []
    else
      var last := resume[|resume| - 1];
      Unmatched(resume[..|resume| - 1], matched) + (if last in matched then [] else [last])
  }

  /** The skills explanation; `matchRatio` is absent when nothing is required. */
  datatype SkillsDetails = SkillsDetails(
    matched: seq<string>,
    missing: seq<string>,
    extra: seq<string>,
    matchRatio: Option<string>)

  /** What `calculate_skills_score` returns. */
  function SkillsAssessment(resumeSkills: seq<string>, requiredSkills: seq<string>): (real, SkillsDetails) {
    if requiredSkills == [] then (50.0, SkillsDetails([], [], resumeSkills, None))
    else
      var required := NormalizeAll(requiredSkills);
      var resume := NormalizeAll(resumeSkills);
      var matched := Matched(required, resume);
      (|matched| as real / |required| as real * 100.0,
       SkillsDetails(matched, Missing(required, resume), Take(Unmatched(resume, matched), 5),
                     Some(NatText(|matched|) + "/" + NatText(|required|))))
  }

  /** The matching loops of `calculate_skills_score`, over already normalised skills. */
  method MatchSkills(required: seq<string>, resume: seq<string>) returns (matched: seq<string>, missing: seq<string>)
    ensures matched == Matched(required, resume)
    ensures missing == Missing(required, resume)
  {
    matched, missing := [], [];
    var i := 0;
    while i < |required|
      invariant 0 <= i <= |required|
      invariant matched == Matched(required[..i], resume)
      invariant missing == Missing(required[..i], resume)
    {
      var req := required[i];
      var found := false;
      var j := 0;
      while j < |resume|
        invariant 0 <= j <= |resume|
        invariant !found
        invariant forall k :: 0 <= k < j ==> !Overlaps(req, resume[k])
        invariant matched == Matched(required[..i], resume)
      {
        if Contains(resume[j], req) || Contains(req, resume[j]) {
          matched := matched + [req];
          found := true;
          break;
        }
        j := j + 1;
      }
      if !found {
        missing := missing + [req];
      }
      assert required[..i + 1][..i] == required[..i];
      i := i + 1;
    }
    assert required[..|required|] == required;
  }

  /** `calculate_skills_score` */
  method SkillsScore(resumeSkills: seq<string>, requiredSkills: seq<string>) returns (score: real, details: SkillsDetails)
    ensures score == SkillsAssessment(resumeSkills, requiredSkills).0
    ensures details == SkillsAssessment(resumeSkills, requiredSkills).1
  {
    if requiredSkills == [] {
      return 50.0, SkillsDetails([], [], resumeSkills, None);
    }
    var resume := NormalizeAll(resumeSkills);
    var required := NormalizeAll(requiredSkills);
    var matched, missing := MatchSkills(required, resume);
    score := |matched| as real / |required| as real * 100.0;
    var extra := Unmatched(resume, matched);
    details := SkillsDetails(matched, missing, Take(extra, 5),
                             Some(NatText(|matched|) + "/" + NatText(|required|)));
  }

  /**
   * Every required skill lands in exactly one of matched or missing: matched
   * holds exactly the covered ones, missing exactly the others.
   */
  lemma MatchedMissingPartition(required: seq<string>, resume: seq<string>)
    ensures |Matched(required, resume)| + |Missing(required, resume)| == |required|
    ensures multiset(Matched(required, resume)) + multiset(Missing(required, resume)) == multiset(required)
    ensures forall x :: x in Matched(required, resume) <==> x in required && IsCovered(x, resume)
    ensures forall x :: x in Missing(required, resume) <==> x in required && !IsCovered(x, resume)
  {
    MatchedMissingPermutes(required, resume);
    MatchedExact(required, resume);
    MissingExact(required, resume);
  }

  lemma {:induction false} MatchedMissingPermutes(required: seq<string>, resume: seq<string>)
    ensures multiset(Matched(required, resume)) + multiset(Missing(required, resume)) == multiset(required)
    ensures |Matched(required, resume)| + |Missing(required, resume)| == |required|
    decreases |required|
  {
    if required != [] {
      var init := required[..|required| - 1];
      var last := required[|required| - 1];
      MatchedMissingPermutes(init, resume);
      assert required == init + [last];
      assert multiset(required) == multiset(init) + multiset{last};
      if IsCovered(last, resume) {
        assert Matched(required, resume) == Matched(init, resume) + [last];
        assert Missing(required, resume) == Missing(init, resume);
      } else {
        assert Matched(required, resume) == Matched(init, resume);
        assert Missing(required, resume) == Missing(init, resume) + [last];
      }
    }
  }

  lemma {:induction false} MatchedExact(required: seq<string>, resume: seq<string>)
    ensures forall x :: x in Matched(required, resume) <==> x in required && IsCovered(x, resume)
    decreases |required|
  {
    if required != [] {
      var init := required[..|required| - 1];
      MatchedExact(init, resume);
      assert required == init + [required[|required| - 1]];
    }
  }

  lemma {:induction false} MissingExact(required: seq<string>, resume: seq<string>)
    ensures forall x :: x in Missing(required, resume) <==> x in required && !IsCovered(x, resume)
    decreases |required|
  {
    if required != [] {
      var init := required[..|required| - 1];
      MissingExact(init, resume);
      assert required == init + [required[|required| - 1]];
    }
  }

  lemma {:induction false} UnmatchedAvoidsMatched(resume: seq<string>, matched: seq<string>)
    ensures forall s :: s in Unmatched(resume, matched) ==> s in resume && s !in matched
    decreases |resume|
  {
    if resume != [] {
      UnmatchedAvoidsMatched(resume[..|resume| - 1], matched);
    }
  }

  lemma RatioAtMostOne(m: nat, n: nat)
    requires m <= n && n > 0
    ensures 0.0 <= m as real / n as real <= 1.0
  {
    DivWithin(m as real, n as real);
  }

  /**
   * The skills score is the covered share of the required skills times 100, so it
   * lies in [0, 100]; with nothing required it is 50 and `extra` is the resume's
   * own list; otherwise `extra` has at most five entries, none of them matched.
   */
  lemma SkillsAssessmentFacts(resumeSkills: seq<string>, requiredSkills: seq<string>)
    ensures var r := SkillsAssessment(resumeSkills, requiredSkills);
      && 0.0 <= r.0 <= 100.0
      && |r.1.matched| + |r.1.missing| == |requiredSkills|
      && (requiredSkills == [] ==> r.0 == 50.0 && r.1.extra == resumeSkills)
      && (requiredSkills != [] ==> |r.1.extra| <= 5 && forall s :: s in r.1.extra ==> s !in r.1.matched)
  {
    if requiredSkills != [] {
      var required := NormalizeAll(requiredSkills);
      var resume := NormalizeAll(resumeSkills);
      var matched := Matched(required, resume);
      MatchedMissingPartition(required, resume);
      RatioAtMostOne(|matched|, |required|);
      UnmatchedAvoidsMatched(resume, matched);
    }
  }

  lemma {:induction false} AllListedAllMatched(required: seq<string>, resume: seq<string>)
    requires forall i :: 0 <= i < |required| ==> required[i] in resume
    ensures Matched(required, resume) == required
    ensures Missing(required, resume) == []
    decreases |required|
  {
    if required != [] {
      var n := |required| - 1;
      var last := required[n];
      AllListedAllMatched(required[..n], resume);
      var j :| 0 <= j < |resume| && resume[j] == last;
      ContainsSelf(last);
      assert Overlaps(last, resume[j]);
      assert required == required[..n] + [last];
    }
  }

  /** With skills required, the score is the matched share of them as a percentage. */
  lemma SkillsScoreIsRatio(resumeSkills: seq<string>, requiredSkills: seq<string>)
    requires requiredSkills != []
    ensures SkillsAssessment(resumeSkills, requiredSkills).0 ==
      |Matched(NormalizeAll(requiredSkills), NormalizeAll(resumeSkills))| as real / |requiredSkills| as real * 100.0
  {
  }

  lemma WholeIsHundredPercent(n: nat)
    requires n > 0
    ensures n as real / n as real * 100.0 == 100.0
  {
  }

  /** Normalising both lists keeps every required skill listed. */
  lemma NormalizedStillListed(resumeSkills: seq<string>, requiredSkills: seq<string>)
    requires forall s :: s in requiredSkills ==> s in resumeSkills
    ensures forall i :: 0 <= i < |requiredSkills| ==> NormalizeAll(requiredSkills)[i] in NormalizeAll(resumeSkills)
  {
    var required := NormalizeAll(requiredSkills);
    var resume := NormalizeAll(resumeSkills);
    forall i | 0 <= i < |required|
      ensures required[i] in resume
    {
      assert requiredSkills[i] in resumeSkills;
      var j :| 0 <= j < |resumeSkills| && resumeSkills[j] == requiredSkills[i];
      assert resume[j] == required[i];
    }
  }

  /** When every required skill appears verbatim among the resume skills, the skills score is 100. */
  lemma FullSkillsScoreWhenAllListed(resumeSkills: seq<string>, requiredSkills: seq<string>)
    requires requiredSkills != []
    requires forall s :: s in requiredSkills ==> s in resumeSkills
    ensures SkillsAssessment(resumeSkills, requiredSkills).0 == 100.0
    ensures SkillsAssessment(resumeSkills, requiredSkills).1.missing == []
  {
    var required := NormalizeAll(requiredSkills);
    var resume := NormalizeAll(resumeSkills);
    NormalizedStillListed(resumeSkills, requiredSkills);
    AllListedAllMatched(required, resume);
    SkillsScoreIsRatio(resumeSkills, requiredSkills);
    WholeIsHundredPercent(|requiredSkills|);
    assert |Matched(required, resume)| == |requiredSkills|;
  }

  // ---------------------------------------------------------------------------
  // Experience component

  /** The experience explanation; `NoRequirement` carries no `meets_requirement` key. */
  datatype ExperienceDetails =
    | NoRequirement
    | Compared(resumeYears: int, requiredYears: int, meetsRequirement: bool)

  /** `calculate_experience_score` */
  function ExperienceScore(resumeYears: int, requiredYears: int): (r: (real, ExperienceDetails))
    ensures requiredYears == 0 ==> r == (100.0, NoRequirement)
    ensures requiredYears != 0 ==> r.1 == Compared(resumeYears, requiredYears, resumeYears >= requiredYears)
    ensures resumeYears >= requiredYears ==> r.0 == 100.0
    ensures 0 <= resumeYears < requiredYears ==> r.0 == resumeYears as real / requiredYears as real * 100.0 && 0.0 <= r.0 < 100.0
    ensures r.0 <= 100.0
  {
    if requiredYears == 0 then (100.0, NoRequirement)
    else
      var partial := resumeYears as real / requiredYears as real * 100.0;
      var score := if resumeYears >= requiredYears then 100.0 else if 100.0 <= partial then 100.0 else partial;
      assert 0 <= resumeYears < requiredYears ==> partial < 100.0 by {
        if 0 <= resumeYears < requiredYears {
          DivMonotone(resumeYears as real, (requiredYears - 1) as real, requiredYears as real);
          assert (requiredYears - 1) as real / requiredYears as real < 1.0;
        }
      }
      (score, Compared(resumeYears, requiredYears, resumeYears >= requiredYears))
  }

  /** For a fixed requirement, more years never lower the experience score. */
  lemma ExperienceScoreMonotone(fewer: int, more: int, requiredYears: int)
    requires fewer <= more
    ensures ExperienceScore(fewer, requiredYears).0 <= ExperienceScore(more, requiredYears).0
  {
    if requiredYears > 0 && more < requiredYears {
      DivMonotone(fewer as real, more as real, requiredYears as real);
    } else if requiredYears < 0 && fewer < requiredYears {
      DivNegativeAtLeastOne(fewer as real, requiredYears as real);
    }
  }

  // ---------------------------------------------------------------------------
  // Education component

  /** The role table, in the order the dictionary lists it. */
  const RoleRequirements: seq<(string, seq<string>)> := [
    ("engineer", ["bachelor", "b.tech", "b.e", "master", "m.tech"]),
    ("scientist", ["master", "m.tech", "phd", "ph.d"]),
    ("developer", ["bachelor", "b.tech", "diploma"]),
    ("data", ["bachelor", "master", "phd"])
  ]

  const DefaultLevels: seq<string> := ["bachelor", "b.tech", "b.e"]

  /** The levels of the first table key that occurs in the lower-cased title, or none. */
  function FirstRoleLevels(table: seq<(string, seq<string>)>, titleLower: string): seq<string>
    decreases |table|
  {
    if table == [] then []
    else if Contains(titleLower, table[0].0) then table[0].1
    else FirstRoleLevels(table[1..], titleLower)
  }

  function LevelsForRole(jobTitle: string): seq<string> {
    var levels := FirstRoleLevels(RoleRequirements, Lower(jobTitle));
    if levels == [] then DefaultLevels else levels
  }

  /** The lookup loop of `calculate_education_score`, stopping at the first key found. */
  method RequiredLevels(jobTitle: string) returns (levels: seq<string>)
    ensures levels == LevelsForRole(jobTitle)
  {
    levels := [];
    var jobLower := Lower(jobTitle);
    var i := 0;
    while i < |RoleRequirements|
      invariant 0 <= i <= |RoleRequirements|
      invariant levels == []
      invariant FirstRoleLevels(RoleRequirements, jobLower) == FirstRoleLevels(RoleRequirements[i..], jobLower)
    {
      assert RoleRequirements[i..][1..] == RoleRequirements[i + 1..];
      if Contains(jobLower, RoleRequirements[i].0) {
        levels := RoleRequirements[i].1;
        break;
      }
      i := i + 1;
    }
    if levels == [] {
      levels := DefaultLevels;
    }
  }

  /**
   * The required levels are those of the first table key (engineer, scientist,
   * developer, data) found in the lower-cased title, and the bachelor-level
   * default when no key is.
   */
  lemma {:induction false} LevelsForRoleIsFirstKey(jobTitle: string)
    ensures forall k :: (0 <= k < |RoleRequirements| && Contains(Lower(jobTitle), RoleRequirements[k].0)
                         && (forall j :: 0 <= j < k ==> !Contains(Lower(jobTitle), RoleRequirements[j].0)))
                        ==> LevelsForRole(jobTitle) == RoleRequirements[k].1
    ensures (forall k :: 0 <= k < |RoleRequirements| ==> !Contains(Lower(jobTitle), RoleRequirements[k].0))
      ==> LevelsForRole(jobTitle) == DefaultLevels
  {
    var t := Lower(jobTitle);
    var r := RoleRequirements;
    assert r[1..][1..] == r[2..] && r[2..][1..] == r[3..] && r[3..][1..] == r[4..];
    assert r[1..][0] == r[1] && r[2..][0] == r[2] && r[3..][0] == r[3];
  }

  function EducationText(e: EducationEntry): string {
    Lower(e.degree) + " " + Lower(e.details)
  }

  /** The levels that occur in `text`, in level order. */
  function LevelsIn(text: string, levels: seq<string>): seq<string>
    decreases |levels|
  {
    if levels == [] then []
    else
      var last := levels[|levels| - 1];
      LevelsIn(text, levels[..|levels| - 1]) + (if Contains(text, last) then [last] else [])
  }

  /** `found_levels`: for each entry in order, the levels its text contains. */
  function FoundLevels(education: seq<EducationEntry>, levels: seq<string>): seq<string>
    decreases |education|
  {
    if education == [] then []
    else FoundLevels(education[..|education| - 1], levels) + LevelsIn(EducationText(education[|education| - 1]), levels)
  }

  function Degrees(education: seq<EducationEntry>): (r: seq<string>)
    ensures |r| == |education|
    ensures forall i :: 0 <= i < |education| ==> r[i] == education[i].degree
  {
    seq(|education|, i requires 0 <= i < |education| => education[i].degree)
  }

  /** The inner loop of the education check: appends the levels `text` contains. */
  method CollectLevels(found: seq<string>, text: string, levels: seq<string>) returns (r: seq<string>)
    ensures r == found + LevelsIn(text, levels)
  {
    r := found;
    var j := 0;
    while j < |levels|
      invariant 0 <= j <= |levels|
      invariant r == found + LevelsIn(text, levels[..j])
    {
      if Contains(text, levels[j]) {
        r := r + [levels[j]];
      }
      assert levels[..j + 1][..j] == levels[..j];
      j := j + 1;
    }
    assert levels[..j] == levels;
  }

  /** The education explanation; `NoEducation` carries no `meets_requirement` key. */
  datatype EducationDetails =
    | NoEducation
    | Assessed(foundEducation: seq<string>, requiredLevels: seq<string>, meetsRequirement: bool)

  /** What `calculate_education_score` returns. */
  function EducationAssessment(education: seq<EducationEntry>, jobTitle: string): (real, EducationDetails) {
    if education == [] then (30.0, NoEducation)
    else
      var levels := LevelsForRole(jobTitle);
      var found := FoundLevels(education, levels);
      (if found != [] then 100.0 else 60.0, Assessed(Degrees(education), levels, found != []))
  }

  method EducationScore(education: seq<EducationEntry>, jobTitle: string) returns (score: real, details: EducationDetails)
    ensures score == EducationAssessment(education, jobTitle).0
    ensures details == EducationAssessment(education, jobTitle).1
  {
    if education == [] {
      return 30.0, NoEducation;
    }
    var levels := RequiredLevels(jobTitle);
    var found: seq<string> := [];
    var i := 0;
    while i < |education|
      invariant 0 <= i <= |education|
      invariant found == FoundLevels(education[..i], levels)
    {
      found := CollectLevels(found, EducationText(education[i]), levels);
      assert education[..i + 1][..i] == education[..i];
      i := i + 1;
    }
    assert education[..i] == education;
    score := if found != [] then 100.0 else 60.0;
    details := Assessed(Degrees(education), levels, found != []);
  }

  lemma {:induction false} LevelsInNonEmpty(text: string, levels: seq<string>)
    ensures LevelsIn(text, levels) != [] <==> exists l :: l in levels && Contains(text, l)
    decreases |levels|
  {
    if levels != [] {
      var init := levels[..|levels| - 1];
      LevelsInNonEmpty(text, init);
      assert levels == init + [levels[|levels| - 1]];
    }
  }

  lemma {:induction false} FoundLevelsNonEmpty(education: seq<EducationEntry>, levels: seq<string>)
    ensures FoundLevels(education, levels) != []
      <==> exists i, l :: 0 <= i < |education| && l in levels && Contains(EducationText(education[i]), l)
    decreases |education|
  {
    if education != [] {
      var n := |education| - 1;
      var init := education[..n];
      FoundLevelsNonEmpty(init, levels);
      LevelsInNonEmpty(EducationText(education[n]), levels);
      assert FoundLevels(education, levels) == FoundLevels(init, levels) + LevelsIn(EducationText(education[n]), levels);
      if FoundLevels(init, levels) != [] {
        var i, l :| 0 <= i < n && l in levels && Contains(EducationText(init[i]), l);
        assert education[i] == init[i];
      } else if LevelsIn(EducationText(education[n]), levels) != [] {
        var l :| l in levels && Contains(EducationText(education[n]), l);
        assert 0 <= n < |education|;
      }
      if exists i, l :: 0 <= i < |education| && l in levels && Contains(EducationText(education[i]), l) {
        var i, l :| 0 <= i < |education| && l in levels && Contains(EducationText(education[i]), l);
        if i < n {
          assert init[i] == education[i];
        }
      }
    }
  }

  /**
   * The education score is 30 without entries; otherwise 100 when some entry's
   * degree-and-details text contains a required level, and 60 when none does.
   */
  lemma EducationScoreCases(education: seq<EducationEntry>, jobTitle: string)
    ensures education == [] ==> EducationAssessment(education, jobTitle).0 == 30.0
    ensures education != [] ==>
      EducationAssessment(education, jobTitle).0 ==
        if exists i, l :: 0 <= i < |education| && l in LevelsForRole(jobTitle) && Contains(EducationText(education[i]), l)
        then 100.0 else 60.0
  {
    FoundLevelsNonEmpty(education, LevelsForRole(jobTitle));
  }

  // ---------------------------------------------------------------------------
  // Projects component

  function ProjectText(p: Project): string {
    p.title + " " + p.description
  }

  /** Projects whose stripped text is shorter than 10 characters are skipped. */
  predicate IsRateable(p: Project) {
    |Strip(ProjectText(p))| >= 10
  }

  /** `project_scores`: the similarity of each rateable project to the job description. */
  function Similarities(projects: seq<Project>, jobDescription: string, sim: Similarity): (r: seq<real>)
    ensures forall k :: 0 <= k < |r| ==> -1.0 <= r[k] <= 1.0
    decreases |projects|
  {
    if projects == [] then []
    else
      var last := projects[|projects| - 1];
      Similarities(projects[..|projects| - 1], jobDescription, sim)
        + (if IsRateable(last) then [sim(ProjectText(last), jobDescription)] else [])
  }

  datatype RelevantProject = RelevantProject(title: string, relevance: real)

  /** The relevance shown for a project: its similarity as a percentage, to two decimals. */
  function Relevance(similarity: real): (r: real)
    ensures -1.0 <= similarity <= 1.0 ==> -100.0 <= r <= 100.0
  {
    Round2(similarity * 100.0)
  }

  /** `relevant_projects`: the rateable projects above the relevance threshold, in input order. */
  function Relevant(projects: seq<Project>, jobDescription: string, sim: Similarity): seq<RelevantProject>
    decreases |projects|
  {
    if projects == [] then []
    else
      var last := projects[|projects| - 1];
      Relevant(projects[..|projects| - 1], jobDescription, sim)
        + (if IsRateable(last) && sim(ProjectText(last), jobDescription) > RelevanceThreshold
           then [RelevantProject(last.title, Relevance(sim(ProjectText(last), jobDescription)))]
           else [])
  }

  function Sum(xs: seq<real>): real
    decreases |xs|
  {
    if xs == [] then 0.0 else Sum(xs[..|xs| - 1]) + xs[|xs| - 1]
  }

  /** The projects explanation: no projects, none long enough, or the rated summary. */
  datatype ProjectsDetails =
    | NoProjects
    | NoValidProjects
    | Rated(totalProjects: nat, relevantCount: nat, topProjects: seq<RelevantProject>)

  /** What `calculate_projects_score` returns. */
  function ProjectsAssessment(projects: seq<Project>, jobDescription: string, sim: Similarity): (real, ProjectsDetails) {
    if projects == [] then (0.0, NoProjects)
    else
      var sims := Similarities(projects, jobDescription, sim);
      if sims == [] then (0.0, NoValidProjects)
      else
        var mean := Sum(sims) / |sims| as real;
        var relevant := Relevant(projects, jobDescription, sim);
        (if 100.0 <= mean * 100.0 then 100.0 else mean * 100.0,
         Rated(|projects|, |relevant|, Take(relevant, 3)))
  }

  /** One more project extends both lists by at most its own entry. */
  lemma RateStep(projects: seq<Project>, i: nat, jobDescription: string, sim: Similarity)
    requires i < |projects|
    ensures var p := projects[i];
      Similarities(projects[..i + 1], jobDescription, sim)
        == Similarities(projects[..i], jobDescription, sim)
           + (if IsRateable(p) then [sim(ProjectText(p), jobDescription)] else [])
    ensures var p := projects[i];
      Relevant(projects[..i + 1], jobDescription, sim)
        == Relevant(projects[..i], jobDescription, sim)
           + (if IsRateable(p) && sim(ProjectText(p), jobDescription) > RelevanceThreshold
              then [RelevantProject(p.title, Relevance(sim(ProjectText(p), jobDescription)))]
              else [])
  {
    assert projects[..i + 1][..i] == projects[..i];
  }

  /** The loop of `calculate_projects_score` over the projects. */
  method RateProjects(projects: seq<Project>, jobDescription: string, sim: Similarity)
    returns (projectScores: seq<real>, relevant: seq<RelevantProject>)
    ensures projectScores == Similarities(projects, jobDescription, sim)
    ensures relevant == Relevant(projects, jobDescription, sim)
  {
    projectScores, relevant := [], [];
    for i := 0 to |projects|
      invariant projectScores == Similarities(projects[..i], jobDescription, sim)
      invariant relevant == Relevant(projects[..i], jobDescription, sim)
    {
      RateStep(projects, i, jobDescription, sim);
      var project := projects[i];
      var projectText := ProjectText(project);
      if |Strip(projectText)| < 10 {
        continue;
      }
      var similarity := sim(projectText, jobDescription);
      projectScores := projectScores + [similarity];
      if similarity > 0.3 {
        relevant := relevant + [RelevantProject(project.title, Relevance(similarity))];
      }
    }
    assert projects[..|projects|] == projects;
  }

  method ProjectsScore(projects: seq<Project>, jobDescription: string, sim: Similarity) returns (score: real, details: ProjectsDetails)
    ensures score == ProjectsAssessment(projects, jobDescription, sim).0
    ensures details == ProjectsAssessment(projects, jobDescription, sim).1
  {
    if projects == [] {
      return 0.0, NoProjects;
    }
    var projectScores, relevant := RateProjects(projects, jobDescription, sim);
    if projectScores == [] {
      return 0.0, NoValidProjects;
    }
    var average := Sum(projectScores) / |projectScores| as real;
    score := if 100.0 <= average * 100.0 then 100.0 else average * 100.0;
    details := Rated(|projects|, |relevant|, Take(relevant, 3));
  }

  lemma {:induction false} SumWithin(xs: seq<real>)
    requires forall k :: 0 <= k < |xs| ==> -1.0 <= xs[k] <= 1.0
    ensures -(|xs| as real) <= Sum(xs) <= |xs| as real
    decreases |xs|
  {
    if xs != [] {
      SumWithin(xs[..|xs| - 1]);
    }
  }

  /**
   * The projects score is 0 without projects or without a rateable one, never
   * exceeds 100, and is not clamped below: it only stays above -100 because a
   * cosine does.
   */
  lemma ProjectsScoreRange(projects: seq<Project>, jobDescription: string, sim: Similarity)
    ensures var score := ProjectsAssessment(projects, jobDescription, sim).0;
      -100.0 <= score <= 100.0
    ensures projects == [] || Similarities(projects, jobDescription, sim) == []
      ==> ProjectsAssessment(projects, jobDescription, sim).0 == 0.0
  {
    var sims := Similarities(projects, jobDescription, sim);
    if projects != [] && sims != [] {
      SumWithin(sims);
      DivWithin(Sum(sims), |sims| as real);
    }
  }

  /** `top_projects` is the first three relevant projects in input order, not the three most relevant. */
  lemma TopProjectsAreFirstRelevant(projects: seq<Project>, jobDescription: string, sim: Similarity)
    requires Similarities(projects, jobDescription, sim) != []
    ensures var d := ProjectsAssessment(projects, jobDescription, sim).1;
      var relevant := Relevant(projects, jobDescription, sim);
      && d.Rated?
      && |d.topProjects| == (if |relevant| < 3 then |relevant| else 3)
      && forall k :: 0 <= k < |d.topProjects| ==> d.topProjects[k] == relevant[k]
  {
  }

  // ---------------------------------------------------------------------------
  // Recommendations

  /** One line of advice; `AdviceText` gives the message the scorer emits. */
  datatype Advice =
    | MissingSkills(missing: seq<string>)
    | MoreExperience(requiredYears: int)
    | HighlightEducation
    | StrongCandidate

  function AdviceText(a: Advice): string {
    match a
    case MissingSkills(missing) => "Missing key skills: " + Join(Take(missing, 3), ", ")
    case MoreExperience(years) => "Need more experience: " + IntText(years) + " years required"
    case HighlightEducation => "Consider highlighting relevant education credentials"
    case StrongCandidate => "Strong candidate! Well-matched for the role."
  }

  /** `experience_explanation.get('meets_requirement')`: an absent key reads as false. */
  predicate MeetsExperience(d: ExperienceDetails) {
    d.Compared? && d.meetsRequirement
  }

  /** `education_explanation.get('meets_requirement')`: an absent key reads as false. */
  predicate MeetsEducation(d: EducationDetails) {
    d.Assessed? && d.meetsRequirement
  }

  /** `experience_explanation.get('required_years', 0)` */
  function RequiredYearsShown(d: ExperienceDetails): int {
    if d.Compared? then d.requiredYears else 0
  }

  /**
   * Below 70: the skills, experience and education advice, in that order, each
   * present exactly when its condition holds (a missing `meets_requirement` key
   * counts as not met); from 70 up: the one positive line.
   */
  function Recommendations(overall: real, skills: SkillsDetails, experience: ExperienceDetails, education: EducationDetails): (recs: seq<Advice>)
    ensures overall >= ShortlistThreshold ==> recs == [StrongCandidate]
    ensures overall < ShortlistThreshold ==> |recs| <= 3 && StrongCandidate !in recs
    ensures overall < ShortlistThreshold ==>
      forall a :: a in recs ==>
        a == MissingSkills(skills.missing) || a == MoreExperience(RequiredYearsShown(experience)) || a == HighlightEducation
    ensures overall < ShortlistThreshold ==>
      |recs| == (if skills.missing != [] then 1 else 0)
              + (if !MeetsExperience(experience) then 1 else 0)
              + (if !MeetsEducation(education) then 1 else 0)
    ensures overall < ShortlistThreshold ==> (MissingSkills(skills.missing) in recs <==> skills.missing != [])
    ensures overall < ShortlistThreshold ==> (MoreExperience(RequiredYearsShown(experience)) in recs <==> !MeetsExperience(experience))
    ensures overall < ShortlistThreshold ==> (HighlightEducation in recs <==> !MeetsEducation(education))
    ensures overall < ShortlistThreshold && skills.missing != [] ==> recs[0] == MissingSkills(skills.missing)
    ensures overall < ShortlistThreshold && !MeetsEducation(education) ==> recs[|recs| - 1] == HighlightEducation
  {
    if overall < ShortlistThreshold then
      (if skills.missing != [] then [MissingSkills(skills.missing)] else [])
      + (if !MeetsExperience(experience) then [MoreExperience(RequiredYearsShown(experience))] else [])
      + (if !MeetsEducation(education) then [HighlightEducation] else [])
    else [StrongCandidate]
  }

  /** `_generate_recommendations` */
  method GenerateRecommendations(overall: real, skills: SkillsDetails, experience: ExperienceDetails, education: EducationDetails)
    returns (recs: seq<Advice>)
    ensures recs == Recommendations(overall, skills, experience, education)
  {
    recs := [];
    if overall < 70.0 {
      if skills.missing != [] {
        recs := recs + [MissingSkills(skills.missing)];
      }
      if !MeetsExperience(experience) {
        recs := recs + [MoreExperience(RequiredYearsShown(experience))];
      }
      if !MeetsEducation(education) {
        recs := recs + [HighlightEducation];
      }
    } else {
      recs := recs + [StrongCandidate];
    }
  }

  /**
   * With no experience requirement there is no `meets_requirement` key, so a
   * candidate below 70 is still told that more experience is needed.
   */
  lemma ExperienceAdviceWithoutRequirement(overall: real, skills: SkillsDetails, education: EducationDetails)
    requires overall < ShortlistThreshold
    ensures MoreExperience(0) in Recommendations(overall, skills, ExperienceScore(5, 0).1, education)
  {
  }

  // ---------------------------------------------------------------------------
  // Aggregation

  /** The fields of the resume dictionary the scorer reads (absent keys already defaulted). */
  datatype ResumeData = ResumeData(
    rawText: string,
    skills: seq<string>,
    experienceYears: int,
    education: seq<EducationEntry>,
    projects: seq<Project>)

  /** The fields of the job-role dictionary the scorer reads (absent keys already defaulted). */
  datatype JobRole = JobRole(
    title: string,
    description: string,
    requiredSkills: seq<string>,
    requiredExperience: int)

  datatype Weights = Weights(semantic: real, skills: real, experience: real, education: real, projects: real)

  const DefaultWeightTable: map<string, real> := map[
    "semantic" := 0.40, "skills" := 0.30, "experience" := 0.15, "education" := 0.10, "projects" := 0.05]

  /** `custom_weights or self.weights`: `None` and an empty dictionary are both falsy. */
  function EffectiveWeightTable(custom: Option<map<string, real>>): map<string, real> {
    if custom.Some? && custom.value != map[] then custom.value else DefaultWeightTable
  }

  /** A weight key the weighted sum looks up but the table lacks (Python's `KeyError`). */
  datatype ScoreError = MissingWeight(key: string)

  /** The five lookups of the weighted sum, in the order they are evaluated. */
  function ReadWeights(table: map<string, real>): (r: Result<Weights, ScoreError>)
    ensures r.Ok? <==> "semantic" in table && "skills" in table && "experience" in table
                       && "education" in table && "projects" in table
    ensures r.Err? ==> r.error.key !in table
  {
    if "semantic" !in table then Err(MissingWeight("semantic"))
    else if "skills" !in table then Err(MissingWeight("skills"))
    else if "experience" !in table then Err(MissingWeight("experience"))
    else if "education" !in table then Err(MissingWeight("education"))
    else if "projects" !in table then Err(MissingWeight("projects"))
    else Ok(Weights(table["semantic"], table["skills"], table["experience"], table["education"], table["projects"]))
  }

  datatype Scores = Scores(semantic: real, skills: real, experience: real, education: real, projects: real)

  function WeightedTotal(w: Weights, s: Scores): real {
    w.semantic * s.semantic + w.skills * s.skills + w.experience * s.experience
    + w.education * s.education + w.projects * s.projects
  }

  /** One breakdown entry: the rounded score, the weight and the rounded contribution. */
  datatype Component = Component(score: real, weight: real, contribution: real)

  function ComponentOf(score: real, weight: real): Component {
    Component(Round2(score), weight, Round2(weight * score))
  }

  datatype ScoreResult = ScoreResult(
    overallScore: real,
    semantic: Component,
    skills: Component,
    experience: Component,
    education: Component,
    projects: Component,
    skillsDetails: SkillsDetails,
    experienceDetails: ExperienceDetails,
    educationDetails: EducationDetails,
    projectsDetails: ProjectsDetails,
    recommendations: seq<Advice>,
    isShortlisted: bool)

  /** The unrounded component scores of a resume against a role. */
  function ComponentScores(resume: ResumeData, role: JobRole, sim: Similarity): Scores {
    Scores(
      SemanticScore(sim(resume.rawText, role.description)),
      SkillsAssessment(resume.skills, role.requiredSkills).0,
      ExperienceScore(resume.experienceYears, role.requiredExperience).0,
      EducationAssessment(resume.education, role.title).0,
      ProjectsAssessment(resume.projects, role.description, sim).0)
  }

  /** What `calculate_overall_score` returns, or the missing weight key it fails on. */
  function Assessment(resume: ResumeData, role: JobRole, custom: Option<map<string, real>>, sim: Similarity): (r: Result<ScoreResult, ScoreError>)
    ensures r.Err? <==> ReadWeights(EffectiveWeightTable(custom)).Err?
    ensures r.Ok? ==> (r.value.isShortlisted <==> r.value.overallScore >= ShortlistThreshold)
  {
    match ReadWeights(EffectiveWeightTable(custom))
    case Err(e) => Err(e)
    case Ok(w) =>
      var s := ComponentScores(resume, role, sim);
      var overall := Round2(WeightedTotal(w, s));
      var skills := SkillsAssessment(resume.skills, role.requiredSkills).1;
      var experience := ExperienceScore(resume.experienceYears, role.requiredExperience).1;
      var education := EducationAssessment(resume.education, role.title).1;
      Ok(ScoreResult(
        overall,
        ComponentOf(s.semantic, w.semantic),
        ComponentOf(s.skills, w.skills),
        ComponentOf(s.experience, w.experience),
        ComponentOf(s.education, w.education),
        ComponentOf(s.projects, w.projects),
        skills, experience, education,
        ProjectsAssessment(resume.projects, role.description, sim).1,
        Recommendations(overall, skills, experience, education),
        overall >= ShortlistThreshold))
  }

  method OverallScore(resume: ResumeData, role: JobRole, custom: Option<map<string, real>>, sim: Similarity)
    returns (r: Result<ScoreResult, ScoreError>)
    ensures r == Assessment(resume, role, custom, sim)
  {
    var table := if custom.Some? && custom.value != map[] then custom.value else DefaultWeightTable;
    var semanticScore := SemanticScore(sim(resume.rawText, role.description));
    var skillsScore, skillsDetails := SkillsScore(resume.skills, role.requiredSkills);
    var experienceScore, experienceDetails := ExperienceScore(resume.experienceYears, role.requiredExperience).0,
                                              ExperienceScore(resume.experienceYears, role.requiredExperience).1;
    var educationScore, educationDetails := EducationScore(resume.education, role.title);
    var projectsScore, projectsDetails := ProjectsScore(resume.projects, role.description, sim);
    var weights := ReadWeights(table);
    if weights.Err? {
      return Err(weights.error);
    }
    var w := weights.value;
    var scores := Scores(semanticScore, skillsScore, experienceScore, educationScore, projectsScore);
    assert scores == ComponentScores(resume, role, sim);
    var overall := Round2(WeightedTotal(w, scores));
    var isShortlisted := overall >= 70.0;
    var recs := GenerateRecommendations(overall, skillsDetails, experienceDetails, educationDetails);
    r := Ok(ScoreResult(
      overall,
      ComponentOf(semanticScore, w.semantic),
      ComponentOf(skillsScore, w.skills),
      ComponentOf(experienceScore, w.experience),
      ComponentOf(educationScore, w.education),
      ComponentOf(projectsScore, w.projects),
      skillsDetails, experienceDetails, educationDetails, projectsDetails,
      recs, isShortlisted));
  }

  /**
   * With the default weights and a non-negative experience count and requirement,
   * the overall score lies in [-2, 100]: every component is within [0, 100],
   * the education score is at least 30 with weight 0.10, and only the projects
   * score, with weight 0.05, can fall below 0, to -100.
   */
  lemma DefaultOverallRange(resume: ResumeData, role: JobRole, sim: Similarity)
    requires resume.experienceYears >= 0 && role.requiredExperience >= 0
    ensures Assessment(resume, role, None, sim).Ok?
    ensures -2.0 <= Assessment(resume, role, None, sim).value.overallScore <= 100.0
  {
    var s := ComponentScores(resume, role, sim);
    SkillsAssessmentFacts(resume.skills, role.requiredSkills);
    ProjectsScoreRange(resume.projects, role.description, sim);
    EducationScoreCases(resume.education, role.title);
    var w := Weights(0.40, 0.30, 0.15, 0.10, 0.05);
    assert ReadWeights(DefaultWeightTable) == Ok(w);
    Round2StaysWithin(WeightedTotal(w, s), -200, 10000);
  }

  /** The shortlisting threshold is inclusive: a total of exactly 70 is shortlisted. */
  lemma ShortlistBoundaryInclusive(resume: ResumeData, role: JobRole, custom: Option<map<string, real>>, sim: Similarity)
    requires ReadWeights(EffectiveWeightTable(custom)).Ok?
    requires WeightedTotal(ReadWeights(EffectiveWeightTable(custom)).value, ComponentScores(resume, role, sim)) == 70.0
    ensures Assessment(resume, role, custom, sim).value.isShortlisted
  {
    Round2OfCents(7000);
  }

  /** The decision is taken on the rounded total: 69.995 rounds to 70.00 and is shortlisted. */
  lemma RoundedTotalDecides()
    ensures Round2(69.995) == 70.0
  {
    assert (6999.5).Floor == 6999;
  }
}
