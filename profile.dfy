/**
 * The records the resume parser produces and the scorer consumes: the
 * dictionaries with keys `title`/`duration`, `degree`/`details` and
 * `title`/`description`, and the parsed resume as a whole.
 */
module Profile {
  import opened Outcomes

  datatype ExperienceEntry = ExperienceEntry(title: string, duration: string)

  datatype EducationEntry = EducationEntry(degree: string, details: string)

  datatype Project = Project(title: string, description: string)

  /** The dictionary `ResumeParser.parse` returns. */
  datatype CandidateProfile = CandidateProfile(
    rawText: string,
    candidateName: Option<string>,
    candidateEmail: Option<string>,
    skills: set<string>,
    experienceYears: nat,
    experienceDetails: seq<ExperienceEntry>,
    education: seq<EducationEntry>,
    projects: seq<Project>,
    certifications: seq<string>)
}
