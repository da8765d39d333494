/**
 * The section searches of resume_parser.py. Each is a `re.search` with
 * IGNORECASE and DOTALL of
 *
 *   (?:heading | heading | ...)[:;]?\s*(.+?)(?:BREAK|$)
 *
 * and the parser keeps group 1, the section body. Worked out by hand, the
 * backtracking search is deterministic: at the leftmost position where some
 * heading (tried in pattern order) is followed by at least one character, one
 * optional ':' or ';' and the maximal whitespace run are skipped, and the body
 * is the shortest non-empty run that a break or the end anchor `$` follows.
 * When nothing is left after the whitespace, the backtracking hands the last
 * character of the text back to the body.
 */
module Sections {
  import opened Outcomes
  import opened Text

  /** `\n` repeated `newlines` times, or `\n` followed by `letters` letters. */
  datatype Break = Break(newlines: nat, letters: nat)

  /** `\n\n|\n[A-Z]` in the skills pattern (IGNORECASE lets `[A-Z]` match any letter). */
  const SkillsBreak: Break := Break(2, 1)

  /** `\n\n\n|\n[A-Z]{3,}` in the experience, education, project and certification patterns. */
  const BlockBreak: Break := Break(3, 3)

  /** Headings in the order the alternations try them (`projects?` tries the plural first). */
  const SkillsHeadings: seq<string> := ["skills", "technical skills", "technologies", "tools", "expertise"]
  const ExperienceHeadings: seq<string> := ["experience", "work experience", "employment", "professional experience"]
  const EducationHeadings: seq<string> := ["education", "academic", "qualification"]
  const ProjectHeadings: seq<string> := ["projects", "project", "project experience"]
  const CertificationHeadings: seq<string> :=
    ["certifications", "certification", "certificates", "certificate", "credentials", "credential"]

  /** The break, or `$` (the end, or just before a final newline), matches at `e`. */
  predicate EndsAt(s: string, e: nat, br: Break)
    requires e <= |s|
  {
    || e == |s|
    || (e == |s| - 1 && s[e] == '\n')
    || (e + br.newlines <= |s| && forall k :: e <= k < e + br.newlines ==> s[k] == '\n')
    || (e < |s| && s[e] == '\n' && e + 1 + br.letters <= |s|
        && forall k :: e + 1 <= k < e + 1 + br.letters ==> IsAlpha(s[k]))
  }

  /** The first position from `e` on where the body may end. */
  function BodyEnd(s: string, e: nat, br: Break): (r: nat)
    requires e <= |s|
    ensures e <= r <= |s| && EndsAt(s, r, br)
    ensures forall k :: e <= k < r ==> !EndsAt(s, k, br)
    decreases |s| - e
  {
    if EndsAt(s, e, br) then e else BodyEnd(s, e + 1, br)
  }

  /** `heading` occurs at `p` and at least one character follows it. */
  predicate Opens(s: string, p: nat, heading: string) {
    FoldedAt(s, p, heading) && p + |heading| < |s|
  }

  /** The first heading, in pattern order, that opens a section at `p`. */
  function FirstHeading(s: string, p: nat, headings: seq<string>): (r: Option<string>)
    ensures r.Some? ==> r.value in headings && Opens(s, p, r.value)
    ensures r.None? ==> forall h :: h in headings ==> !Opens(s, p, h)
    decreases |headings|
  {
    if headings == [] then None
    else if Opens(s, p, headings[0]) then Some(headings[0])
    else FirstHeading(s, p, headings[1..])
  }

  /** Where a body lies in the text: `s[start..end]`. */
  datatype Span = Span(start: nat, end: nat)

  /** The body of a section whose heading ends at `h`. */
  function BodyAfter(s: string, h: nat, br: Break): (r: Span)
    requires h < |s|
    ensures h <= r.start < r.end <= |s|
    ensures EndsAt(s, r.end, br)
  {
    var q := if s[h] == ':' || s[h] == ';' then h + 1 else h;
    var w := RunEnd(s, q, IsSpace);
    if w < |s| then Span(w, BodyEnd(s, w + 1, br)) else Span(|s| - 1, |s|)
  }

  /** The section whose heading starts at `p`, if one does. */
  function SectionAt(s: string, p: nat, headings: seq<string>, br: Break): (r: Option<Span>)
    ensures r.Some? ==> p <= r.value.start < r.value.end <= |s| && EndsAt(s, r.value.end, br)
    ensures r.Some? ==> exists h :: h in headings && Opens(s, p, h) && p + |h| <= r.value.start
  {
    match FirstHeading(s, p, headings)
    case None => None
    case Some(h) => Some(BodyAfter(s, p + |h|, br))
  }

  /** `re.search` from position `p` on. */
  function SearchFrom(s: string, p: nat, headings: seq<string>, br: Break): (r: Option<Span>)
    requires p <= |s|
    ensures r.Some? ==> p <= r.value.start < r.value.end <= |s| && EndsAt(s, r.value.end, br)
    decreases |s| - p
  {
    if p == |s| then None
    else match SectionAt(s, p, headings, br)
      case Some(span) => Some(span)
      case None => SearchFrom(s, p + 1, headings, br)
  }

  /**
   * The section body of the text, if some heading is followed by anything: a
   * non-empty slice that a break or the end of the text follows.
   */
  function FindSection(s: string, headings: seq<string>, br: Break): (r: Option<Span>)
    ensures r.Some? ==> r.value.start < r.value.end <= |s| && EndsAt(s, r.value.end, br)
  {
    SearchFrom(s, 0, headings, br)
  }

  /** The search is leftmost: it returns the section at the first position that has one. */
  lemma {:induction false} SearchFromIsLeftmost(s: string, p: nat, headings: seq<string>, br: Break)
    requires p <= |s|
    ensures SearchFrom(s, p, headings, br).Some? ==>
      exists q :: p <= q < |s| && SectionAt(s, q, headings, br) == SearchFrom(s, p, headings, br)
        && forall k :: p <= k < q ==> SectionAt(s, k, headings, br).None?
    decreases |s| - p
  {
    if p < |s| && SearchFrom(s, p, headings, br).Some? {
      if SectionAt(s, p, headings, br).Some? {
        assert SectionAt(s, p, headings, br) == SearchFrom(s, p, headings, br);
      } else {
        assert SearchFrom(s, p, headings, br) == SearchFrom(s, p + 1, headings, br);
        SearchFromIsLeftmost(s, p + 1, headings, br);
        var q :| p + 1 <= q < |s| && SectionAt(s, q, headings, br) == SearchFrom(s, p + 1, headings, br)
          && forall k :: p + 1 <= k < q ==> SectionAt(s, k, headings, br).None?;
        assert forall k :: p <= k < q ==> SectionAt(s, k, headings, br).None?;
      }
    }
  }

  /** The section body begins after the end of a heading that opens a section. */
  lemma FindSectionAfterHeading(s: string, headings: seq<string>, br: Break)
    ensures FindSection(s, headings, br).Some? ==>
      exists q: nat, h :: h in headings && Opens(s, q, h) && q + |h| <= FindSection(s, headings, br).value.start
  {
    SearchFromIsLeftmost(s, 0, headings, br);
  }

  /** The search finds nothing exactly when no heading is followed by at least one character. */
  lemma {:induction false} SearchFromFindsNothing(s: string, p: nat, headings: seq<string>, br: Break)
    requires p <= |s|
    ensures SearchFrom(s, p, headings, br).None? <==>
      forall k, h :: p <= k < |s| && h in headings ==> !Opens(s, k, h)
    decreases |s| - p
  {
    if p < |s| {
      SearchFromFindsNothing(s, p + 1, headings, br);
      var first := FirstHeading(s, p, headings);
      if first.Some? {
        assert Opens(s, p, first.value);
      }
    }
  }
}
