/**
 * The regular expressions resume_parser.py applies inside a section or to the
 * lower-cased text, each written out as the deterministic walk its
 * backtracking search performs. In every pattern below a greedy run of a class
 * is followed by something the class cannot match, so giving characters back
 * never helps and each run may be taken whole.
 */
module Patterns {
  import opened Outcomes
  import opened Text

  // ---------------------------------------------------------------------------
  // Years of experience, on the lower-cased text

  /** The two patterns of `_extract_experience_years`, in the order they are tried. */
  datatype YearsPattern =
    | NumberFirst   // (\d+)\+?\s*(?:years?|yrs?)\s*(?:of\s*)?(?:experience|exp)
    | KeywordFirst  // (?:experience|exp)[:;]?\s*(\d+)\+?\s*(?:years?|yrs?)

  /** `(?:years?|yrs?)` at `i`: the position after it. */
  function UnitEnd(s: string, i: nat): (r: Option<nat>)
    ensures r.Some? ==> i < r.value <= |s|
  {
    var j := if OccursAt(s, "year", i) then i + 4 else if OccursAt(s, "yr", i) then i + 2 else i;
    if j == i then None
    else if j < |s| && s[j] == 's' then Some(j + 1)
    else Some(j)
  }

  /** Skips one `c` at `i` if it is there (`c?`). */
  function SkipOne(s: string, i: nat, c: char): (r: nat)
    requires i <= |s|
    ensures i <= r <= |s|
  {
    if i < |s| && s[i] == c then i + 1 else i
  }

  /** Skips one `:` or `;` at `i` if it is there (`[:;]?`). */
  function SkipSeparator(s: string, i: nat): (r: nat)
    requires i <= |s|
    ensures i <= r <= i + 1 && r <= |s|
    ensures r == i + 1 <==> i < |s| && (s[i] == ':' || s[i] == ';')
  {
    if i < |s| && (s[i] == ':' || s[i] == ';') then i + 1 else i
  }

  /** `\d+\+?\s*(?:years?|yrs?)` at `a`: the digits and where the unit ends. */
  function CountThenUnit(s: string, a: nat): (r: Option<(nat, nat)>)
    requires a <= |s|
    ensures r.Some? ==> a < r.value.0 <= |s| && r.value.0 < r.value.1 <= |s|
                        && AllDigits(s[a..r.value.0])
  {
    var b := RunEnd(s, a, IsDigit);
    var unit := UnitEnd(s, RunEnd(s, SkipOne(s, b, '+'), IsSpace));
    if b == a || unit.None? then None
    else
      assert forall k :: 0 <= k < b - a ==> s[a..b][k] == s[a + k];
      Some((b, unit.value))
  }

  /** The digit group of a match of `pattern` starting at `p`, as a slice `s[a..b]`. */
  function YearsAt(s: string, p: nat, pattern: YearsPattern): (r: Option<(nat, nat)>)
    requires p <= |s|
    ensures r.Some? ==> p <= r.value.0 < r.value.1 <= |s| && AllDigits(s[r.value.0..r.value.1])
  {
    match pattern
    case NumberFirst =>
      (match CountThenUnit(s, p)
       case None => None
       case Some((b, u)) =>
         var w := RunEnd(s, u, IsSpace);
         var x := if OccursAt(s, "of", w) then RunEnd(s, w + 2, IsSpace) else w;
         if OccursAt(s, "exp", x) then Some((p, b)) else None)
    case KeywordFirst =>
      var k := if OccursAt(s, "experience", p) then p + 10 else if OccursAt(s, "exp", p) then p + 3 else p;
      if k == p then None
      else
        var a := RunEnd(s, SkipSeparator(s, k), IsSpace);
        (match CountThenUnit(s, a)
         case None => None
         case Some((b, _)) => Some((a, b)))
  }

  /** At most one separator is taken after the keyword: a second one stops the match. */
  lemma OneSeparatorOnly()
    ensures YearsAt("experience:;5 years", 0, KeywordFirst).None?
    ensures YearsAt("experience: 5 years", 0, KeywordFirst) == Some((12, 13))
  {
    var s := "experience:;5 years";
    assert OccursAt(s, "experience", 0);
    assert SkipSeparator(s, 10) == 11;
    assert RunEnd(s, 11, IsSpace) == 11;
    assert RunEnd(s, 11, IsDigit) == 11;
    var t := "experience: 5 years";
    assert OccursAt(t, "experience", 0);
    assert SkipSeparator(t, 10) == 11;
    assert RunEnd(t, 12, IsSpace) == 12;
    assert RunEnd(t, 11, IsSpace) == 12;
    assert RunEnd(t, 13, IsDigit) == 13;
    assert RunEnd(t, 12, IsDigit) == 13;
    assert SkipOne(t, 13, '+') == 13;
    assert RunEnd(t, 14, IsSpace) == 14;
    assert RunEnd(t, 13, IsSpace) == 14;
    assert OccursAt(t, "year", 14);
  }

  /**
   * The leftmost position `k` of `[p, n]` where `hit(k)` is a match, with that
   * match: the scan `re.search` and `re.findall` make over the start positions.
   */
  function FirstHit<T>(hit: nat -> Option<T>, p: nat, n: nat): (r: Option<(nat, T)>)
    ensures r.Some? ==> p <= r.value.0 <= n && hit(r.value.0) == Some(r.value.1)
    ensures r.Some? ==> forall k :: p <= k < r.value.0 ==> hit(k).None?
    ensures r.None? <==> forall k :: p <= k <= n ==> hit(k).None?
    decreases n + 1 - p
  {
    if p > n then None
    else
      match hit(p)
      case Some(m) => Some((p, m))
      case None => FirstHit(hit, p + 1, n)
  }

  /** `YearsAt` at every position of `s`, and no match past its end. */
  function YearsHit(s: string, pattern: YearsPattern): (hit: nat -> Option<(nat, nat)>)
    ensures forall k: nat :: k <= |s| ==> hit(k) == YearsAt(s, k, pattern)
  {
    (k: nat) => if k <= |s| then YearsAt(s, k, pattern) else None
  }

  /** The number in the leftmost match of `pattern` from `p` on: `findall(...)[0]`. */
  function FirstYears(s: string, p: nat, pattern: YearsPattern): (r: Option<nat>)
    requires p <= |s|
  {
    match FirstHit(YearsHit(s, pattern), p, |s|)
    case None => None
    case Some((k, (a, b))) =>
      assert YearsAt(s, k, pattern) == Some((a, b));
      Some(DigitsValue(s[a..b]))
  }

  /** The search finds nothing exactly when the pattern matches at no position. */
  lemma FirstYearsNone(s: string, p: nat, pattern: YearsPattern)
    requires p <= |s|
    ensures FirstYears(s, p, pattern).None? <==> forall k :: p <= k <= |s| ==> YearsAt(s, k, pattern).None?
  {
    var hit := YearsHit(s, pattern);
    assert FirstYears(s, p, pattern).None? <==> FirstHit(hit, p, |s|).None?;
    assert (forall k :: p <= k <= |s| ==> hit(k).None?)
       <==> (forall k :: p <= k <= |s| ==> YearsAt(s, k, pattern).None?);
  }

  /** The number reported is the one at the leftmost match; later matches are never read. */
  lemma FirstYearsIsLeftmost(s: string, p: nat, q: nat, pattern: YearsPattern)
    requires p <= q <= |s| && YearsAt(s, q, pattern).Some?
    requires forall k :: p <= k < q ==> YearsAt(s, k, pattern).None?
    ensures FirstYears(s, p, pattern) == Some(DigitsValue(s[YearsAt(s, q, pattern).value.0..YearsAt(s, q, pattern).value.1]))
  {
    var hit := YearsHit(s, pattern);
    assert hit(q).Some?;
    assert FirstHit(hit, p, |s|).Some?;
    assert FirstHit(hit, p, |s|).value.0 == q;
  }

  /** Positions without a match are passed over. */
  lemma FirstYearsSkipsTo(s: string, p: nat, q: nat, pattern: YearsPattern)
    requires p <= q <= |s|
    requires forall k :: p <= k < q ==> YearsAt(s, k, pattern).None?
    ensures FirstYears(s, p, pattern) == FirstYears(s, q, pattern)
  {
    var hit := YearsHit(s, pattern);
    assert forall k :: p <= k < q ==> hit(k).None?;
    FirstHitSkipsTo(hit, p, q, |s|);
  }

  /** Positions without a hit are passed over. */
  lemma FirstHitSkipsTo<T>(hit: nat -> Option<T>, p: nat, q: nat, n: nat)
    requires p <= q <= n + 1
    requires forall k :: p <= k < q ==> hit(k).None?
    ensures FirstHit(hit, p, n) == FirstHit(hit, q, n)
  {
    var r, t := FirstHit(hit, p, n), FirstHit(hit, q, n);
    if t.None? {
      assert forall k :: p <= k <= n ==> hit(k).None? by {
        forall k | p <= k <= n ensures hit(k).None? {
          if k >= q {
            assert q <= k <= n;
          }
        }
      }
    }
  }

  // ---------------------------------------------------------------------------
  // Job lines: (.+?)\s*[-–]\s*(\d{4}|\w+\s+\d{4})\s*[-–]\s*(?:present|current|\d{4}), IGNORECASE

  predicate IsDash(c: char) { c == '-' || c == '\U{2013}' }

  predicate FourDigitsAt(s: string, i: nat) {
    i + 4 <= |s| && AllDigits(s[i..i + 4])
  }

  /** `\s*[-–]\s*` at `i`: the position after it. */
  function DashFrom(s: string, i: nat): (r: Option<nat>)
    requires i <= |s|
    ensures r.Some? ==> i < r.value <= |s|
  {
    var w := RunEnd(s, i, IsSpace);
    if w < |s| && IsDash(s[w]) then Some(RunEnd(s, w + 1, IsSpace)) else None
  }

  /** `\s*[-–]\s*(?:present|current|\d{4})` at `i`: where the match ends. */
  function UntilFrom(s: string, i: nat): (r: Option<nat>)
    requires i <= |s|
    ensures r.Some? ==> i < r.value <= |s|
  {
    match DashFrom(s, i)
    case None => None
    case Some(y) =>
      if FoldedAt(s, y, "present") || FoldedAt(s, y, "current") then Some(y + 7)
      else if FourDigitsAt(s, y) then Some(y + 4)
      else None
  }

  /** Where the date group and the whole match end. */
  datatype DateMatch = DateMatch(dateEnd: nat, end: nat)

  /** `(\d{4}|\w+\s+\d{4})` at `q` and the rest of the pattern after it. */
  function DateFrom(s: string, q: nat): (r: Option<DateMatch>)
    requires q <= |s|
    ensures r.Some? ==> q + 4 <= r.value.dateEnd < r.value.end <= |s| && FourDigitsAt(s, r.value.dateEnd - 4)
  {
    var u := RunEnd(s, q, IsWordChar);
    var v := RunEnd(s, u, IsSpace);
    if FourDigitsAt(s, q) && UntilFrom(s, q + 4).Some? then
      Some(DateMatch(q + 4, UntilFrom(s, q + 4).value))
    else if q < u < v && FourDigitsAt(s, v) && UntilFrom(s, v + 4).Some? then
      Some(DateMatch(v + 4, UntilFrom(s, v + 4).value))
    else None
  }

  /** A match of the job pattern: the title group is `s[start..titleEnd]`, the date group `s[dateStart..dateEnd]`. */
  datatype JobMatch = JobMatch(titleEnd: nat, dateStart: nat, dateEnd: nat, end: nat)

  /** The rest of the pattern after a title ending at `g`: where the dash ends, and the date match. */
  function RestAfter(s: string, g: nat): (r: Option<(nat, DateMatch)>)
    requires g <= |s|
    ensures r.Some? ==> g < r.value.0 && r.value.0 + 4 <= r.value.1.dateEnd < r.value.1.end <= |s|
                        && FourDigitsAt(s, r.value.1.dateEnd - 4)
  {
    match DashFrom(s, g)
    case None => None
    case Some(y) =>
      match DateFrom(s, y)
      case None => None
      case Some(d) => Some((y, d))
  }

  /** `RestAfter` is the dash followed by the date. */
  lemma RestAfterIs(s: string, g: nat)
    requires g <= |s|
    ensures RestAfter(s, g).None? <==> DashFrom(s, g).None? || DateFrom(s, DashFrom(s, g).value).None?
    ensures RestAfter(s, g).Some? ==>
      DashFrom(s, g) == Some(RestAfter(s, g).value.0) && DateFrom(s, RestAfter(s, g).value.0) == Some(RestAfter(s, g).value.1)
  {
  }

  /** `RestAfter` at every title end in `s`. */
  function RestHit(s: string): (rest: nat -> Option<(nat, DateMatch)>)
    ensures forall k: nat :: k <= |s| ==> rest(k) == RestAfter(s, k)
  {
    (k: nat) => if k <= |s| then RestAfter(s, k) else None
  }

  /**
   * The lazy `.+?` of a line: the first end `g`, `g + 1`, ... after which
   * `rest` matches, each step taking one more character that is not a newline.
   */
  function LazyEnd<T>(s: string, rest: nat -> Option<T>, g: nat): (r: Option<(nat, T)>)
    requires g <= |s|
    ensures r.Some? ==> g <= r.value.0 <= |s| && rest(r.value.0) == Some(r.value.1)
    ensures r.Some? ==> forall k :: g <= k < r.value.0 ==> rest(k).None? && s[k] != '\n'
    ensures r.None? ==> forall k :: g <= k <= |s| && rest(k).Some? ==> exists j :: g <= j < k && s[j] == '\n'
    decreases |s| - g
  {
    match rest(g)
    case Some(t) => Some((g, t))
    case None => if g < |s| && s[g] != '\n' then LazyEnd(s, rest, g + 1) else None
  }

  /** The job match a title ending at `found.0` and the rest `found.1` make. */
  function MatchOf(found: (nat, (nat, DateMatch))): JobMatch {
    JobMatch(found.0, found.1.0, found.1.1.dateEnd, found.1.1.end)
  }

  /** A job match has a non-empty one-line title, then the dash, then a date ending in four digits. */
  predicate JobShape(s: string, p: nat, m: JobMatch) {
    && p < m.titleEnd < m.dateStart && m.dateStart + 4 <= m.dateEnd < m.end <= |s|
    && OneLine(s, p, m.titleEnd)
    && FourDigitsAt(s, m.dateEnd - 4)
  }

  /** No newline in `s[p..e]`. */
  predicate OneLine(s: string, p: nat, e: nat) {
    forall k :: p <= k < e && k < |s| ==> s[k] != '\n'
  }

  /** Where the lazy title stops, the dash and the date follow, in order and inside the text. */
  lemma LazyEndBounds(s: string, p: nat, found: (nat, (nat, DateMatch)))
    requires p < |s| && LazyEnd(s, RestHit(s), p + 1) == Some(found)
    ensures p < found.0 < found.1.0 && found.1.0 + 4 <= found.1.1.dateEnd < found.1.1.end <= |s|
    ensures FourDigitsAt(s, found.1.1.dateEnd - 4)
  {
    assert RestHit(s)(found.0) == Some(found.1);
    assert RestAfter(s, found.0) == Some(found.1);
  }

  /** The lazy title stays on the line it starts on. */
  lemma LazyEndOneLine(s: string, p: nat, found: (nat, (nat, DateMatch)))
    requires p < |s| && s[p] != '\n' && LazyEnd(s, RestHit(s), p + 1) == Some(found)
    ensures OneLine(s, p, found.0)
  {
  }

  lemma LazyEndShape(s: string, p: nat, found: (nat, (nat, DateMatch)))
    requires p < |s| && s[p] != '\n' && LazyEnd(s, RestHit(s), p + 1) == Some(found)
    ensures JobShape(s, p, MatchOf(found))
  {
    LazyEndBounds(s, p, found);
    LazyEndOneLine(s, p, found);
  }

  /** The match of the job pattern that starts at `p`, if any. */
  function JobAt(s: string, p: nat): (r: Option<JobMatch>)
    requires p <= |s|
    ensures r.Some? ==> JobShape(s, p, r.value)
  {
    if p < |s| && s[p] != '\n' then
      var found := LazyEnd(s, RestHit(s), p + 1);
      if found.None? then None
      else
        LazyEndShape(s, p, found.value);
        Some(MatchOf(found.value))
    else None
  }

  /**
   * The lazy title is the shortest: after no shorter title do the dash and the
   * date match, and after the chosen one they match as reported.
   */
  lemma JobAtShortest(s: string, p: nat)
    requires p <= |s| && JobAt(s, p).Some?
    ensures var m := JobAt(s, p).value;
      && (forall g :: p < g < m.titleEnd ==> DashFrom(s, g).None? || DateFrom(s, DashFrom(s, g).value).None?)
      && DashFrom(s, m.titleEnd) == Some(m.dateStart) && DateFrom(s, m.dateStart) == Some(DateMatch(m.dateEnd, m.end))
  {
    var m := JobAt(s, p).value;
    var found := LazyEnd(s, RestHit(s), p + 1);
    assert found == Some((m.titleEnd, (m.dateStart, DateMatch(m.dateEnd, m.end))));
    forall g | p < g < m.titleEnd
      ensures DashFrom(s, g).None? || DateFrom(s, DashFrom(s, g).value).None?
    {
      assert RestHit(s)(g).None?;
      RestAfterIs(s, g);
    }
    assert RestHit(s)(m.titleEnd) == Some((m.dateStart, DateMatch(m.dateEnd, m.end)));
    RestAfterIs(s, m.titleEnd);
  }

  /**
   * No title ending on the first line lets the rest match exactly when there is
   * no match at `p`.
   */
  lemma JobAtNone(s: string, p: nat)
    requires p <= |s| && p < |s| && s[p] != '\n'
    ensures JobAt(s, p).None? <==>
      forall g :: p < g <= |s| && RestAfter(s, g).Some? ==> exists j :: p < j < g && s[j] == '\n'
  {
    var found := LazyEnd(s, RestHit(s), p + 1);
    if found.Some? {
      var g := found.value.0;
      assert RestAfter(s, g).Some?;
    } else {
      forall g | p < g <= |s| && RestAfter(s, g).Some?
        ensures exists j :: p < j < g && s[j] == '\n'
      {
        assert RestHit(s)(g).Some?;
      }
    }
  }

  /** One `findall` tuple: the title group and the date group. */
  datatype JobGroups = JobGroups(title: string, date: string)

  /** The title is a non-empty piece of one line and the date ends in a four-digit year. */
  predicate WellFormedGroups(g: JobGroups) {
    && g.title != [] && '\n' !in g.title
    && |g.date| >= 4 && AllDigits(g.date[|g.date| - 4..])
  }

  /** The groups of the match `m` that starts at `p`. */
  function GroupsOf(s: string, p: nat, m: JobMatch): (g: JobGroups)
    requires p <= |s| && JobAt(s, p) == Some(m)
    ensures WellFormedGroups(g)
  {
    var title := s[p..m.titleEnd];
    var date := s[m.dateStart..m.dateEnd];
    assert date[|date| - 4..] == s[m.dateEnd - 4..m.dateEnd];
    assert forall k :: 0 <= k < |title| ==> title[k] == s[p + k];
    JobGroups(title, date)
  }

  /** `JobAt` at every position of `s`, and no match past its end. */
  function JobHit(s: string): (hit: nat -> Option<JobMatch>)
    ensures forall k: nat :: k <= |s| ==> hit(k) == JobAt(s, k)
  {
    (k: nat) => if k <= |s| then JobAt(s, k) else None
  }

  /** `re.findall` of the job pattern from `p` on: the leftmost match, then the matches after it. */
  function JobsFrom(s: string, p: nat): (r: seq<JobGroups>)
    requires p <= |s|
    ensures forall g :: g in r ==> WellFormedGroups(g)
    decreases |s| - p
  {
    match FirstHit(JobHit(s), p, |s|)
    case None => []
    case Some((q, m)) =>
      assert JobAt(s, q) == Some(m);
      [GroupsOf(s, q, m)] + JobsFrom(s, m.end)
  }

  /** `findall` reports nothing exactly when no position from `p` on has a match. */
  lemma JobsFromNone(s: string, p: nat)
    requires p <= |s|
    ensures JobsFrom(s, p) == [] <==> forall k :: p <= k <= |s| ==> JobAt(s, k).None?
  {
    assert JobsFrom(s, p) == [] <==> FirstHit(JobHit(s), p, |s|).None?;
    assert (forall k :: p <= k <= |s| ==> JobHit(s)(k).None?)
       <==> (forall k :: p <= k <= |s| ==> JobAt(s, k).None?);
  }

  /** `findall` reports the match at the leftmost position that has one, then continues after it. */
  lemma JobsFromLeftmost(s: string, p: nat)
    requires p <= |s| && JobsFrom(s, p) != []
    ensures exists q: nat :: p <= q < |s| && FirstJobAt(s, p, q)
  {
    var first := FirstHit(JobHit(s), p, |s|);
    assert first.Some?;
    var q := first.value.0;
    assert JobAt(s, q) == Some(first.value.1);
    forall k | p <= k < q
      ensures JobAt(s, k).None?
    {
      assert JobHit(s)(k).None?;
    }
    assert FirstJobAt(s, p, q);
  }

  /** The first `findall` match from `p` on starts at `q`, and the search resumes where it ends. */
  predicate FirstJobAt(s: string, p: nat, q: nat)
    requires p <= q <= |s|
  {
    && JobAt(s, q).Some?
    && (forall k :: p <= k < q ==> JobAt(s, k).None?)
    && JobsFrom(s, p) == [GroupsOf(s, q, JobAt(s, q).value)] + JobsFrom(s, JobAt(s, q).value.end)
  }

  // ---------------------------------------------------------------------------
  // Degrees: (bachelor|master|phd|b\.?tech|m\.?tech|b\.?e|m\.?e|diploma)[^\n]*, IGNORECASE

  /** The alternatives in the order they are tried (`\.?` tries the dot first). */
  const DegreeKeywords: seq<string> :=
    ["bachelor", "master", "phd", "b.tech", "btech", "m.tech", "mtech", "b.e", "be", "m.e", "me", "diploma"]

  /** The first keyword, in pattern order, that occurs at `p`. */
  function KeywordAt(s: string, p: nat, keywords: seq<string>): (r: Option<string>)
    ensures r.Some? ==> r.value in keywords && FoldedAt(s, p, r.value)
    ensures r.None? ==> forall w :: w in keywords ==> !FoldedAt(s, p, w)
    decreases |keywords|
  {
    if keywords == [] then None
    else if FoldedAt(s, p, keywords[0]) then Some(keywords[0])
    else KeywordAt(s, p, keywords[1..])
  }

  predicate IsNotNewline(c: char) { c != '\n' }

  predicate NoneEmpty(keywords: seq<string>) {
    forall w :: w in keywords ==> w != []
  }

  lemma DegreeKeywordsNonEmpty()
    ensures NoneEmpty(DegreeKeywords)
  {
  }

  /**
   * `re.findall` of `(keyword|...)[^\n]*` from `p` on: the keyword as written,
   * for each match; a match runs to the end of its line.
   */
  function KeywordsFrom(s: string, p: nat, keywords: seq<string>): (r: seq<string>)
    requires p <= |s| && NoneEmpty(keywords)
    ensures forall d :: d in r ==> Lower(d) in keywords
    decreases |s| - p
  {
    if p == |s| then []
    else match KeywordAt(s, p, keywords)
      case None => KeywordsFrom(s, p + 1, keywords)
      case Some(w) => [s[p..p + |w|]] + KeywordsFrom(s, RunEnd(s, p + |w|, IsNotNewline), keywords)
  }

  /** The degree matches of a section. */
  function DegreesIn(s: string): (r: seq<string>)
    ensures forall d :: d in r ==> Lower(d) in DegreeKeywords
  {
    DegreeKeywordsNonEmpty();
    KeywordsFrom(s, 0, DegreeKeywords)
  }

  /** No keyword occurs, in any case, from `p` on exactly when the scan finds none. */
  lemma {:induction false} KeywordsFromEmpty(s: string, p: nat, keywords: seq<string>)
    requires p <= |s| && NoneEmpty(keywords)
    ensures KeywordsFrom(s, p, keywords) == [] <==>
      forall k, w :: p <= k < |s| && w in keywords ==> !FoldedAt(s, k, w)
    decreases |s| - p
  {
    if p < |s| {
      var first := KeywordAt(s, p, keywords);
      if first.None? {
        KeywordsFromEmpty(s, p + 1, keywords);
      }
    }
  }

  // ---------------------------------------------------------------------------
  // Project pieces: re.split(r'\n(?=[A-Z]|\d+\.)', text)

  /** The lookahead `(?=[A-Z]|\d+\.)` holds at `i`. */
  predicate ProjectStartsAt(s: string, i: nat) {
    i < |s| && (IsUpper(s[i]) || (IsDigit(s[i]) && RunEnd(s, i, IsDigit) < |s| && s[RunEnd(s, i, IsDigit)] == '.'))
  }

  /** The first newline from `j` on that the lookahead accepts, or `|s|`. */
  function SplitPoint(s: string, j: nat): (r: nat)
    requires j <= |s|
    ensures j <= r <= |s|
    ensures r < |s| ==> s[r] == '\n' && ProjectStartsAt(s, r + 1)
    ensures forall k :: j <= k < r ==> !(s[k] == '\n' && ProjectStartsAt(s, k + 1))
    decreases |s| - j
  {
    if j == |s| then j
    else if s[j] == '\n' && ProjectStartsAt(s, j + 1) then j
    else SplitPoint(s, j + 1)
  }

  /** The pieces between the accepted newlines, the newlines themselves dropped. */
  function ProjectPieces(s: string): (pieces: seq<string>)
    ensures |pieces| >= 1
    decreases |s|
  {
    var i := SplitPoint(s, 0);
    if i == |s| then [s] else [s[..i]] + ProjectPieces(s[i + 1..])
  }

  /** Joining the pieces with newlines gives back the section. */
  lemma {:induction false} JoinProjectPieces(s: string)
    ensures Join(ProjectPieces(s), "\n") == s
    decreases |s|
  {
    var i := SplitPoint(s, 0);
    if i < |s| {
      var rest := s[i + 1..];
      JoinProjectPieces(rest);
      ProjectPiecesStep(s);
      JoinCons(s[..i], ProjectPieces(rest), "\n");
    }
  }

  /** An accepted newline at `i` splits off the first piece. */
  lemma ProjectPiecesStep(s: string)
    requires SplitPoint(s, 0) < |s|
    ensures var i := SplitPoint(s, 0);
      && ProjectPieces(s) == [s[..i]] + ProjectPieces(s[i + 1..])
      && s == s[..i] + "\n" + s[i + 1..]
  {
    var i := SplitPoint(s, 0);
    assert ProjectPieces(s) == [s[..i]] + ProjectPieces(s[i + 1..]);
    assert s[i] == '\n';
    CutAt(s, i);
  }

  /** A run that ends inside a prefix of the text ends at the same place in the whole text. */
  lemma {:induction false} RunEndInPrefix(s: string, n: nat, i: nat, ok: char -> bool)
    requires i <= n <= |s| && RunEnd(s[..n], i, ok) < n
    ensures RunEnd(s, i, ok) == RunEnd(s[..n], i, ok)
    decreases n - i
  {
    if ok(s[i]) {
      RunEndInPrefix(s, n, i + 1, ok);
    }
  }

  /** The lookahead holding inside a piece cut off before a newline (or the end) holds in the whole text. */
  lemma StartsInPiece(s: string, n: nat, m: nat)
    requires n <= |s| && (n == |s| || s[n] == '\n')
    ensures ProjectStartsAt(s[..n], m) ==> ProjectStartsAt(s, m)
  {
    var t := s[..n];
    if m < |t| && !IsUpper(t[m]) && IsDigit(t[m]) && RunEnd(t, m, IsDigit) < |t| {
      RunEndInPrefix(s, n, m, IsDigit);
    }
  }

  /** No newline inside `t` is one the lookahead accepts. */
  predicate Uncut(t: string) {
    forall k :: 0 <= k < |t| && t[k] == '\n' ==> !ProjectStartsAt(t, k + 1)
  }

  /** The first piece has no newline the lookahead accepts. */
  lemma FirstPieceUncut(s: string)
    ensures Uncut(ProjectPieces(s)[0])
  {
    var i := SplitPoint(s, 0);
    var t := s[..i];
    assert ProjectPieces(s)[0] == t;
    forall k | 0 <= k < |t| && t[k] == '\n'
      ensures !ProjectStartsAt(t, k + 1)
    {
      StartsInPiece(s, i, k + 1);
      assert s[k] == '\n';
    }
  }

  /**
   * `re.split` cuts at every newline the lookahead accepts: no piece keeps
   * such a newline inside it.
   */
  lemma {:induction false} ProjectPiecesCutEverywhere(s: string)
    ensures forall t :: t in ProjectPieces(s) ==> Uncut(t)
    decreases |s|
  {
    var i := SplitPoint(s, 0);
    FirstPieceUncut(s);
    if i < |s| {
      var rest := s[i + 1..];
      ProjectPiecesCutEverywhere(rest);
      assert ProjectPieces(s) == [s[..i]] + ProjectPieces(rest);
    } else {
      assert ProjectPieces(s) == [s];
    }
  }
}
