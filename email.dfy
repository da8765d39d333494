/**
 * The e-mail pattern shared by resume_parser.py and utils.py:
 *
 *   \b[A-Za-z0-9._%+-]+@[A-Za-z0-9.-]+\.[A-Z|a-z]{2,}\b
 *
 * (case-sensitive; the `|` inside the last class is a literal member). At a
 * start position the backtracking matcher must run the local part up to an
 * '@' (no local character is '@'), then tries the dots of the domain run from
 * the last to the first, and for each dot the top-level-domain ends from the
 * longest to the shortest, taking the first end that is a word boundary.
 * `EmailAt` is that order written out; `IsEmail` is the declarative shape.
 */
module EmailPattern {
  import opened Outcomes
  import opened Text

  predicate IsLocalChar(c: char) {
    IsAlpha(c) || IsDigit(c) || c == '.' || c == '_' || c == '%' || c == '+' || c == '-'
  }

  predicate IsDomainChar(c: char) {
    IsAlpha(c) || IsDigit(c) || c == '.' || c == '-'
  }

  predicate IsTldChar(c: char) {
    IsAlpha(c) || c == '|'
  }

  /** `\b`: a word character on exactly one side of position `i`. */
  predicate IsBoundary(s: string, i: nat)
    requires i <= |s|
  {
    (i > 0 && IsWordChar(s[i - 1])) != (i < |s| && IsWordChar(s[i]))
  }

  /**
   * `s[p..t]` has the e-mail shape: local part `s[p..m]`, '@', domain
   * `s[m + 1..d]`, '.', top-level domain `s[d + 1..t]` of at least two
   * characters, with word boundaries at both ends.
   */
  predicate IsEmail(s: string, p: nat, m: nat, d: nat, t: nat) {
    && p < m && m + 1 < d && d + 2 < t && t <= |s|
    && (forall k :: p <= k < m ==> IsLocalChar(s[k]))
    && s[m] == '@'
    && (forall k :: m + 1 <= k < d ==> IsDomainChar(s[k]))
    && s[d] == '.'
    && (forall k :: d + 1 <= k < t ==> IsTldChar(s[k]))
    && IsBoundary(s, p) && IsBoundary(s, t)
  }

  /** The longest top-level-domain end in `[lo, t]` that is a word boundary. */
  function TldEnd(s: string, lo: nat, t: nat): (r: Option<nat>)
    requires t <= |s|
    ensures r.Some? ==> lo <= r.value <= t && IsBoundary(s, r.value)
    ensures r.None? ==> forall k :: lo <= k <= t ==> !IsBoundary(s, k)
    decreases t
  {
    if t < lo then None
    else if IsBoundary(s, t) then Some(t)
    else if t == 0 then None
    else TldEnd(s, lo, t - 1)
  }

  /** The match end when the domain ends at the dot `s[d]`, if the top-level domain fits. */
  function AfterDot(s: string, d: nat): (r: Option<nat>)
    requires d < |s|
    ensures r.Some? ==> d + 3 <= r.value <= |s| && IsBoundary(s, r.value)
                        && forall k :: d + 1 <= k < r.value ==> IsTldChar(s[k])
  {
    var tldRun := RunEnd(s, d + 1, IsTldChar);
    TldEnd(s, d + 3, tldRun)
  }

  /** Tries the dots at `d`, `d - 1`, ... down to `a + 1`: the domain is `s[a..d]`. */
  function DomainFrom(s: string, a: nat, d: nat): (r: Option<(nat, nat)>)
    requires d < |s|
    ensures r.Some? ==> a < r.value.0 <= d && s[r.value.0] == '.' && AfterDot(s, r.value.0) == Some(r.value.1)
    decreases d
  {
    if d <= a then None
    else if s[d] == '.' && AfterDot(s, d).Some? then Some((d, AfterDot(s, d).value))
    else DomainFrom(s, a, d - 1)
  }

  /** The match that starts at `p`, as (domain dot, end), if there is one. */
  function EmailAt(s: string, p: nat): (r: Option<(nat, nat)>)
    requires p <= |s|
  {
    if !IsBoundary(s, p) then None
    else
      var m := RunEnd(s, p, IsLocalChar);
      if m == p || m == |s| || s[m] != '@' then None
      else
        var domainRun := RunEnd(s, m + 1, IsDomainChar);
        if domainRun == m + 1 then None
        else DomainFrom(s, m + 1, domainRun - 1)
  }

  /** What `EmailAt` returns is an e-mail shape. */
  lemma EmailAtIsEmail(s: string, p: nat)
    requires p <= |s| && EmailAt(s, p).Some?
    ensures var (d, t) := EmailAt(s, p).value;
      IsEmail(s, p, RunEnd(s, p, IsLocalChar), d, t)
  {
    var m := RunEnd(s, p, IsLocalChar);
    var domainRun := RunEnd(s, m + 1, IsDomainChar);
    var (d, t) := EmailAt(s, p).value;
    assert forall k :: m + 1 <= k < d ==> IsDomainChar(s[k]);
  }

  lemma {:induction false} TldEndFinds(s: string, lo: nat, t: nat, e: nat)
    requires t <= |s| && lo <= e <= t && IsBoundary(s, e)
    ensures TldEnd(s, lo, t).Some? && TldEnd(s, lo, t).value >= e
    decreases t
  {
    if t > e && !IsBoundary(s, t) {
      TldEndFinds(s, lo, t - 1, e);
    }
  }

  lemma {:induction false} DomainFromFinds(s: string, a: nat, top: nat, d: nat)
    requires top < |s| && a < d <= top && s[d] == '.' && AfterDot(s, d).Some?
    ensures DomainFrom(s, a, top).Some? && DomainFrom(s, a, top).value.0 >= d
    decreases top
  {
    if top > d && !(s[top] == '.' && AfterDot(s, top).Some?) {
      DomainFromFinds(s, a, top - 1, d);
    }
  }

  /** Wherever an e-mail shape starts, the matcher finds a match at that position. */
  lemma EmailAtComplete(s: string, p: nat, m: nat, d: nat, t: nat)
    requires IsEmail(s, p, m, d, t)
    ensures EmailAt(s, p).Some?
  {
    var run := RunEnd(s, p, IsLocalChar);
    assert run == m;
    var domainRun := RunEnd(s, m + 1, IsDomainChar);
    assert domainRun > d;
    var tldRun := RunEnd(s, d + 1, IsTldChar);
    assert tldRun >= t;
    TldEndFinds(s, d + 3, tldRun, t);
    DomainFromFinds(s, m + 1, domainRun - 1, d);
  }

  /** `re.search` from `p` on: the leftmost start with a match, and the match. */
  function SearchFrom(s: string, p: nat): (r: Option<(nat, nat)>)
    requires p <= |s|
    ensures r.Some? ==> p <= r.value.0 < r.value.1 <= |s| && EmailAt(s, r.value.0).Some?
                        && EmailAt(s, r.value.0).value.1 == r.value.1
    decreases |s| - p
  {
    if EmailAt(s, p).Some? then
      EmailAtIsEmail(s, p);
      Some((p, EmailAt(s, p).value.1))
    else if p == |s| then None
    else SearchFrom(s, p + 1)
  }

  /** `_extract_email`: the text of the leftmost match, or `None`. */
  function FindEmail(text: string): (r: Option<string>) {
    match SearchFrom(text, 0)
    case None => None
    case Some((p, t)) => Some(text[p..t])
  }

  /** Some e-mail shape spans exactly `s[p..t]`. */
  ghost predicate IsEmailSpan(s: string, p: nat, t: nat) {
    exists m: nat, d: nat :: IsEmail(s, p, m, d, t)
  }

  /** No e-mail shape starts at a position in `[lo, hi)`. */
  ghost predicate NoEmailStarts(s: string, lo: nat, hi: nat) {
    forall k: nat, m: nat, d: nat, t: nat :: lo <= k < hi ==> !IsEmail(s, k, m, d, t)
  }

  /**
   * The search returns an e-mail-shaped piece of the text that starts at the
   * leftmost position where any e-mail shape starts, and returns nothing
   * exactly when no piece of the text has the shape.
   */
  lemma {:induction false} SearchFromFacts(s: string, p: nat)
    requires p <= |s|
    ensures SearchFrom(s, p).Some? ==>
      IsEmailSpan(s, SearchFrom(s, p).value.0, SearchFrom(s, p).value.1)
      && NoEmailStarts(s, p, SearchFrom(s, p).value.0)
    ensures SearchFrom(s, p).None? <==> NoEmailStarts(s, p, |s| + 1)
    decreases |s| - p
  {
    forall m: nat, d: nat, e: nat | IsEmail(s, p, m, d, e)
      ensures EmailAt(s, p).Some?
    {
      EmailAtComplete(s, p, m, d, e);
    }
    if EmailAt(s, p).Some? {
      EmailAtIsEmail(s, p);
      var (d, t) := EmailAt(s, p).value;
      assert IsEmail(s, p, RunEnd(s, p, IsLocalChar), d, t);
    } else if p < |s| {
      SearchFromFacts(s, p + 1);
    }
  }

  /**
   * `_extract_email` returns an e-mail-shaped piece of the text, starting where
   * the first e-mail shape starts, and `None` exactly when there is none.
   */
  lemma FindEmailFacts(text: string)
    ensures FindEmail(text).Some? ==>
      exists p: nat, t: nat :: p <= t <= |text| && FindEmail(text).value == text[p..t]
        && IsEmailSpan(text, p, t) && NoEmailStarts(text, 0, p)
    ensures FindEmail(text).None? <==> NoEmailStarts(text, 0, |text| + 1)
  {
    SearchFromFacts(text, 0);
    if SearchFrom(text, 0).Some? {
      var (p, t) := SearchFrom(text, 0).value;
      assert FindEmail(text).value == text[p..t];
    }
  }

  /** `re.findall` of the pattern: every match, scanning on from the end of the previous one. */
  function AllEmails(s: string, p: nat): seq<string>
    requires p <= |s|
    decreases |s| - p
  {
    match SearchFrom(s, p)
    case None => []
    case Some((q, t)) => [s[q..t]] + AllEmails(s, t)
  }

  /** The first element `findall` returns is the match `search` returns. */
  lemma FirstOfAllEmails(text: string)
    ensures AllEmails(text, 0) == [] <==> FindEmail(text).None?
    ensures AllEmails(text, 0) != [] ==> FindEmail(text) == Some(AllEmails(text, 0)[0])
  {
  }
}
