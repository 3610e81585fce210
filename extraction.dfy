/**
 * Turning a job-alert e-mail into job postings: the subject test that picks
 * alert mails, the domain whitelist that picks job links, the title/company
 * split of the link text, the location heuristic over the text around the
 * link, and the loop that collects one posting per job link.
 *
 * The HTML document is given already parsed, as the sequence of its `<a>`
 * elements in document order.
 */
module EmailParsing {
  import opened Wrappers
  import opened Text

  /** One `<a>` element: its `href` attribute (None when it has none), its
      text as `get_text(" ", strip=True)` returns it, and the text nodes under
      its parent element (None when the anchor has no parent). */
  datatype Anchor = Anchor(href: Option<string>, text: string, parent: Option<seq<string>>)

  /** One job found in an alert mail, before it is stored. */
  datatype Posting = Posting(
    title: Option<string>,
    company: Option<string>,
    location: Option<string>,
    link: string,
    source: string)

  // ------------------------------------------------------------ alert subject

  /** The subject fragments that mark a LinkedIn job alert. */
  const SubjectPatterns: seq<string> := ["LinkedIn Job Alert", "Jobs you may be interested in", "New jobs for"]

  /** Whether `subject` contains one of `patterns`, both lower-cased. */
  function MentionsAny(subject: string, patterns: seq<string>): (r: bool)
    ensures r <==> exists i :: 0 <= i < |patterns| && Contains(Lower(subject), Lower(patterns[i]))
  {
    if patterns == [] then false
    else Contains(Lower(subject), Lower(patterns[0])) || MentionsAny(subject, patterns[1..])
  }

  /** `_is_job_alert_subject`: a case-insensitive search for any alert
      pattern in the subject. */
  predicate IsJobAlertSubject(subject: string) {
    MentionsAny(subject, SubjectPatterns)
  }

  lemma ContainsSplice(pre: string, p: string, post: string)
    ensures Contains(pre + p + post, p)
  {
    assert (pre + p + post)[|pre|..|pre| + |p|] == p;
    assert OccursAt(pre + p + post, p, |pre|);
  }

  lemma {:induction false} LowerAppend(a: string, b: string)
    ensures Lower(a + b) == Lower(a) + Lower(b)
  {
    assert forall i :: 0 <= i < |a + b| ==> Lower(a + b)[i] == (Lower(a) + Lower(b))[i];
  }

  /** Any subject that contains an alert pattern, in any letter case and with
      any text around it, is an alert subject. */
  lemma AlertPatternAnywhere(pre: string, p: string, post: string, i: nat)
    requires i < |SubjectPatterns| && SameIgnoringCase(p, SubjectPatterns[i])
    ensures IsJobAlertSubject(pre + p + post)
  {
    LowerAppend(pre + p, post);
    LowerAppend(pre, p);
    assert Lower(p) == Lower(SubjectPatterns[i]);
    ContainsSplice(Lower(pre), Lower(p), Lower(post));
  }

  /** The subject test ignores letter case. */
  lemma AlertSubjectIgnoresCase(a: string, b: string)
    requires SameIgnoringCase(a, b)
    ensures IsJobAlertSubject(a) == IsJobAlertSubject(b)
  {
    assert Lower(a) == Lower(b);
  }

  // ---------------------------------------------------------------- job links

  /** The application-tracking domains accepted besides LinkedIn job pages. */
  const ApplyDomains: seq<string> := ["lever.co", "greenhouse.io", "workable.com", "ashbyhq.com"]

  const LinkedInJobs: string := "linkedin.com/jobs"

  /** Whether some domain of `domains` occurs in `href` (case-sensitive). */
  function HasAnyDomain(href: string, domains: seq<string>): (r: bool)
    ensures r <==> exists i :: 0 <= i < |domains| && Contains(href, domains[i])
  {
    if domains == [] then false
    else Contains(href, domains[0]) || HasAnyDomain(href, domains[1..])
  }

  /** The whitelist test of `parse_email_payload_to_jobs`. */
  predicate IsJobLink(href: string) {
    Contains(href, LinkedInJobs) || HasAnyDomain(href, ApplyDomains)
  }

  /** `href.split("?")[0]`: the link up to its first `?`. */
  function StripQuery(href: string): (r: string)
    ensures '?' !in r && r <= href
    ensures '?' !in href ==> r == href
    ensures '?' in href ==> |r| < |href| && href[|r|] == '?'
  {
    SplitOn(href, '?')[0]
  }

  /** Stripping the query twice is stripping it once. */
  lemma StripQueryIdempotent(href: string)
    ensures StripQuery(StripQuery(href)) == StripQuery(href)
  {
  }

  // ------------------------------------------------------- title and company

  const AtSeparator: string := " at "

  /** `x or None` for a string. */
  function NonEmpty(s: string): (r: Option<string>)
    ensures r.None? <==> s == []
    ensures r.Some? ==> r.value == s
  {
    if s == [] then None else Some(s)
  }

  /** `_guess_title_company_from_anchor`: split the link text at its first
      " at " into a stripped title and company, an empty part becoming None;
      text without " at " is all title. */
  function TitleAndCompany(text: string): (r: (Option<string>, Option<string>))
    ensures !Contains(text, AtSeparator) ==> r == (NonEmpty(text), None)
    ensures Contains(text, AtSeparator) ==>
      exists i :: IsFirstAt(text, i)
        && r == (NonEmpty(Strip(text[..i])), NonEmpty(Strip(text[i + |AtSeparator|..])))
  {
    match IndexOf(text, AtSeparator)
    case None => (NonEmpty(text), None)
    case Some(i) =>
      assert IsFirstAt(text, i);
      (NonEmpty(Strip(text[..i])), NonEmpty(Strip(text[i + |AtSeparator|..])))
  }

  /** `i` is where the first " at " of `text` starts. */
  predicate IsFirstAt(text: string, i: int) {
    OccursAt(text, AtSeparator, i) && forall j :: 0 <= j < i ==> !OccursAt(text, AtSeparator, j)
  }

  /** A stripped, non-empty string. */
  predicate Trimmed(s: string) {
    s != [] && Strip(s) == s
  }

  /** No " at " of `t + " at " + c` starts inside `t` when `t` has none of
      its own, does not end in whitespace and does not end in " at". */
  lemma NoAtInsideTitle(t: string, c: string, j: int)
    requires Trimmed(t) && !Contains(t, AtSeparator) && !EndsWith(t, " at")
    requires 0 <= j < |t|
    ensures !OccursAt(t + AtSeparator + c, AtSeparator, j)
  {
    var text := t + AtSeparator + c;
    if j + 4 <= |t| {
      assert text[j..j + 4] == t[j..j + 4];
      assert !OccursAt(t, AtSeparator, j);
    } else if j == |t| - 1 {
      assert text[j] == t[|t| - 1];
      assert !IsSpace(Strip(t)[|Strip(t)| - 1]);
      assert text[j..j + 4][0] == text[j];
    } else if j == |t| - 2 {
      assert text[j + 2] == ' ';
      assert text[j..j + 4][2] == text[j + 2];
    } else {
      assert text[j..j + 3] == t[|t| - 3..];
      assert text[j..j + 4][..3] == text[j..j + 3];
    }
  }

  /** The first " at " of `t + " at " + c` is the one between them. */
  lemma FirstAtIsSeparator(t: string, c: string)
    requires Trimmed(t) && !Contains(t, AtSeparator) && !EndsWith(t, " at")
    ensures IndexOf(t + AtSeparator + c, AtSeparator) == Some(|t|)
  {
    var text := t + AtSeparator + c;
    assert OccursAt(text, AtSeparator, |t|) by {
      assert text[|t|..|t| + 4] == AtSeparator;
    }
    forall j | 0 <= j < |t|
      ensures !OccursAt(text, AtSeparator, j)
    {
      NoAtInsideTitle(t, c, j);
    }
  }

  /** Link text "Title at Company" gives back the title and the company. */
  lemma TitleAtCompany(t: string, c: string)
    requires Trimmed(t) && !Contains(t, AtSeparator) && !EndsWith(t, " at")
    requires Trimmed(c)
    ensures TitleAndCompany(t + AtSeparator + c) == (Some(t), Some(c))
  {
    var text := t + AtSeparator + c;
    FirstAtIsSeparator(t, c);
    assert text[..|t|] == t;
    assert text[|t| + |AtSeparator|..] == c;
  }

  // ----------------------------------------------------------------- location

  /** The separators whose presence marks text as a location. */
  const LocationSeparators: seq<string> := [",", " - ", " · ", "•"]

  /** Whether a text node of the parent looks like a location: non-blank,
      holding a separator, at most ten words once stripped, and not starting
      with "apply" in any letter case. */
  predicate LooksLikeLocation(candidate: string) {
    IsLocationText(Strip(candidate))
  }

  /** Whether one of the location separators starts at the head of `text`. */
  predicate SeparatorFirst(text: string) {
    exists k :: 0 <= k < |LocationSeparators| && StartsWith(text, LocationSeparators[k])
  }

  /** Whether the text holds one of the location separators, scanning it
      from the front. */
  predicate HasSeparator(text: string) {
    text != [] && (SeparatorFirst(text) || HasSeparator(text[1..]))
  }

  /** The scan finds a separator exactly when one occurs in the text. */
  lemma {:induction false} HasSeparatorContains(text: string)
    ensures HasSeparator(text) <==>
      exists k :: 0 <= k < |LocationSeparators| && Contains(text, LocationSeparators[k])
  {
    if text != [] {
      HasSeparatorContains(text[1..]);
      forall k | 0 <= k < |LocationSeparators|
        ensures Contains(text, LocationSeparators[k]) <==>
          StartsWith(text, LocationSeparators[k]) || Contains(text[1..], LocationSeparators[k])
      {
        ContainsStep(text, LocationSeparators[k]);
      }
    } else {
      forall k | 0 <= k < |LocationSeparators|
        ensures !Contains(text, LocationSeparators[k])
      {
        assert |LocationSeparators[k]| > 0;
      }
    }
  }

  /** `p` occurs in a non-empty `s` at its head or in its tail. */
  lemma ContainsStep(s: string, p: string)
    requires s != [] && p != []
    ensures Contains(s, p) <==> StartsWith(s, p) || Contains(s[1..], p)
  {
    if Contains(s, p) {
      var i :| 0 <= i <= |s| && OccursAt(s, p, i);
      if i > 0 {
        assert s[1..][i - 1..i - 1 + |p|] == s[i..i + |p|];
        assert OccursAt(s[1..], p, i - 1);
      }
    }
    if Contains(s[1..], p) {
      var i :| 0 <= i <= |s[1..]| && OccursAt(s[1..], p, i);
      assert s[i + 1..i + 1 + |p|] == s[1..][i..i + |p|];
      assert OccursAt(s, p, i + 1);
    }
    if StartsWith(s, p) {
      assert OccursAt(s, p, 0);
    }
  }

  /** The test on the stripped text node. */
  predicate IsLocationText(text: string) {
    && text != []
    && HasSeparator(text)
    && WordCount(text) <= 10
    && !StartsWith(Lower(text), "apply")
  }

  /** The stripped first text node that looks like a location. */
  function FirstLocation(candidates: seq<string>): (r: Option<string>)
    ensures r.None? <==> forall i :: 0 <= i < |candidates| ==> !LooksLikeLocation(candidates[i])
    ensures r.Some? ==> IsLocationText(r.value)
  {
    if candidates == [] then None
    else if LooksLikeLocation(candidates[0]) then Some(Strip(candidates[0]))
    else FirstLocation(candidates[1..])
  }

  /** The location found is the stripped first text node that qualifies. */
  lemma {:induction false} FirstLocationIsFirst(candidates: seq<string>, i: nat)
    requires i < |candidates| && LooksLikeLocation(candidates[i])
    requires forall j :: 0 <= j < i ==> !LooksLikeLocation(candidates[j])
    ensures FirstLocation(candidates) == Some(Strip(candidates[i]))
  {
    if i > 0 {
      var rest := candidates[1..];
      assert rest[i - 1] == candidates[i];
      assert forall j :: 0 <= j < i - 1 ==> !LooksLikeLocation(rest[j]) by {
        forall j | 0 <= j < i - 1
          ensures !LooksLikeLocation(rest[j])
        {
          assert rest[j] == candidates[j + 1];
        }
      }
      FirstLocationIsFirst(rest, i - 1);
    }
  }

  /** What `_guess_location` returns for an anchor with these parent texts. */
  function LocationOf(parent: Option<seq<string>>): Option<string> {
    match parent
    case None => None
    case Some(texts) => FirstLocation(texts)
  }

  /** `_guess_location`: scan the parent's text nodes in order and return the
      first that looks like a location, stripped. */
  method GuessLocation(parent: Option<seq<string>>) returns (location: Option<string>)
    ensures location == LocationOf(parent)
  {
    if parent.None? {
      return None;
    }
    var texts := parent.value;
    var i := 0;
    while i < |texts|
      invariant 0 <= i <= |texts|
      invariant FirstLocation(texts) == FirstLocation(texts[i..])
    {
      if LooksLikeLocation(texts[i]) {
        return Some(Strip(texts[i]));
      }
      assert texts[i + 1..] == texts[i..][1..];
      i := i + 1;
    }
    return None;
  }

  // --------------------------------------------------------------- extraction

  /** The posting built from a job link. */
  function ToPosting(a: Anchor, source: string): Posting
    requires a.href.Some?
  {
    var (title, company) := TitleAndCompany(a.text);
    Posting(title, company, LocationOf(a.parent), StripQuery(a.href.value), source)
  }

  /** An anchor `parse_email_payload_to_jobs` turns into a posting. */
  predicate IsJobAnchor(a: Anchor) {
    a.href.Some? && IsJobLink(a.href.value)
  }

  /** The postings of `parse_email_payload_to_jobs`: one per job link, in
      document order. */
  function Extracted(anchors: seq<Anchor>, source: string): (r: seq<Posting>)
    ensures |r| <= |anchors|
    ensures forall k :: 0 <= k < |r| ==> '?' !in r[k].link && r[k].source == source
  {
    if anchors == [] then []
    else
      var last := anchors[|anchors| - 1];
      var init := Extracted(anchors[..|anchors| - 1], source);
      if IsJobAnchor(last) then init + [ToPosting(last, source)] else init
  }

  /** Extraction of a concatenated document is the concatenation of the
      extractions. */
  lemma {:induction false} ExtractedAppend(a: seq<Anchor>, b: seq<Anchor>, source: string)
    ensures Extracted(a + b, source) == Extracted(a, source) + Extracted(b, source)
  {
    if b == [] {
      assert a + b == a;
    } else {
      var n := |b|;
      assert (a + b)[..|a + b| - 1] == a + b[..n - 1];
      ExtractedAppend(a, b[..n - 1], source);
    }
  }

  /** One anchor yields one posting when it is a job link and none otherwise. */
  lemma ExtractedSingle(a: Anchor, source: string)
    ensures Extracted([a], source) == if IsJobAnchor(a) then [ToPosting(a, source)] else []
  {
    assert [a][..0] == [];
  }

  /** The number of job links among the anchors. */
  function JobAnchorCount(anchors: seq<Anchor>): nat {
    if anchors == [] then 0
    else (if IsJobAnchor(anchors[0]) then 1 else 0) + JobAnchorCount(anchors[1..])
  }

  /** There is exactly one posting per job link. */
  lemma {:induction false} ExtractedCount(anchors: seq<Anchor>, source: string)
    ensures |Extracted(anchors, source)| == JobAnchorCount(anchors)
  {
    if anchors != [] {
      ExtractedCount(anchors[1..], source);
      ExtractedAppend([anchors[0]], anchors[1..], source);
      ExtractedSingle(anchors[0], source);
      assert [anchors[0]] + anchors[1..] == anchors;
    }
  }

  /** Anchors without an `href` or outside the whitelist add nothing. */
  lemma SkippedAnchor(before: seq<Anchor>, a: Anchor, after: seq<Anchor>, source: string)
    requires !IsJobAnchor(a)
    ensures Extracted(before + [a] + after, source) == Extracted(before + after, source)
  {
    ExtractedAppend(before + [a], after, source);
    ExtractedAppend(before, [a], source);
    ExtractedSingle(a, source);
    ExtractedAppend(before, after, source);
  }

  /** `parse_email_payload_to_jobs`: append a posting for every job link. */
  method ParseEmailPayload(anchors: seq<Anchor>, source: string) returns (jobs: seq<Posting>)
    ensures jobs == Extracted(anchors, source)
  {
    jobs := [];
    var i := 0;
    while i < |anchors|
      invariant 0 <= i <= |anchors|
      invariant jobs == Extracted(anchors[..i], source)
    {
      var a := anchors[i];
      assert anchors[..i + 1][..i] == anchors[..i];
      if a.href.Some? && IsJobLink(a.href.value) {
        var (title, company) := TitleAndCompany(a.text);
        var location := GuessLocation(a.parent);
        jobs := jobs + [Posting(title, company, location, StripQuery(a.href.value), source)];
      }
      i := i + 1;
    }
    assert anchors[..i] == anchors;
  }
}
