/**
 * The visibility filter of the job list: `_normalize` and
 * `job_matches_filters`. Title, company and location are matched against the
 * include and exclude pattern lists of the settings by a substring test on
 * stripped, lower-cased text; the age cut-off compares the row's creation
 * time with `now`, both in seconds.
 */
module Filtering {
  import opened Wrappers
  import opened Text
  import opened SettingsLayer
  import opened JobsDb

  /** Seconds in `timedelta(days=1)`. */
  const DaySeconds: int := 86400

  /** `_normalize`: None counts as the empty string; the text is stripped
      and lower-cased. */
  function NormalizeValue(v: Option<string>): (r: string)
    ensures |r| <= |v.GetOr("")|
    ensures r != [] ==> !IsSpace(r[0]) && !IsSpace(r[|r| - 1])
    ensures SameIgnoringCase(r, Strip(v.GetOr("")))
    ensures forall i :: 0 <= i < |r| ==> !('A' <= r[i] <= 'Z')
  {
    var s := Strip(v.GetOr(""));
    Lower(s)
  }

  /** The normalized patterns of one list field. */
  function NormalizeAll(patterns: seq<string>): (r: seq<string>)
    ensures |r| == |patterns|
    ensures forall i :: 0 <= i < |patterns| ==> r[i] == NormalizeValue(Some(patterns[i]))
  {
    seq(|patterns|, i requires 0 <= i < |patterns| => NormalizeValue(Some(patterns[i])))
  }

  /** `any(p in value for p in patterns)`. */
  predicate AnyIn(patterns: seq<string>, value: string) {
    patterns != [] && (Contains(value, patterns[0]) || AnyIn(patterns[1..], value))
  }

  /** `any` finds a pattern exactly when one occurs. */
  lemma {:induction false} AnyInExists(patterns: seq<string>, value: string)
    ensures AnyIn(patterns, value) <==> exists i :: 0 <= i < |patterns| && Contains(value, patterns[i])
  {
    if patterns != [] {
      AnyInExists(patterns[1..], value);
      assert forall i :: 1 <= i < |patterns| ==> patterns[i] == patterns[1..][i - 1];
    }
  }

  /** The age check of `job_matches_filters`: reject only when the row is
      more than `maxAgeDays` days old; 0 days, or a missing or unreadable
      timestamp, disables the check. */
  function TooOld(createdAt: Option<int>, maxAgeDays: int, now: int): bool {
    maxAgeDays != 0 && createdAt.Some? && now - createdAt.value > maxAgeDays * DaySeconds
  }

  /** `job_matches_filters`: the include check and then the exclude check of
      title, company and location, each returning early, then the age
      check. */
  function JobMatchesFilters(row: Job, filters: Settings, includeAll: bool, now: int): (r: bool)
    ensures includeAll ==> r
    ensures !includeAll ==> (r <==> PassesAll(row, filters, now))
  {
    if includeAll then true
    else if !Admits(filters.includeTitles, row.title) then false
    else if filters.excludeTitles != [] && Mentions(filters.excludeTitles, row.title) then false
    else if !Admits(filters.includeCompanies, row.company) then false
    else if filters.excludeCompanies != [] && Mentions(filters.excludeCompanies, row.company) then false
    else if !Admits(filters.includeLocations, row.location) then false
    else if filters.excludeLocations != [] && Mentions(filters.excludeLocations, row.location) then false
    else !TooOld(row.createdAt, filters.maxAgeDays, now)
  }

  // ------------------------------------------------- reference definition

  /** Some normalized pattern occurs in the normalized value. */
  predicate Mentions(patterns: seq<string>, value: Option<string>) {
    AnyIn(NormalizeAll(patterns), NormalizeValue(value))
  }

  /** A list mentions a value exactly when one of its patterns, normalized,
      is a substring of the normalized value. */
  lemma MentionsPattern(patterns: seq<string>, value: Option<string>)
    ensures Mentions(patterns, value) <==>
      exists i :: 0 <= i < |patterns| && Contains(NormalizeValue(value), NormalizeValue(Some(patterns[i])))
  {
    var n := NormalizeAll(patterns);
    var v := NormalizeValue(value);
    AnyInExists(n, v);
    if exists i :: 0 <= i < |patterns| && Contains(v, NormalizeValue(Some(patterns[i]))) {
      var i :| 0 <= i < |patterns| && Contains(v, NormalizeValue(Some(patterns[i])));
      assert Contains(v, n[i]);
    }
    if AnyIn(n, v) {
      var i :| 0 <= i < |n| && Contains(v, n[i]);
      assert n[i] == NormalizeValue(Some(patterns[i]));
    }
  }

  /** An include list admits a value when it is empty or mentioned. */
  predicate Admits(patterns: seq<string>, value: Option<string>) {
    patterns == [] || Mentions(patterns, value)
  }

  /** The filter as one conjunction: every include list admits its field, no
      exclude list mentions it, and the row is not too old. */
  predicate PassesAll(row: Job, f: Settings, now: int) {
    && Admits(f.includeTitles, row.title) && !Mentions(f.excludeTitles, row.title)
    && Admits(f.includeCompanies, row.company) && !Mentions(f.excludeCompanies, row.company)
    && Admits(f.includeLocations, row.location) && !Mentions(f.excludeLocations, row.location)
    && !TooOld(row.createdAt, f.maxAgeDays, now)
  }

  // ------------------------------------------------------------- lemmas

  /** With every list empty and the age check off, every row is shown. */
  lemma NoFiltersShowAll(row: Job, f: Settings, now: int)
    requires f.includeTitles == f.excludeTitles == f.includeCompanies == [] && f.excludeCompanies == []
    requires f.includeLocations == f.excludeLocations == [] && f.maxAgeDays == 0
    ensures JobMatchesFilters(row, f, false, now)
  {
  }

  /** An empty list never rejects a row: emptying a list can only let more
      rows through. */
  lemma EmptyListNeverRejects(row: Job, f: Settings, g: Field, now: int)
    requires g != MaxAgeDays
    requires JobMatchesFilters(row, f, false, now)
    ensures JobMatchesFilters(row, f.With(g, Patterns([])), false, now)
  {
  }

  /** A row whose field matches an exclude pattern is rejected, whatever the
      include lists say. */
  lemma ExcludeWins(row: Job, f: Settings, now: int, g: Field, i: nat)
    requires g == ExcludeTitles || g == ExcludeCompanies || g == ExcludeLocations
    requires i < |f.PatternsOf(g)|
    requires Contains(NormalizeValue(FieldOf(row, g)), NormalizeValue(Some(f.PatternsOf(g)[i])))
    ensures !JobMatchesFilters(row, f, false, now)
  {
    MentionsPattern(f.PatternsOf(g), FieldOf(row, g));
  }

  /** The row column an exclude or include list is matched against. */
  function FieldOf(row: Job, g: Field): Option<string> {
    match g
    case IncludeTitles => row.title
    case ExcludeTitles => row.title
    case IncludeCompanies => row.company
    case ExcludeCompanies => row.company
    case IncludeLocations => row.location
    case ExcludeLocations => row.location
    case MaxAgeDays => None
  }

  /** A missing value is matched as the empty string. */
  lemma MissingIsEmpty()
    ensures NormalizeValue(None) == NormalizeValue(Some("")) == ""
  {
  }

  /** Whitespace around a value and the case of its letters do not matter
      to `_normalize`. */
  lemma NormalizeIgnoresCaseAndPadding(pre: string, s: string, t: string, post: string)
    requires AllSpace(pre) && AllSpace(post) && SameIgnoringCase(s, t)
    ensures NormalizeValue(Some(pre + s + post)) == NormalizeValue(Some(t))
  {
    StripPadding(pre, s, post);
    LowerStrip(s);
    LowerStrip(t);
    assert Lower(s) == Lower(t);
  }

  /** The filter sees a row only through its normalized fields and its
      creation time, and the settings only through their normalized
      patterns and the age threshold. */
  lemma FilterSeesOnlyNormalized(a: Job, b: Job, f: Settings, g: Settings, includeAll: bool, now: int)
    requires NormalizeValue(a.title) == NormalizeValue(b.title)
    requires NormalizeValue(a.company) == NormalizeValue(b.company)
    requires NormalizeValue(a.location) == NormalizeValue(b.location)
    requires a.createdAt == b.createdAt
    requires NormalizeAll(f.includeTitles) == NormalizeAll(g.includeTitles)
    requires NormalizeAll(f.excludeTitles) == NormalizeAll(g.excludeTitles)
    requires NormalizeAll(f.includeCompanies) == NormalizeAll(g.includeCompanies)
    requires NormalizeAll(f.excludeCompanies) == NormalizeAll(g.excludeCompanies)
    requires NormalizeAll(f.includeLocations) == NormalizeAll(g.includeLocations)
    requires NormalizeAll(f.excludeLocations) == NormalizeAll(g.excludeLocations)
    requires f.maxAgeDays == g.maxAgeDays
    ensures JobMatchesFilters(a, f, includeAll, now) == JobMatchesFilters(b, g, includeAll, now)
  {
  }

  /** Padding a title with whitespace or changing its case never changes
      whether the row is shown. */
  lemma TitleCaseAndPadding(row: Job, f: Settings, includeAll: bool, now: int,
                            pre: string, s: string, t: string, post: string)
    requires AllSpace(pre) && AllSpace(post) && SameIgnoringCase(s, t)
    ensures JobMatchesFilters(row.(title := Some(pre + s + post)), f, includeAll, now)
         == JobMatchesFilters(row.(title := Some(t)), f, includeAll, now)
  {
    NormalizeIgnoresCaseAndPadding(pre, s, t, post);
    FilterSeesOnlyNormalized(row.(title := Some(pre + s + post)), row.(title := Some(t)), f, f, includeAll, now);
  }

  /** Padding a pattern with whitespace or changing its case never changes
      whether a row is shown. */
  lemma PatternCaseAndPadding(row: Job, f: Settings, g: Field, k: nat, includeAll: bool, now: int,
                              pre: string, t: string, post: string)
    requires g != MaxAgeDays && k < |f.PatternsOf(g)|
    requires AllSpace(pre) && AllSpace(post) && SameIgnoringCase(f.PatternsOf(g)[k], t)
    ensures var ps := f.PatternsOf(g);
      JobMatchesFilters(row, f.With(g, Patterns(ps[k := pre + t + post])), includeAll, now)
      == JobMatchesFilters(row, f, includeAll, now)
  {
    var ps := f.PatternsOf(g);
    var f2 := f.With(g, Patterns(ps[k := pre + t + post]));
    NormalizeIgnoresCaseAndPadding(pre, t, ps[k], post);
    assert SameIgnoringCase(t, ps[k]);
    assert NormalizeAll(ps[k := pre + t + post]) == NormalizeAll(ps);
    SameNormalizedLists(f, g, ps[k := pre + t + post]);
    FilterSeesOnlyNormalized(row, row, f2, f, includeAll, now);
  }

  /** Replacing a list by one with the same normalized patterns leaves every
      list of the settings the same after normalizing. */
  lemma SameNormalizedLists(f: Settings, g: Field, qs: seq<string>)
    requires g != MaxAgeDays && NormalizeAll(qs) == NormalizeAll(f.PatternsOf(g))
    ensures var f2 := f.With(g, Patterns(qs));
      && NormalizeAll(f2.includeTitles) == NormalizeAll(f.includeTitles)
      && NormalizeAll(f2.excludeTitles) == NormalizeAll(f.excludeTitles)
      && NormalizeAll(f2.includeCompanies) == NormalizeAll(f.includeCompanies)
      && NormalizeAll(f2.excludeCompanies) == NormalizeAll(f.excludeCompanies)
      && NormalizeAll(f2.includeLocations) == NormalizeAll(f.includeLocations)
      && NormalizeAll(f2.excludeLocations) == NormalizeAll(f.excludeLocations)
      && f2.maxAgeDays == f.maxAgeDays
  {
  }

  /** A row exactly `maxAgeDays` days old passes the age check; one second
      older fails it, unless the check is off (0 days). */
  lemma AgeBoundary(maxAgeDays: int, now: int)
    ensures !TooOld(Some(now - maxAgeDays * DaySeconds), maxAgeDays, now)
    ensures maxAgeDays != 0 ==> TooOld(Some(now - maxAgeDays * DaySeconds - 1), maxAgeDays, now)
    ensures maxAgeDays == 0 ==> forall t :: !TooOld(Some(t), maxAgeDays, now)
  {
  }

  /** So a row that passes every other check is shown at exactly
      `maxAgeDays` days old and hidden one second later. */
  lemma AgeBoundaryShown(row: Job, f: Settings, now: int)
    requires f.maxAgeDays != 0
    requires PassesAll(row.(createdAt := None), f, now)
    ensures JobMatchesFilters(row.(createdAt := Some(now - f.maxAgeDays * DaySeconds)), f, false, now)
    ensures !JobMatchesFilters(row.(createdAt := Some(now - f.maxAgeDays * DaySeconds - 1)), f, false, now)
  {
    AgeBoundary(f.maxAgeDays, now);
  }

  /** A row without a readable creation time is never rejected for its
      age. */
  lemma MissingTimestampNeverTooOld(maxAgeDays: int, now: int)
    ensures !TooOld(None, maxAgeDays, now)
  {
  }
}
