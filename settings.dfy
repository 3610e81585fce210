/**
 * The settings layer of jobs_cli.py: the filter settings record, how
 * `load_settings` merges a decoded settings.json over DEFAULT_SETTINGS and
 * normalizes it, the document `save_settings` writes, and the decisions of
 * the `settings add`, `settings remove` and `settings set` commands.
 *
 * Reading and writing the file is left to the caller: `LoadSettings` takes the
 * decoded JSON value (the empty object when the file is missing or is not
 * valid JSON), and a command's `Saved` outcome is what gets written.
 */
module SettingsLayer {
  import opened Wrappers
  import opened Text

  /** A value decoded by `json.loads`. Numbers with a fraction or an exponent
      are not modelled. A `JObject` holds the items of the dict that
      `json.loads` builds, one member per key. */
  datatype Json =
    | JNull
    | JBool(b: bool)
    | JInt(i: int)
    | JString(s: string)
    | JArray(items: seq<Json>)
    | JObject(members: seq<(string, Json)>)

  /** The keys of DEFAULT_SETTINGS. */
  datatype Field =
    | IncludeTitles | ExcludeTitles
    | IncludeCompanies | ExcludeCompanies
    | IncludeLocations | ExcludeLocations
    | MaxAgeDays

  /** DEFAULT_SETTINGS' keys in the dict's order. */
  const Fields: seq<Field> :=
    [IncludeTitles, ExcludeTitles, IncludeCompanies, ExcludeCompanies,
     IncludeLocations, ExcludeLocations, MaxAgeDays]

  const DefaultMaxAgeDays: int := 30

  function Name(f: Field): string {
    match f
    case IncludeTitles => "include_titles"
    case ExcludeTitles => "exclude_titles"
    case IncludeCompanies => "include_companies"
    case ExcludeCompanies => "exclude_companies"
    case IncludeLocations => "include_locations"
    case ExcludeLocations => "exclude_locations"
    case MaxAgeDays => "max_age_days"
  }

  /** `field in DEFAULT_SETTINGS`, answering which field it is. */
  function FieldNamed(name: string): (r: Option<Field>)
    ensures r.Some? ==> Name(r.value) == name
    ensures r.None? ==> forall f: Field :: Name(f) != name
  {
    if name == "include_titles" then Some(IncludeTitles)
    else if name == "exclude_titles" then Some(ExcludeTitles)
    else if name == "include_companies" then Some(IncludeCompanies)
    else if name == "exclude_companies" then Some(ExcludeCompanies)
    else if name == "include_locations" then Some(IncludeLocations)
    else if name == "exclude_locations" then Some(ExcludeLocations)
    else if name == "max_age_days" then Some(MaxAgeDays)
    else None
  }

  /** The suffix test `load_settings` uses to find the list fields. */
  predicate IsListKey(key: string) {
    EndsWith(key, "titles") || EndsWith(key, "companies") || EndsWith(key, "locations")
  }

  /** The suffix test picks out exactly the six pattern-list fields. */
  lemma ListKeysAreListFields(f: Field)
    ensures IsListKey(Name(f)) <==> f != MaxAgeDays
    ensures f in Fields
  {
    if f == MaxAgeDays {
      MaxAgeDaysIsNoListKey();
    } else {
      ListFieldsAreListKeys(f);
    }
    assert Fields[0] == IncludeTitles && Fields[6] == MaxAgeDays;
  }

  lemma ListFieldsAreListKeys(f: Field)
    requires f != MaxAgeDays
    ensures IsListKey(Name(f))
  {
    if f == IncludeTitles || f == ExcludeTitles {
      TitleKeys();
    } else if f == IncludeCompanies || f == ExcludeCompanies {
      CompanyKeys();
    } else {
      LocationKeys();
    }
  }

  lemma TitleKeys()
    ensures EndsWith(Name(IncludeTitles), "titles") && EndsWith(Name(ExcludeTitles), "titles")
  {
    assert Name(IncludeTitles)[8..] == "titles";
    assert Name(ExcludeTitles)[8..] == "titles";
  }

  lemma CompanyKeys()
    ensures EndsWith(Name(IncludeCompanies), "companies") && EndsWith(Name(ExcludeCompanies), "companies")
  {
    assert Name(IncludeCompanies)[8..] == "companies";
    assert Name(ExcludeCompanies)[8..] == "companies";
  }

  lemma LocationKeys()
    ensures EndsWith(Name(IncludeLocations), "locations") && EndsWith(Name(ExcludeLocations), "locations")
  {
    assert Name(IncludeLocations)[8..] == "locations";
    assert Name(ExcludeLocations)[8..] == "locations";
  }

  lemma MaxAgeDaysIsNoListKey()
    ensures !IsListKey(Name(MaxAgeDays))
  {
    var n := Name(MaxAgeDays);
    assert n[6..][0] == 'e' && n[3..][0] == '_';
  }

  /** The value of one field: a pattern list or the age threshold. */
  datatype Value = Patterns(patterns: seq<string>) | Days(days: int)

  /** The settings dict after `load_settings`: six pattern lists and the age
      threshold in days (0 switches the age check off). */
  datatype Settings = Settings(
    includeTitles: seq<string>, excludeTitles: seq<string>,
    includeCompanies: seq<string>, excludeCompanies: seq<string>,
    includeLocations: seq<string>, excludeLocations: seq<string>,
    maxAgeDays: int)
  {
    /** `settings[field]` */
    function Get(f: Field): Value {
      match f
      case IncludeTitles => Patterns(includeTitles)
      case ExcludeTitles => Patterns(excludeTitles)
      case IncludeCompanies => Patterns(includeCompanies)
      case ExcludeCompanies => Patterns(excludeCompanies)
      case IncludeLocations => Patterns(includeLocations)
      case ExcludeLocations => Patterns(excludeLocations)
      case MaxAgeDays => Days(maxAgeDays)
    }

    /** `settings[field] = v` */
    function With(f: Field, v: Value): (r: Settings)
      requires v.Days? <==> f == MaxAgeDays
      ensures r.Get(f) == v
      ensures forall g :: g != f ==> r.Get(g) == Get(g)
    {
      match f
      case IncludeTitles => this.(includeTitles := v.patterns)
      case ExcludeTitles => this.(excludeTitles := v.patterns)
      case IncludeCompanies => this.(includeCompanies := v.patterns)
      case ExcludeCompanies => this.(excludeCompanies := v.patterns)
      case IncludeLocations => this.(includeLocations := v.patterns)
      case ExcludeLocations => this.(excludeLocations := v.patterns)
      case MaxAgeDays => this.(maxAgeDays := v.days)
    }

    /** The pattern list of a list field. */
    function PatternsOf(f: Field): seq<string>
      requires f != MaxAgeDays
    {
      Get(f).patterns
    }
  }

  /** Two settings records with the same value in every field are equal. */
  lemma SettingsExt(a: Settings, b: Settings)
    requires forall f: Field :: a.Get(f) == b.Get(f)
    ensures a == b
  {
    assert a.Get(IncludeTitles) == b.Get(IncludeTitles);
    assert a.Get(ExcludeTitles) == b.Get(ExcludeTitles);
    assert a.Get(IncludeCompanies) == b.Get(IncludeCompanies);
    assert a.Get(ExcludeCompanies) == b.Get(ExcludeCompanies);
    assert a.Get(IncludeLocations) == b.Get(IncludeLocations);
    assert a.Get(ExcludeLocations) == b.Get(ExcludeLocations);
    assert a.Get(MaxAgeDays) == b.Get(MaxAgeDays);
  }

  /** DEFAULT_SETTINGS: no patterns, and jobs older than 30 days hidden. */
  const Defaults: Settings := Settings([], [], [], [], [], [], DefaultMaxAgeDays)

  /** DEFAULT_SETTINGS as the JSON values `load_settings` starts from. */
  function DefaultJson(f: Field): Json {
    if f == MaxAgeDays then JInt(DefaultMaxAgeDays) else JArray([])
  }

  const DefaultDoc: map<string, Json> := map[
    "include_titles" := JArray([]), "exclude_titles" := JArray([]),
    "include_companies" := JArray([]), "exclude_companies" := JArray([]),
    "include_locations" := JArray([]), "exclude_locations" := JArray([]),
    "max_age_days" := JInt(DefaultMaxAgeDays)]

  lemma DefaultDocFields()
    ensures forall f: Field :: Name(f) in DefaultDoc && DefaultDoc[Name(f)] == DefaultJson(f)
    ensures forall k :: k in DefaultDoc ==> FieldNamed(k).Some?
  {
    forall f: Field ensures Name(f) in DefaultDoc && DefaultDoc[Name(f)] == DefaultJson(f) {
      match f
      case IncludeTitles =>
      case ExcludeTitles =>
      case IncludeCompanies =>
      case ExcludeCompanies =>
      case IncludeLocations =>
      case ExcludeLocations =>
      case MaxAgeDays =>
    }
  }

  // ---------------------------------------------------------------- merging

  /** The value the last member named `key` carries: a dict assignment in a
      loop keeps the last one. */
  function LastValue(members: seq<(string, Json)>, key: string): (r: Option<Json>)
    ensures r.None? <==> forall i :: 0 <= i < |members| ==> members[i].0 != key
  {
    if members == [] then None
    else if members[|members| - 1].0 == key then Some(members[|members| - 1].1)
    else LastValue(members[..|members| - 1], key)
  }

  /** The `merged` dict after the first loop of `load_settings`: every key of
      DEFAULT_SETTINGS, with the file's value where the file has that key. */
  function Merged(members: seq<(string, Json)>): (m: map<string, Json>)
    ensures m.Keys == DefaultDoc.Keys
  {
    map k | k in DefaultDoc :: LastValue(members, k).GetOr(DefaultDoc[k])
  }

  /** A dict holding every key of DEFAULT_SETTINGS. */
  predicate HasAllFields(m: map<string, Json>) {
    forall f: Field :: Name(f) in m
  }

  // ---------------------------------------------------------- normalization

  /** What `for v in value` iterates over: a list's items, a string's
      characters, a dict's keys; iterating null, a boolean or a number raises
      TypeError (None here). */
  function Elements(v: Json): Option<seq<Json>> {
    match v
    case JArray(items) => Some(items)
    case JString(s) => Some(seq(|s|, i requires 0 <= i < |s| => JString([s[i]])))
    case JObject(ms) =>
      Some(Strings(DictKeys(ms)))
    case _ => None
  }

  /** Where key `k` first occurs among the members, or `|ms|` when it does
      not occur. */
  function FirstKeyAt(ms: seq<(string, Json)>, k: string): (r: nat)
    ensures r <= |ms|
    ensures r < |ms| ==> ms[r].0 == k
    ensures forall i :: 0 <= i < r ==> ms[i].0 != k
  {
    if ms == [] then 0
    else
      var init := ms[..|ms| - 1];
      var p := FirstKeyAt(init, k);
      assert forall i :: 0 <= i < |init| ==> init[i] == ms[i];
      if p < |init| then p
      else if ms[|ms| - 1].0 == k then |init|
      else |ms|
  }

  /** The keys of the dict `json.loads` builds from an object's members:
      each key once, in the order of its first occurrence
      (`DictKeysOrder`). */
  function DictKeys(ms: seq<(string, Json)>): (r: seq<string>)
    ensures forall k :: k in r <==> exists i :: 0 <= i < |ms| && ms[i].0 == k
    ensures Distinct(r)
  {
    if ms == [] then []
    else
      var init := ms[..|ms| - 1];
      var rest := DictKeys(init);
      var k := ms[|ms| - 1].0;
      assert forall i :: 0 <= i < |init| ==> init[i] == ms[i];
      if k in rest then rest else rest + [k]
  }

  /** `keys` come in the order of their first occurrence among `ms`. */
  predicate InFirstOccurrenceOrder(ms: seq<(string, Json)>, keys: seq<string>) {
    forall i, j :: 0 <= i < j < |keys| ==> FirstKeyAt(ms, keys[i]) < FirstKeyAt(ms, keys[j]) < |ms|
  }

  /** The dict's keys come in the order of their first occurrence among
      the members. */
  lemma {:induction false} DictKeysOrder(ms: seq<(string, Json)>)
    ensures InFirstOccurrenceOrder(ms, DictKeys(ms))
  {
    if ms != [] {
      var init := ms[..|ms| - 1];
      var last := ms[|ms| - 1];
      assert ms == init + [last];
      DictKeysOrder(init);
      KeyOrderStep(init, last, DictKeys(init));
    }
  }

  /** Appending the last member's key when it is new keeps the keys in
      first-occurrence order: the older keys keep their first positions,
      which all lie before the last member. */
  lemma KeyOrderStep(init: seq<(string, Json)>, last: (string, Json), rest: seq<string>)
    requires forall q :: q in rest <==> exists i :: 0 <= i < |init| && init[i].0 == q
    requires InFirstOccurrenceOrder(init, rest)
    ensures InFirstOccurrenceOrder(init + [last], if last.0 in rest then rest else rest + [last.0])
  {
    forall q | q in rest
      ensures FirstKeyAt(init + [last], q) == FirstKeyAt(init, q) < |init|
    {
      var p :| 0 <= p < |init| && init[p].0 == q;
      OlderKeyKept(init, last, q, p);
    }
    if last.0 !in rest {
      NewKeyLast(init, last);
    }
  }

  lemma OlderKeyKept(init: seq<(string, Json)>, last: (string, Json), q: string, p: nat)
    requires p < |init| && init[p].0 == q
    ensures FirstKeyAt(init + [last], q) == FirstKeyAt(init, q) < |init|
  {
    assert (init + [last])[..|init|] == init;
    assert FirstKeyAt(init, q) <= p;
  }

  lemma NewKeyLast(init: seq<(string, Json)>, last: (string, Json))
    requires forall p :: 0 <= p < |init| ==> init[p].0 != last.0
    ensures FirstKeyAt(init + [last], last.0) == |init|
  {
    assert (init + [last])[..|init|] == init;
  }

  /** Each key of an object, repeated or not, is iterated once: reading a
      list field from an object gives its non-blank keys, each once, and
      when no key is blank they come in the order of their first
      occurrence. */
  lemma DuplicateKeyIteratedOnce(ms: seq<(string, Json)>)
    ensures ListFrom(JObject(ms)).Success?
    ensures var r := ListFrom(JObject(ms)).value;
      && Distinct(r)
      && (forall k :: k in r <==> !IsBlank(k) && exists i :: 0 <= i < |ms| && ms[i].0 == k)
      && (NoneBlank(DictKeys(ms)) ==> r == DictKeys(ms))
  {
    var keys := DictKeys(ms);
    StringsOfDistinct(keys);
    KeepNonBlankDistinct(Strings(keys));
    KeepNonBlankMembers(Strings(keys));
    StringsMembers(keys);
    if NoneBlank(keys) {
      KeepNonBlankStrings(keys);
    }
  }

  lemma StringsMembers(ps: seq<string>)
    ensures forall k :: JString(k) in Strings(ps) <==> k in ps
  {
    forall k
      ensures JString(k) in Strings(ps) <==> k in ps
    {
      if JString(k) in Strings(ps) {
        var i :| 0 <= i < |ps| && Strings(ps)[i] == JString(k);
      }
      if k in ps {
        var i :| 0 <= i < |ps| && ps[i] == k;
        assert Strings(ps)[i] == JString(k);
      }
    }
  }

  lemma StringsOfDistinct(ps: seq<string>)
    requires Distinct(ps)
    ensures forall i, j :: 0 <= i < j < |ps| ==> Strings(ps)[i] != Strings(ps)[j]
  {
  }

  /** Distinct items keep distinct strings. */
  lemma {:induction false} KeepNonBlankDistinct(items: seq<Json>)
    requires forall i, j :: 0 <= i < j < |items| ==> items[i] != items[j]
    ensures Distinct(KeepNonBlank(items))
  {
    if items != [] {
      var tail := items[1..];
      KeepNonBlankDistinct(tail);
      KeepNonBlankMembers(tail);
      var rest := KeepNonBlank(tail);
      if items[0].JString? && !IsBlank(items[0].s) {
        var x := items[0].s;
        assert JString(x) !in tail by {
          assert forall j :: 0 <= j < |tail| ==> tail[j] == items[j + 1];
        }
        assert KeepNonBlank(items) == [x] + rest;
        DistinctCons(x, rest);
      }
    }
  }

  /** No string occurs twice. */
  predicate Distinct(r: seq<string>) {
    forall i, j :: 0 <= i < j < |r| ==> r[i] != r[j]
  }

  lemma DistinctCons(x: string, rest: seq<string>)
    requires x !in rest && Distinct(rest)
    ensures Distinct([x] + rest)
  {
    var r := [x] + rest;
    forall i, j | 0 <= i < j < |r|
      ensures r[i] != r[j]
    {
      assert r[j] == rest[j - 1];
      if i > 0 {
        assert r[i] == rest[i - 1];
      }
    }
  }

  /** `[v for v in items if isinstance(v, str) and v.strip()]` */
  function KeepNonBlank(items: seq<Json>): (r: seq<string>)
    ensures NoneBlank(r)
    ensures |r| <= |items|
  {
    if items == [] then []
    else
      var rest := KeepNonBlank(items[1..]);
      match items[0]
      case JString(s) => if !IsBlank(s) then [s] + rest else rest
      case _ => rest
  }

  /** The comprehension keeps the items' order and each kept copy once: the
      strings kept from two runs of items are those of the first run
      followed by those of the second. */
  lemma {:induction false} KeepNonBlankAppend(a: seq<Json>, b: seq<Json>)
    ensures KeepNonBlank(a + b) == KeepNonBlank(a) + KeepNonBlank(b)
  {
    if a == [] {
      assert a + b == b;
    } else {
      assert (a + b)[0] == a[0] && (a + b)[1..] == a[1..] + b;
      KeepNonBlankAppend(a[1..], b);
    }
  }

  /** One item keeps its string exactly when it is a non-blank string. */
  lemma KeepNonBlankSingle(v: Json)
    ensures KeepNonBlank([v]) == if v.JString? && !IsBlank(v.s) then [v.s] else []
  {
    assert [v][1..] == [];
  }

  /** The kept strings are exactly the non-blank strings among the items. */
  lemma {:induction false} KeepNonBlankMembers(items: seq<Json>)
    ensures forall s :: s in KeepNonBlank(items) <==> JString(s) in items && !IsBlank(s)
  {
    if items != [] {
      KeepNonBlankMembers(items[1..]);
      assert forall x :: x in items <==> x == items[0] || x in items[1..];
    }
  }

  predicate IsDigit(c: char) {
    '0' <= c <= '9'
  }

  predicate IsDigits(s: string) {
    |s| > 0 && forall i :: 0 <= i < |s| ==> IsDigit(s[i])
  }

  /** The number a string of decimal digits denotes. */
  function DigitsValue(s: string): nat
    requires forall i :: 0 <= i < |s| ==> IsDigit(s[i])
  {
    if s == [] then 0
    else
      assert IsDigit(s[|s| - 1]);
      DigitsValue(s[..|s| - 1]) * 10 + (s[|s| - 1] as int - '0' as int)
  }

  /** `int(s)` for a string: surrounding whitespace, an optional sign and
      decimal digits; anything else raises ValueError (None here).
      Underscores between digits and non-ASCII digits are not modelled. */
  function ParseInt(s: string): Option<int> {
    var t := Strip(s);
    if |t| > 0 && (t[0] == '-' || t[0] == '+') then
      if IsDigits(t[1..]) then
        var magnitude: int := DigitsValue(t[1..]);
        Some(if t[0] == '-' then -magnitude else magnitude)
      else None
    else if IsDigits(t) then Some(DigitsValue(t))
    else None
  }

  function Digit(d: int): char
    requires 0 <= d < 10
  {
    ('0' as int + d) as char
  }

  /** The decimal digits of a natural number. */
  function NatDigits(n: nat): (r: string)
    ensures IsDigits(r) && r[0] != '-' && r[|r| - 1] != ' '
  {
    if n < 10 then [Digit(n)] else NatDigits(n / 10) + [Digit(n % 10)]
  }

  /** `str(n)`, as `settings show` renders the age threshold. */
  function Show(n: int): string {
    if n < 0 then "-" + NatDigits(-n) else NatDigits(n)
  }

  lemma {:induction false} NatDigitsValue(n: nat)
    ensures DigitsValue(NatDigits(n)) == n
  {
    if n >= 10 {
      NatDigitsValue(n / 10);
      var d := NatDigits(n);
      assert d[..|d| - 1] == NatDigits(n / 10);
    }
  }

  /** A string that neither starts nor ends with whitespace strips to itself. */
  lemma StripUnpadded(s: string)
    requires s != [] && !IsSpace(s[0]) && !IsSpace(s[|s| - 1])
    ensures Strip(s) == s
  {
  }

  /** A string of digits is read as its value. */
  lemma ParseDigits(d: string)
    requires IsDigits(d)
    ensures ParseInt(d) == Some(DigitsValue(d))
    ensures ParseInt("-" + d) == Some(-(DigitsValue(d) as int))
  {
    assert IsDigit(d[0]) && IsDigit(d[|d| - 1]);
    StripUnpadded(d);
    var t := "-" + d;
    assert t[1..] == d && t[|t| - 1] == d[|d| - 1];
    StripUnpadded(t);
  }

  /** The number `settings show` prints parses back to itself. */
  lemma ParseShow(n: int)
    ensures ParseInt(Show(n)) == Some(n)
  {
    var m: nat := if n < 0 then -n else n;
    NatDigitsValue(m);
    ParseDigits(NatDigits(m));
  }

  /** `int(value)` on a JSON value: a boolean is 0 or 1, an integer is
      itself, a string is parsed; null, a list or a dict raise TypeError. */
  function ToInt(v: Json): Option<int> {
    match v
    case JBool(b) => Some(if b then 1 else 0)
    case JInt(i) => Some(i)
    case JString(s) => ParseInt(s)
    case _ => None
  }

  function Max(a: int, b: int): int {
    if a >= b then a else b
  }

  /** The age threshold `load_settings` keeps: the integer value or, when
      `int()` raises, the default; never below 0. */
  function DaysFrom(v: Json): (r: int)
    ensures r >= 0
    ensures ToInt(v).Some? && ToInt(v).value >= 0 ==> r == ToInt(v).value
    ensures ToInt(v).None? ==> r == DefaultMaxAgeDays
    ensures ToInt(v).Some? && ToInt(v).value < 0 ==> r == 0
  {
    Max(0, ToInt(v).GetOr(DefaultMaxAgeDays))
  }

  /** Errors `load_settings` lets escape. */
  datatype LoadError =
    | NotAnObject        // settings.json holds JSON that is not an object: `data.items()` fails
    | ListNotIterable    // a list field holds null, a boolean or a number

  /** The normalized pattern list of one list field, or the TypeError that
      iterating its value raises. */
  function ListFrom(v: Json): Result<seq<string>, LoadError> {
    match Elements(v)
    case None => Failure(ListNotIterable)
    case Some(items) => Success(KeepNonBlank(items))
  }

  /** What the second loop of `load_settings` makes of the merged dict. */
  function Normalize(m: map<string, Json>): Result<Settings, LoadError>
    requires HasAllFields(m)
  {
    var it :- ListFrom(m[Name(IncludeTitles)]);
    var et :- ListFrom(m[Name(ExcludeTitles)]);
    var ic :- ListFrom(m[Name(IncludeCompanies)]);
    var ec :- ListFrom(m[Name(ExcludeCompanies)]);
    var il :- ListFrom(m[Name(IncludeLocations)]);
    var el :- ListFrom(m[Name(ExcludeLocations)]);
    Success(Settings(it, et, ic, ec, il, el, DaysFrom(m[Name(MaxAgeDays)])))
  }

  /** What `load_settings` returns for the decoded settings file. */
  function Loaded(data: Json): Result<Settings, LoadError> {
    if !data.JObject? then Failure(NotAnObject)
    else
      DefaultDocFields();
      Normalize(Merged(data.members))
  }

  /** One list field that cannot be iterated makes `load_settings` raise. */
  lemma NormalizeFails(m: map<string, Json>, f: Field)
    requires HasAllFields(m) && f != MaxAgeDays && ListFrom(m[Name(f)]).Failure?
    ensures Normalize(m) == Failure(ListNotIterable)
  {
  }

  /** What `load_settings` guarantees: list fields hold only non-blank
      strings and the age threshold is not negative. */
  predicate Normalized(s: Settings) {
    && NoneBlank(s.includeTitles) && NoneBlank(s.excludeTitles)
    && NoneBlank(s.includeCompanies) && NoneBlank(s.excludeCompanies)
    && NoneBlank(s.includeLocations) && NoneBlank(s.excludeLocations)
    && s.maxAgeDays >= 0
  }

  predicate NoneBlank(ps: seq<string>) {
    forall p :: p in ps ==> !IsBlank(p)
  }

  /** `load_settings` either fails with a TypeError it does not catch, or
      returns normalized settings. */
  lemma LoadedIsNormalized(data: Json)
    ensures Loaded(data).Success? ==> Normalized(Loaded(data).value)
  {
    if data.JObject? {
      DefaultDocFields();
      NormalizeIsNormalized(Merged(data.members));
    }
  }

  /** The second loop only ever produces normalized settings. */
  lemma NormalizeIsNormalized(m: map<string, Json>)
    requires HasAllFields(m)
    ensures Normalize(m).Success? ==> Normalized(Normalize(m).value)
  {
    if Normalize(m).Success? {
      var s := Normalize(m).value;
      assert ListFrom(m[Name(IncludeTitles)]) == Success(s.includeTitles);
      assert ListFrom(m[Name(ExcludeTitles)]) == Success(s.excludeTitles);
      assert ListFrom(m[Name(IncludeCompanies)]) == Success(s.includeCompanies);
      assert ListFrom(m[Name(ExcludeCompanies)]) == Success(s.excludeCompanies);
      assert ListFrom(m[Name(IncludeLocations)]) == Success(s.includeLocations);
      assert ListFrom(m[Name(ExcludeLocations)]) == Success(s.excludeLocations);
      assert s.maxAgeDays == DaysFrom(m[Name(MaxAgeDays)]);
    }
  }

  /** A key that is not a setting never changes what `load_settings` returns. */
  lemma {:induction false} UnknownKeyIgnored(ms: seq<(string, Json)>, key: string, v: Json)
    requires FieldNamed(key).None?
    ensures Loaded(JObject(ms + [(key, v)])) == Loaded(JObject(ms))
  {
    var ms' := ms + [(key, v)];
    assert ms'[..|ms|] == ms;
    forall k | k in DefaultDoc ensures LastValue(ms', k) == LastValue(ms, k) {
      DefaultDocFields();
    }
    assert Merged(ms') == Merged(ms);
  }

  /** With no settings file (or an empty object) `load_settings` returns the
      defaults. */
  lemma NoFileGivesDefaults()
    ensures Loaded(JObject([])) == Success(Defaults)
  {
    assert Merged([]) == DefaultDoc by {
      DefaultDocFields();
    }
    NormalizeDefaultDoc();
  }

  /** The second loop turns DEFAULT_SETTINGS into the defaults unchanged. */
  lemma NormalizeDefaultDoc()
    ensures HasAllFields(DefaultDoc) && Normalize(DefaultDoc) == Success(Defaults)
  {
    assert HasAllFields(DefaultDoc) by {
      DefaultDocFields();
    }
    assert ListFrom(JArray([])) == Success([]) by {
      assert KeepNonBlank([]) == [];
    }
    assert DaysFrom(JInt(DefaultMaxAgeDays)) == DefaultMaxAgeDays;
  }

  /** One more member of the file seen by the first loop. */
  lemma MergedStep(ms: seq<(string, Json)>, i: nat)
    requires i < |ms|
    ensures Merged(ms[..i + 1]) ==
      if ms[i].0 in DefaultDoc then Merged(ms[..i])[ms[i].0 := ms[i].1] else Merged(ms[..i])
  {
    assert ms[..i + 1][..i] == ms[..i];
  }

  /** The first loop of `load_settings`: copy the file's known keys over the
      defaults. */
  method MergeKnownKeys(ms: seq<(string, Json)>) returns (merged: map<string, Json>)
    ensures merged == Merged(ms)
  {
    merged := DefaultDoc;
    assert Merged(ms[..0]) == DefaultDoc;
    for i := 0 to |ms|
      invariant merged == Merged(ms[..i])
    {
      var (key, value) := ms[i];
      MergedStep(ms, i);
      if key !in DefaultDoc {
        continue;
      }
      merged := merged[key := value];
    }
    assert ms[..|ms|] == ms;
  }

  /** Where a field stands in DEFAULT_SETTINGS. */
  function Position(f: Field): (i: nat)
    ensures i < |Fields| && Fields[i] == f
  {
    match f
    case IncludeTitles => 0
    case ExcludeTitles => 1
    case IncludeCompanies => 2
    case ExcludeCompanies => 3
    case IncludeLocations => 4
    case ExcludeLocations => 5
    case MaxAgeDays => 6
  }

  /** The normalized value of one field of the merged dict (an empty list
      where iterating the value raises). */
  function FieldValue(m: map<string, Json>, f: Field): Value
    requires HasAllFields(m)
  {
    if f == MaxAgeDays then Days(DaysFrom(m[Name(f)]))
    else
      match ListFrom(m[Name(f)])
      case Success(ps) => Patterns(ps)
      case Failure(_) => Patterns([])
  }

  lemma NormalizeSucceeds(m: map<string, Json>)
    requires HasAllFields(m)
    requires forall f: Field :: f != MaxAgeDays ==> ListFrom(m[Name(f)]).Success?
    ensures Normalize(m).Success?
    ensures forall f: Field :: Normalize(m).value.Get(f) == FieldValue(m, f)
  {
    assert ListFrom(m[Name(IncludeTitles)]).Success?;
    assert ListFrom(m[Name(ExcludeTitles)]).Success?;
    assert ListFrom(m[Name(IncludeCompanies)]).Success?;
    assert ListFrom(m[Name(ExcludeCompanies)]).Success?;
    assert ListFrom(m[Name(IncludeLocations)]).Success?;
    assert ListFrom(m[Name(ExcludeLocations)]).Success?;
  }

  /** The second loop of `load_settings`: keep the non-blank strings of each
      list field and clamp the age threshold to 0 or more. */
  method NormalizeFields(merged: map<string, Json>) returns (r: Result<Settings, LoadError>)
    requires HasAllFields(merged)
    ensures r == Normalize(merged)
  {
    var out := Defaults;
    for i := 0 to |Fields|
      invariant forall f: Field :: Position(f) < i && f != MaxAgeDays ==> ListFrom(merged[Name(f)]).Success?
      invariant forall f: Field :: out.Get(f) == if Position(f) < i then FieldValue(merged, f) else Defaults.Get(f)
    {
      var f := Fields[i];
      assert Position(f) == i;
      var key := Name(f);
      ListKeysAreListFields(f);
      if IsListKey(key) {
        var items := Elements(merged[key]);
        if items.None? {
          NormalizeFails(merged, f);
          return Failure(ListNotIterable);
        }
        assert ListFrom(merged[key]).Success?;
        assert FieldValue(merged, f) == Patterns(KeepNonBlank(items.value));
        out := out.With(f, Patterns(KeepNonBlank(items.value)));
      } else if key == "max_age_days" {
        assert FieldValue(merged, f) == Days(DaysFrom(merged[key]));
        out := out.With(f, Days(DaysFrom(merged[key])));
      }
      assert forall g: Field :: Position(g) < i + 1 <==> Position(g) < i || g == f;
    }
    NormalizeSucceeds(merged);
    SettingsExt(out, Normalize(merged).value);
    r := Success(out);
  }

  /** The `load_settings` of the source: merge the file's known keys over the
      defaults, then normalize every field. */
  method LoadSettings(data: Json) returns (r: Result<Settings, LoadError>)
    ensures r == Loaded(data)
    ensures r.Success? ==> Normalized(r.value)
  {
    LoadedIsNormalized(data);
    if !data.JObject? {
      return Failure(NotAnObject);
    }
    var merged := MergeKnownKeys(data.members);
    DefaultDocFields();
    r := NormalizeFields(merged);
  }

  // ----------------------------------------------------------------- saving

  function Strings(ps: seq<string>): (r: seq<Json>)
    ensures |r| == |ps| && forall i :: 0 <= i < |ps| ==> r[i] == JString(ps[i])
  {
    seq(|ps|, i requires 0 <= i < |ps| => JString(ps[i]))
  }

  /** The dict `save_settings` writes: every field, keys sorted. */
  function Document(s: Settings): Json {
    JObject([
      ("exclude_companies", JArray(Strings(s.excludeCompanies))),
      ("exclude_locations", JArray(Strings(s.excludeLocations))),
      ("exclude_titles", JArray(Strings(s.excludeTitles))),
      ("include_companies", JArray(Strings(s.includeCompanies))),
      ("include_locations", JArray(Strings(s.includeLocations))),
      ("include_titles", JArray(Strings(s.includeTitles))),
      ("max_age_days", JInt(s.maxAgeDays))])
  }

  lemma {:induction false} KeepNonBlankStrings(ps: seq<string>)
    requires forall p :: p in ps ==> !IsBlank(p)
    ensures KeepNonBlank(Strings(ps)) == ps
  {
    if ps != [] {
      KeepNonBlankStrings(ps[1..]);
      assert Strings(ps)[1..] == Strings(ps[1..]);
    }
  }

  /** In a member list with distinct keys, the value for a key is the one
      its member carries. */
  lemma {:induction false} LastValueDistinct(ms: seq<(string, Json)>, i: nat)
    requires i < |ms|
    requires forall a, b :: 0 <= a < b < |ms| ==> ms[a].0 != ms[b].0
    ensures LastValue(ms, ms[i].0) == Some(ms[i].1)
  {
    if i < |ms| - 1 {
      LastValueDistinct(ms[..|ms| - 1], i);
    }
  }

  /** The JSON value `save_settings` writes for one field. */
  function SavedValue(s: Settings, f: Field): Json {
    if f == MaxAgeDays then JInt(s.maxAgeDays) else JArray(Strings(s.PatternsOf(f)))
  }

  /** Merging the saved document over the defaults yields the saved values. */
  lemma MergedDocument(s: Settings)
    ensures HasAllFields(Merged(Document(s).members))
    ensures forall f: Field :: Merged(Document(s).members)[Name(f)] == SavedValue(s, f)
  {
    var ms := Document(s).members;
    assert forall a, b :: 0 <= a < b < |ms| ==> ms[a].0 != ms[b].0;
    forall f: Field
      ensures Name(f) in Merged(ms) && Merged(ms)[Name(f)] == SavedValue(s, f)
    {
      DefaultDocFields();
      var i := match f
        case ExcludeCompanies => 0
        case ExcludeLocations => 1
        case ExcludeTitles => 2
        case IncludeCompanies => 3
        case IncludeLocations => 4
        case IncludeTitles => 5
        case MaxAgeDays => 6;
      assert ms[i] == (Name(f), SavedValue(s, f));
      LastValueDistinct(ms, i);
    }
  }

  /** The saved list of a field reads back with its blank entries dropped. */
  lemma SavedListReadsBack(s: Settings, f: Field)
    requires f != MaxAgeDays
    ensures HasAllFields(Merged(Document(s).members))
    ensures ListFrom(Merged(Document(s).members)[Name(f)]) == Success(Clean(s.PatternsOf(f)))
  {
    MergedDocument(s);
  }

  /** A saved pattern list as the next load sees it: blank entries dropped. */
  function Clean(ps: seq<string>): (r: seq<string>)
    ensures NoneBlank(r)
    ensures NoneBlank(ps) ==> r == ps
  {
    var kept := KeepNonBlank(Strings(ps));
    if NoneBlank(ps) then KeepNonBlankStrings(ps); kept else kept
  }

  /** The settings the next `load_settings` returns after `save_settings`. */
  function Cleaned(s: Settings): (r: Settings)
    ensures Normalized(r)
    ensures Normalized(s) ==> r == s
  {
    Settings(Clean(s.includeTitles), Clean(s.excludeTitles), Clean(s.includeCompanies),
             Clean(s.excludeCompanies), Clean(s.includeLocations), Clean(s.excludeLocations),
             Max(0, s.maxAgeDays))
  }

  /** Saving settings and loading them again drops blank patterns and
      clamps the age threshold, and changes nothing else. */
  lemma SaveLoad(s: Settings)
    ensures Loaded(Document(s)) == Success(Cleaned(s))
  {
    MergedDocument(s);
    NormalizeSavedValues(Merged(Document(s).members), s);
  }

  /** A merged dict holding the saved value of every field normalizes to
      the cleaned settings. */
  lemma NormalizeSavedValues(m: map<string, Json>, s: Settings)
    requires HasAllFields(m)
    requires forall f: Field :: m[Name(f)] == SavedValue(s, f)
    ensures Normalize(m) == Success(Cleaned(s))
  {
    PatternsOfFields(s);
    SavedListLoads(m, s, IncludeTitles);
    SavedListLoads(m, s, ExcludeTitles);
    SavedListLoads(m, s, IncludeCompanies);
    SavedListLoads(m, s, ExcludeCompanies);
    SavedListLoads(m, s, IncludeLocations);
    SavedListLoads(m, s, ExcludeLocations);
    SavedDaysLoads(m, s);
    NormalizeParts(m, Cleaned(s));
  }

  /** The pattern list of each list field is the record's own field. */
  lemma PatternsOfFields(s: Settings)
    ensures s.PatternsOf(IncludeTitles) == s.includeTitles && s.PatternsOf(ExcludeTitles) == s.excludeTitles
    ensures s.PatternsOf(IncludeCompanies) == s.includeCompanies && s.PatternsOf(ExcludeCompanies) == s.excludeCompanies
    ensures s.PatternsOf(IncludeLocations) == s.includeLocations && s.PatternsOf(ExcludeLocations) == s.excludeLocations
  {
  }

  /** A saved list field reads back with its blank entries dropped. */
  lemma SavedListLoads(m: map<string, Json>, s: Settings, f: Field)
    requires f != MaxAgeDays && Name(f) in m && m[Name(f)] == SavedValue(s, f)
    ensures ListFrom(m[Name(f)]) == Success(Clean(s.PatternsOf(f)))
  {
  }

  /** The saved age threshold reads back clamped to 0 or more. */
  lemma SavedDaysLoads(m: map<string, Json>, s: Settings)
    requires Name(MaxAgeDays) in m && m[Name(MaxAgeDays)] == SavedValue(s, MaxAgeDays)
    ensures DaysFrom(m[Name(MaxAgeDays)]) == Cleaned(s).maxAgeDays
  {
  }

  /** The second loop builds exactly the settings its seven fields read. */
  lemma NormalizeParts(m: map<string, Json>, t: Settings)
    requires HasAllFields(m)
    requires ListFrom(m[Name(IncludeTitles)]) == Success(t.includeTitles)
    requires ListFrom(m[Name(ExcludeTitles)]) == Success(t.excludeTitles)
    requires ListFrom(m[Name(IncludeCompanies)]) == Success(t.includeCompanies)
    requires ListFrom(m[Name(ExcludeCompanies)]) == Success(t.excludeCompanies)
    requires ListFrom(m[Name(IncludeLocations)]) == Success(t.includeLocations)
    requires ListFrom(m[Name(ExcludeLocations)]) == Success(t.excludeLocations)
    requires DaysFrom(m[Name(MaxAgeDays)]) == t.maxAgeDays
    ensures Normalize(m) == Success(t)
  {
  }

  /** Saving normalized settings and loading them again gives them back. */
  lemma SaveLoadRoundTrip(s: Settings)
    requires Normalized(s)
    ensures Loaded(Document(s)) == Success(s)
  {
    SaveLoad(s);
  }

  // --------------------------------------------------------------- commands

  /** Why a settings command stops with exit status 1. */
  datatype CommandError =
    | UnknownField(name: string)
    | UseSetForMaxAge     // `add`/`remove` on max_age_days
    | MissingInteger      // `set max_age_days` without a value
    | NotAnInteger        // `set max_age_days` with a value `int()` rejects

  /** A notice a command prints before returning without saving. */
  datatype Notice = AlreadyPresent | NotPresent

  /** How a settings command ends: the settings it saves, a notice without
      saving, or an exit with an error. */
  datatype Outcome = Saved(settings: Settings) | Unchanged(notice: Notice) | Exit(error: CommandError)

  /** `_ensure_list_field`: the named field, if it is a pattern list. */
  function ListFieldNamed(name: string): (r: Result<Field, CommandError>)
    ensures r.Success? <==> FieldNamed(name).Some? && FieldNamed(name).value != MaxAgeDays
    ensures r.Success? ==> Name(r.value) == name && r.value != MaxAgeDays
    ensures FieldNamed(name).None? ==> r == Failure(UnknownField(name))
    ensures FieldNamed(name) == Some(MaxAgeDays) ==> r == Failure(UseSetForMaxAge)
  {
    match FieldNamed(name)
    case None => Failure(UnknownField(name))
    case Some(f) => if f == MaxAgeDays then Failure(UseSetForMaxAge) else Success(f)
  }

  /** `settings add FIELD VALUE`: append the value unless it is already there. */
  function SettingsAdd(s: Settings, name: string, value: string): (out: Outcome)
    ensures ListFieldNamed(name).Failure? ==> out == Exit(ListFieldNamed(name).error)
    ensures ListFieldNamed(name).Success? ==>
      var f := ListFieldNamed(name).value;
      && (out.Unchanged? <==> value in s.PatternsOf(f))
      && (out.Unchanged? ==> out.notice == AlreadyPresent)
      && (out.Saved? ==>
            && out.settings.PatternsOf(f) == s.PatternsOf(f) + [value]
            && forall g :: g != f ==> out.settings.Get(g) == s.Get(g))
  {
    match ListFieldNamed(name)
    case Failure(e) => Exit(e)
    case Success(f) =>
      var current := s.PatternsOf(f);
      if value in current then Unchanged(AlreadyPresent)
      else Saved(s.With(f, Patterns(current + [value])))
  }

  /** The position of the first occurrence of `v`. */
  function FirstIndex(ps: seq<string>, v: string): (i: nat)
    requires v in ps
    ensures i < |ps| && ps[i] == v && v !in ps[..i]
  {
    if ps[0] == v then 0
    else
      var i := FirstIndex(ps[1..], v);
      assert ps[..i + 1] == [ps[0]] + ps[1..][..i];
      i + 1
  }

  /** `list.remove(v)`: drop the first occurrence of `v`; the list keeps one
      copy fewer of `v` and every other element. */
  function RemoveFirst(ps: seq<string>, v: string): (r: seq<string>)
    requires v in ps
    ensures |r| == |ps| - 1
    ensures multiset(r) == multiset(ps) - multiset{v}
    ensures var i := FirstIndex(ps, v); r[..i] == ps[..i] && r[i..] == ps[i + 1..]
  {
    var i := FirstIndex(ps, v);
    assert ps == ps[..i] + [v] + ps[i + 1..];
    ps[..i] + ps[i + 1..]
  }

  /** Only the first occurrence is the one `remove` deletes. */
  lemma FirstIndexAt(ps: seq<string>, v: string, i: nat)
    requires i < |ps| && ps[i] == v && v !in ps[..i]
    ensures FirstIndex(ps, v) == i
  {
    var j := FirstIndex(ps, v);
    assert forall k :: 0 <= k < i ==> ps[..i][k] == ps[k];
    assert forall k :: 0 <= k < j ==> ps[..j][k] == ps[k];
  }

  /** Removing a value just appended gives back the list before the append. */
  lemma RemoveAppended(ps: seq<string>, v: string)
    requires v !in ps
    ensures RemoveFirst(ps + [v], v) == ps
  {
    assert (ps + [v])[..|ps|] == ps;
    FirstIndexAt(ps + [v], v, |ps|);
  }

  /** A pattern list changed in place, as `settings_add` and
      `settings_remove` change `settings[field]`. */
  class PatternList {
    var items: seq<string>

    constructor (initial: seq<string>)
      ensures items == initial
    {
      items := initial;
    }

    /** `list.append(v)` */
    method Append(v: string)
      modifies this
      ensures items == old(items) + [v]
    {
      items := items + [v];
    }

    /** `list.remove(v)`: scan for the first occurrence of `v`, then close
        the gap. The caller has checked that `v` is present. */
    method Remove(v: string)
      requires v in items
      modifies this
      ensures items == RemoveFirst(old(items), v)
    {
      var i := 0;
      while items[i] != v
        invariant 0 <= i < |items|
        invariant v !in items[..i]
        invariant v in items[i..]
        decreases |items| - i
      {
        assert items[i..] == [items[i]] + items[i + 1..];
        i := i + 1;
      }
      FirstIndexAt(items, v, i);
      items := items[..i] + items[i + 1..];
    }
  }

  /** `settings remove FIELD VALUE`: delete the value's first occurrence. */
  function SettingsRemove(s: Settings, name: string, value: string): (out: Outcome)
    ensures ListFieldNamed(name).Failure? ==> out == Exit(ListFieldNamed(name).error)
    ensures ListFieldNamed(name).Success? ==>
      var f := ListFieldNamed(name).value;
      && (out.Unchanged? <==> value !in s.PatternsOf(f))
      && (out.Unchanged? ==> out.notice == NotPresent)
      && (out.Saved? ==>
            && multiset(out.settings.PatternsOf(f)) == multiset(s.PatternsOf(f)) - multiset{value}
            && forall g :: g != f ==> out.settings.Get(g) == s.Get(g))
      && (value in s.PatternsOf(f) ==>
            out.Saved? && out.settings.PatternsOf(f) == RemoveFirst(s.PatternsOf(f), value))
  {
    match ListFieldNamed(name)
    case Failure(e) => Exit(e)
    case Success(f) =>
      var current := s.PatternsOf(f);
      if value !in current then Unchanged(NotPresent)
      else Saved(s.With(f, Patterns(RemoveFirst(current, value))))
  }

  /** `[v.strip() for v in values.split(",") if v.strip()]` */
  function CommaItems(values: string): (r: seq<string>)
    ensures forall p :: p in r ==> !IsBlank(p) && ',' !in p
    ensures forall q :: q in SplitOn(values, ',') && !IsBlank(q) ==> Strip(q) in r
  {
    var pieces := SplitOn(values, ',');
    var r := StrippedNonBlank(pieces);
    assert forall p :: p in r ==> ',' !in p by {
      forall p | p in r ensures ',' !in p {
        var q :| q in pieces && p == Strip(q);
        StripChars(q);
      }
    }
    r
  }

  /** The comprehension over the pieces: each piece stripped, the blank
      ones dropped. */
  function StrippedNonBlank(pieces: seq<string>): (r: seq<string>)
    ensures |r| <= |pieces|
    ensures forall p :: p in r ==> !IsBlank(p) && exists q :: q in pieces && p == Strip(q)
    ensures forall q :: q in pieces && !IsBlank(q) ==> Strip(q) in r
  {
    if pieces == [] then []
    else
      var rest := StrippedNonBlank(pieces[1..]);
      var p := Strip(pieces[0]);
      assert forall q :: q in pieces[1..] ==> q in pieces;
      assert forall q :: q in pieces ==> q == pieces[0] || q in pieces[1..];
      BlankIffStripsToEmpty(pieces[0]);
      if p != [] then
        NotBlank(p);
        [p] + rest
      else rest
  }

  /** The comprehension keeps the order of the pieces: the items of two runs
      of pieces are the items of the first followed by those of the
      second. */
  lemma {:induction false} StrippedNonBlankAppend(a: seq<string>, b: seq<string>)
    ensures StrippedNonBlank(a + b) == StrippedNonBlank(a) + StrippedNonBlank(b)
  {
    if a == [] {
      assert a + b == b;
    } else {
      assert (a + b)[1..] == a[1..] + b;
      StrippedNonBlankAppend(a[1..], b);
    }
  }

  /** `settings add` as the source runs it: look the list up, then append
      to it in place and save the dict. */
  method AddToList(s: Settings, name: string, value: string) returns (out: Outcome)
    ensures out == SettingsAdd(s, name, value)
  {
    var field := ListFieldNamed(name);
    if field.Failure? {
      return Exit(field.error);
    }
    var f := field.value;
    var current := new PatternList(s.PatternsOf(f));
    if value in current.items {
      return Unchanged(AlreadyPresent);
    }
    current.Append(value);
    out := Saved(s.With(f, Patterns(current.items)));
  }

  /** `settings remove` as the source runs it: look the list up, then remove
      the value in place and save the dict. */
  method RemoveFromList(s: Settings, name: string, value: string) returns (out: Outcome)
    ensures out == SettingsRemove(s, name, value)
  {
    var field := ListFieldNamed(name);
    if field.Failure? {
      return Exit(field.error);
    }
    var f := field.value;
    var current := new PatternList(s.PatternsOf(f));
    if value !in current.items {
      return Unchanged(NotPresent);
    }
    current.Remove(value);
    out := Saved(s.With(f, Patterns(current.items)));
  }

  /** A trimmed, non-empty value without commas. */
  predicate CommaFreeItem(p: string) {
    p != [] && Strip(p) == p && ',' !in p
  }

  /** Items that are already trimmed and non-empty survive the strip-and-drop
      pass unchanged. */
  lemma {:induction false} StrippedNonBlankKeeps(pieces: seq<string>)
    requires forall p :: p in pieces ==> p != [] && Strip(p) == p
    ensures StrippedNonBlank(pieces) == pieces
  {
    if pieces != [] {
      var p := pieces[0];
      assert StrippedNonBlank(pieces) == [p] + StrippedNonBlank(pieces[1..]) by {
        assert Strip(p) == p && p != [];
      }
      assert StrippedNonBlank(pieces[1..]) == pieces[1..] by {
        assert forall q :: q in pieces[1..] ==> q in pieces;
        StrippedNonBlankKeeps(pieces[1..]);
      }
      assert pieces == [p] + pieces[1..];
    }
  }

  /** `settings set FIELD "a,b,c"` stores exactly the items that were joined
      with commas, when they are trimmed, non-empty and comma-free. */
  lemma CommaItemsJoin(items: seq<string>)
    requires |items| >= 1
    requires forall p :: p in items ==> CommaFreeItem(p)
    ensures CommaItems(Join(items, ',')) == items
  {
    assert SplitOn(Join(items, ','), ',') == items by {
      assert forall i :: 0 <= i < |items| ==> ',' !in items[i] by {
        forall i | 0 <= i < |items| ensures ',' !in items[i] {
          assert CommaFreeItem(items[i]);
        }
      }
      SplitJoin(items, ',');
    }
    assert StrippedNonBlank(items) == items by {
      assert forall p :: p in items ==> p != [] && Strip(p) == p by {
        forall p | p in items ensures p != [] && Strip(p) == p {
          assert CommaFreeItem(p);
        }
      }
      StrippedNonBlankKeeps(items);
    }
  }

  /** `settings set FIELD [VALUES]`: replace a list with the comma-separated
      items, or set the age threshold (negative numbers become 0). */
  function SettingsSet(s: Settings, name: string, values: Option<string>): (out: Outcome)
    ensures FieldNamed(name).None? ==> out == Exit(UnknownField(name))
    ensures FieldNamed(name) == Some(MaxAgeDays) ==>
      && (values.None? ==> out == Exit(MissingInteger))
      && (values.Some? && ParseInt(values.value).None? ==> out == Exit(NotAnInteger))
      && (values.Some? && ParseInt(values.value).Some? ==>
            out == Saved(s.(maxAgeDays := Max(0, ParseInt(values.value).value))))
    ensures FieldNamed(name).Some? && FieldNamed(name).value != MaxAgeDays ==>
      && out.Saved?
      && (values.None? ==> out.settings.PatternsOf(FieldNamed(name).value) == [])
      && (values.Some? ==> out.settings.PatternsOf(FieldNamed(name).value) == CommaItems(values.value))
      && forall g :: g != FieldNamed(name).value ==> out.settings.Get(g) == s.Get(g)
  {
    match FieldNamed(name)
    case None => Exit(UnknownField(name))
    case Some(f) =>
      if f == MaxAgeDays then
        if values.None? then Exit(MissingInteger)
        else match ParseInt(values.value)
          case None => Exit(NotAnInteger)
          case Some(days) => Saved(s.With(f, Days(Max(0, days))))
      else if values.None? then Saved(s.With(f, Patterns([])))
      else Saved(s.With(f, Patterns(CommaItems(values.value))))
  }

  // ----------------------------------------------------- command properties

  /** `settings add` of a value already present changes nothing, so adding
      the same value twice saves once. */
  lemma AddTwice(s: Settings, name: string, value: string)
    requires ListFieldNamed(name).Success?
    requires SettingsAdd(s, name, value).Saved?
    ensures SettingsAdd(SettingsAdd(s, name, value).settings, name, value) == Unchanged(AlreadyPresent)
  {
    var f := ListFieldNamed(name).value;
    assert value in SettingsAdd(s, name, value).settings.PatternsOf(f);
  }

  /** `settings remove` undoes `settings add` of a new value. */
  lemma AddThenRemove(s: Settings, name: string, value: string)
    requires ListFieldNamed(name).Success?
    requires value !in s.PatternsOf(ListFieldNamed(name).value)
    ensures SettingsAdd(s, name, value).Saved?
    ensures SettingsRemove(SettingsAdd(s, name, value).settings, name, value) == Saved(s)
  {
    var f := ListFieldNamed(name).value;
    var added := SettingsAdd(s, name, value).settings;
    RemoveAppended(s.PatternsOf(f), value);
    var back := added.With(f, Patterns(s.PatternsOf(f)));
    assert forall g :: back.Get(g) == s.Get(g);
    SettingsExt(back, s);
  }

  /** `settings set` keeps loaded settings normalized: list items are never
      blank and the age threshold is clamped. */
  lemma SetKeepsNormalized(s: Settings, name: string, values: Option<string>)
    requires Normalized(s)
    requires SettingsSet(s, name, values).Saved?
    ensures Normalized(SettingsSet(s, name, values).settings)
  {
    var out := SettingsSet(s, name, values).settings;
    var f := FieldNamed(name).value;
    assert forall g :: g != f ==> out.Get(g) == s.Get(g);
  }

  /** `settings add` of a blank value is saved, but the next load drops it:
      the reloaded settings are the ones before the add. */
  lemma BlankAddDroppedOnReload(s: Settings, name: string, value: string)
    requires Normalized(s)
    requires ListFieldNamed(name).Success?
    requires IsBlank(value) && value !in s.PatternsOf(ListFieldNamed(name).value)
    ensures SettingsAdd(s, name, value).Saved?
    ensures Loaded(Document(SettingsAdd(s, name, value).settings)) == Success(s)
  {
    var f := ListFieldNamed(name).value;
    var added := s.With(f, Patterns(s.PatternsOf(f) + [value]));
    assert SettingsAdd(s, name, value) == Saved(added);
    assert Cleaned(added) == s by {
      CleanedBlankAppend(s, f, value);
    }
    SaveLoad(added);
  }

  /** Cleaning settings whose only blank item was appended to one list
      gives the settings before the append. */
  lemma CleanedBlankAppend(s: Settings, f: Field, value: string)
    requires Normalized(s) && f != MaxAgeDays && IsBlank(value)
    ensures Cleaned(s.With(f, Patterns(s.PatternsOf(f) + [value]))) == s
  {
    var added := s.With(f, Patterns(s.PatternsOf(f) + [value]));
    forall g ensures Cleaned(added).Get(g) == s.Get(g) {
      CleanedField(added, g);
      if g == MaxAgeDays {
        assert added.maxAgeDays == s.maxAgeDays by {
          assert added.Get(g) == s.Get(g);
        }
      } else {
        assert Clean(added.PatternsOf(g)) == s.PatternsOf(g) by {
          if g == f {
            CleanDropsBlankTail(s.PatternsOf(f), value);
          } else {
            assert added.PatternsOf(g) == s.PatternsOf(g);
            NormalizedField(s, g);
          }
        }
        NormalizedField(s, g);
      }
    }
    SettingsExt(Cleaned(added), s);
  }

  /** Each list of normalized settings is free of blanks. */
  lemma NormalizedField(s: Settings, g: Field)
    requires Normalized(s) && g != MaxAgeDays
    ensures NoneBlank(s.PatternsOf(g))
    ensures s.Get(g) == Patterns(s.PatternsOf(g))
  {
  }

  /** One field of the cleaned settings. */
  lemma CleanedField(a: Settings, g: Field)
    ensures g != MaxAgeDays ==> Cleaned(a).Get(g) == Patterns(Clean(a.PatternsOf(g)))
    ensures g == MaxAgeDays ==> Cleaned(a).Get(g) == Days(Max(0, a.maxAgeDays))
  {
  }

  /** Cleaning a list whose only blank item is its last one drops just that
      item. */
  lemma CleanDropsBlankTail(ps: seq<string>, v: string)
    requires NoneBlank(ps) && IsBlank(v)
    ensures Clean(ps + [v]) == ps
  {
    assert Strings(ps + [v]) == Strings(ps) + [JString(v)];
    KeepNonBlankBlankTail(Strings(ps), v);
    KeepNonBlankStrings(ps);
  }

  /** A blank string at the end of a JSON list is dropped on load. */
  lemma {:induction false} KeepNonBlankBlankTail(items: seq<Json>, v: string)
    requires IsBlank(v)
    ensures KeepNonBlank(items + [JString(v)]) == KeepNonBlank(items)
  {
    if items == [] {
      assert [JString(v)][1..] == [];
    } else {
      var x := items[0];
      assert KeepNonBlank(items + [JString(v)]) == KeepNonBlank([x]) + KeepNonBlank(items[1..] + [JString(v)]) by {
        assert (items + [JString(v)])[1..] == items[1..] + [JString(v)];
        assert (items + [JString(v)])[0] == x;
        assert [x][1..] == [];
      }
      assert KeepNonBlank(items) == KeepNonBlank([x]) + KeepNonBlank(items[1..]) by {
        assert [x][1..] == [];
      }
      KeepNonBlankBlankTail(items[1..], v);
    }
  }
}
