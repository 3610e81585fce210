# Jobs Dashboard core, modelled in Dafny

`jobs_cli.py` is a one-file command-line tool. It pulls LinkedIn job-alert
emails from Gmail, extracts job postings from their HTML, stores them in a
SQLite table keyed by link, and lists the stored jobs through a filter that
the user configures in `settings.json`. This project models the logic of
that path and proves properties of it.

- `wrappers.dfy` (module `Wrappers`): `Option` and `Result`.
- `text.dfy` (module `Text`): the Python string operations the code is
  written with. These are `strip`, `lower`, the `in` substring test, the
  first-occurrence cut of `split(sep, 1)`, `split()` as a word count, and
  `split(sep)`.
- `settings.dfy` (module `SettingsLayer`): the settings file as a JSON
  value. It covers what `load_settings` makes of that value (its two loops),
  what `save_settings` writes, and the commands `settings add`,
  `settings remove` and `settings set`.
- `extraction.dfy` (module `EmailParsing`): `_is_job_alert_subject`,
  `_guess_title_company_from_anchor`, `_guess_location` and
  `parse_email_payload_to_jobs`. The parsed HTML is a sequence of anchors.
  Each anchor has its `href`, its `get_text(" ", strip=True)` text and the
  text nodes of its parent.
- `jobsdb.dfy` (module `JobsDb`): the `jobs` table as a class `JobStore`.
  The class holds the rows and the next AUTOINCREMENT id. It models the
  insert loop of `fetch_from_gmail` and `_update_job`, which the commands
  `apply`, `seen` and `ignore` use.
- `filtering.dfy` (module `Filtering`): `_normalize` and
  `job_matches_filters`.
- `listing.dfy` (module `Listing`): the row selection of `list_jobs`.

Timestamps are integers (seconds). The current time is a parameter `now`.
`fetch_from_gmail` is given one `now` for the whole run.

Places where the code's behaviour differs from what the tool is evidently
intended to do. The model follows the code in each case.

- The store is keyed by `link`, which is `UNIQUE`. The intended key is
  made from a hash of title, company and location.
- A posting whose link is already stored is skipped. No existing row is
  ever updated (no "refreshed URL"). Fetch returns only the number of
  inserted rows.
- `list_jobs` applies `LIMIT` in SQL before the filter runs. It can
  therefore show fewer than `limit` rows even when more matching rows are
  stored.
- The `all` view passes `include_all=True`, so it never filters. This holds
  even with filters enabled (`AllViewShowsEverything`).
- Every whitelisted anchor becomes a posting, with or without a title
  (`ExtractedCount`). The intent is to discard records that
  have no title.
- `settings add` saves a blank value, but the next `load_settings` drops it
  (`BlankAddDroppedOnReload`).

## Model

| member | source | states |
|---|---|---|
| SettingsLayer.FieldNamed | jobs_cli.py:99-107 | a name is a setting exactly when it is one of the seven keys of the defaults |
| SettingsLayer.DaysFrom | jobs_cli.py:134-139 | the age threshold after loading is never negative; it is the integer value when `int()` accepts it and is not negative, 0 when that value is negative, and 30 when `int()` raises |
| SettingsLayer.ParseShow | jobs_cli.py:136 | `int()` reads back every integer `str()` prints |
| SettingsLayer.ParseDigits | jobs_cli.py:603 | `int()` of a digit string, with or without a minus sign, is its decimal value |
| SettingsLayer.KeepNonBlank | jobs_cli.py:133 | the kept list of a list field has no blank entry and is no longer than what was iterated |
| SettingsLayer.KeepNonBlankAppend | jobs_cli.py:133 | the comprehension keeps the items' order and each kept copy once: the strings kept from two runs of items are those of the first run followed by those of the second |
| SettingsLayer.DictKeys | jobs_cli.py:117 | the keys of the dict `json.loads` builds are each key of the object once, and no other |
| SettingsLayer.DictKeysOrder | jobs_cli.py:117 | the dict's keys come in the order of each key's first occurrence among the object's members |
| SettingsLayer.DuplicateKeyIteratedOnce | jobs_cli.py:117-133 | for every object given as a list field, reading it succeeds and keeps each non-blank key exactly once, repeated keys included, and nothing else; with no blank key the keys come in first-occurrence order |
| SettingsLayer.KeepNonBlankMembers | jobs_cli.py:133 | a string is kept exactly when it is a non-blank string item of the iterated value |
| SettingsLayer.MergeKnownKeys | jobs_cli.py:124-128 | the first loop of `load_settings` yields the defaults overwritten by the last value of each known key in the file |
| SettingsLayer.NormalizeFields | jobs_cli.py:131-139 | the second loop yields the normalized settings, or the TypeError that iterating a null, boolean or number list value raises |
| SettingsLayer.NormalizeFails | jobs_cli.py:133 | one list field that cannot be iterated makes `load_settings` fail |
| SettingsLayer.LoadSettings | jobs_cli.py:114-140 | `load_settings` of the file's JSON returns the merged and normalized settings; on success every list is free of blanks and the age threshold is at least 0 |
| SettingsLayer.LoadedIsNormalized | jobs_cli.py:131-139 | whatever the file holds, loaded settings have no blank list entry and a non-negative age threshold |
| SettingsLayer.UnknownKeyIgnored | jobs_cli.py:125-127 | adding a key that is not a setting to the file never changes what is loaded |
| SettingsLayer.NoFileGivesDefaults | jobs_cli.py:115-124 | an empty or missing file loads as the defaults |
| SettingsLayer.NormalizeDefaultDoc | jobs_cli.py:131-139 | the second loop turns the default document into the default settings unchanged |
| SettingsLayer.NormalizeIsNormalized | jobs_cli.py:131-139 | whatever merged dict it is given, the second loop yields settings with no blank list entry and a non-negative age threshold |
| SettingsLayer.MergedDocument | jobs_cli.py:143-145 | the saved document has every field once, so loading it sees each saved value |
| SettingsLayer.SavedListReadsBack | jobs_cli.py:131-143 | a saved list reads back with its blank entries dropped |
| SettingsLayer.SaveLoad | jobs_cli.py:114-146 | loading what `save_settings` wrote gives the settings with blank entries dropped and the age threshold clamped to 0 or more |
| SettingsLayer.SaveLoadRoundTrip | jobs_cli.py:114-146 | normalized settings survive a save followed by a load unchanged |
| SettingsLayer.ListFieldNamed | jobs_cli.py:534-541 | `_ensure_list_field` accepts exactly the six list fields; an unknown name and `max_age_days` each exit with their own error |
| SettingsLayer.SettingsAdd | jobs_cli.py:562-572 | `settings add` exits for a non-list field, leaves a list that already holds the value unchanged, and otherwise saves the list with the value appended and every other field as it was |
| SettingsLayer.AddToList | jobs_cli.py:565-572 | the command's in-place `append` on the loaded list gives the outcome `SettingsAdd` describes |
| SettingsLayer.PatternList.Append | jobs_cli.py:571 | `list.append` adds the value at the end |
| SettingsLayer.FirstIndex | jobs_cli.py:582 | the position `list.remove` deletes at holds the value and has no earlier copy |
| SettingsLayer.FirstIndexAt | jobs_cli.py:582 | a position holding the value with no earlier copy is the one `remove` deletes |
| SettingsLayer.RemoveFirst | jobs_cli.py:582 | `list.remove` deletes one copy of the value, at its first occurrence, and keeps every other entry in order |
| SettingsLayer.PatternList.Remove | jobs_cli.py:582 | the in-place scan-and-shift of `list.remove` leaves the list `RemoveFirst` describes |
| SettingsLayer.RemoveAppended | jobs_cli.py:571-582 | removing a value just appended gives back the list before the append |
| SettingsLayer.SettingsRemove | jobs_cli.py:575-586 | `settings remove` exits for a non-list field, leaves the list unchanged when the value is absent, and otherwise always saves, with the first occurrence of the value cut out of the list (the rest in order) and every other field as it was |
| SettingsLayer.RemoveFromList | jobs_cli.py:578-586 | the command's in-place `remove` gives the outcome `SettingsRemove` describes |
| SettingsLayer.AddTwice | jobs_cli.py:568-571 | adding the same value a second time changes nothing |
| SettingsLayer.AddThenRemove | jobs_cli.py:562-586 | `settings remove` undoes `settings add` of a value that was not present |
| SettingsLayer.BlankAddDroppedOnReload | jobs_cli.py:562-572 | a blank value that `settings add` saves is gone at the next load |
| SettingsLayer.CommaItems | jobs_cli.py:612 | the items `settings set` stores are non-blank and contain no comma, and every non-blank comma-separated piece is stored in stripped form |
| SettingsLayer.StrippedNonBlank | jobs_cli.py:612 | each kept item is the stripped form of one piece, and every non-blank piece is kept in stripped form |
| SettingsLayer.StrippedNonBlankAppend | jobs_cli.py:612 | the comprehension keeps the order of the pieces: the items of two runs of pieces are the first run's items followed by the second's |
| SettingsLayer.CommaItemsJoin | jobs_cli.py:612 | trimmed, non-empty, comma-free items joined with commas are stored exactly as given |
| SettingsLayer.SettingsSet | jobs_cli.py:589-614 | `settings set` exits for an unknown field, for `max_age_days` without a value and for a value `int()` rejects; otherwise it stores `max(0, int(value))`, or the comma items, or an empty list when no value is given, and leaves the other fields as they were |
| SettingsLayer.SetKeepsNormalized | jobs_cli.py:607-613 | `settings set` never stores a blank item or a negative age threshold |
| Text.BlankIffStripsToEmpty | jobs_cli.py:133 | a string is blank exactly when `strip` leaves nothing of it |
| Text.StripShape | jobs_cli.py:342 | `strip` returns a middle part of the string with only whitespace before and after it |
| Text.StripPadding | jobs_cli.py:342 | whitespace around a string never changes its `strip` |
| Text.LowerStrip | jobs_cli.py:342 | lower-casing and stripping commute |
| Text.IndexOf | jobs_cli.py:228 | the position where `split(" at ", 1)` cuts is the first occurrence of the separator, and there is none exactly when the separator does not occur |
| Text.SplitOn | jobs_cli.py:263 | the pieces of `split(sep)` contain no separator; the first piece is the prefix before the first separator |
| Text.JoinSplit | jobs_cli.py:612 | joining the pieces of a split gives back the string |
| Text.SplitJoin | jobs_cli.py:612 | splitting a join of separator-free pieces gives back the pieces |
| EmailParsing.MentionsAny | jobs_cli.py:210-212 | a subject is a job alert exactly when some alert pattern, lower-cased, occurs in the lower-cased subject |
| EmailParsing.AlertPatternAnywhere | jobs_cli.py:203-212 | a subject holding an alert pattern in any letter case, anywhere, is a job alert |
| EmailParsing.AlertSubjectIgnoresCase | jobs_cli.py:210-212 | changing the case of a subject never changes whether it is a job alert |
| EmailParsing.HasAnyDomain | jobs_cli.py:251-254 | an `href` is accepted exactly when it contains `linkedin.com/jobs` or one of the four job-board domains |
| EmailParsing.StripQuery | jobs_cli.py:263 | the stored link is the prefix of `href` before its first `?` and holds no `?` |
| EmailParsing.StripQueryIdempotent | jobs_cli.py:263 | stripping the query twice is the same as once |
| EmailParsing.TitleAndCompany | jobs_cli.py:225-230 | text without ` at ` is the title, or none when empty, with no company; otherwise the text splits at the first ` at ` into the stripped title and company, each none when empty |
| EmailParsing.FirstAtIsSeparator | jobs_cli.py:227-228 | when the title is trimmed, has no ` at ` of its own and does not end in ` at`, the first ` at ` of `title at company` is the one after the title |
| EmailParsing.TitleAtCompany | jobs_cli.py:225-230 | `title at company` with a trimmed title that has no ` at ` and does not end in ` at` and a trimmed company splits back into that title and company |
| EmailParsing.HasSeparatorContains | jobs_cli.py:240 | the separator scan finds a separator exactly when one of `,`, ` - `, ` · `, `•` occurs in the text |
| Text.WordCount | jobs_cli.py:241 | `len(text.split())` is at most the length of the text |
| Text.NoWordsIffAllSpace | jobs_cli.py:241 | a text has no word exactly when it is all whitespace |
| Text.SpaceSeparatesWords | jobs_cli.py:241 | words on either side of any whitespace character count separately: the count of `a + c + b` is the sum of the counts |
| Text.OneWord | jobs_cli.py:241 | a non-empty string without whitespace is one word |
| EmailParsing.FirstLocation | jobs_cli.py:237-243 | the guess is none exactly when no text node of the parent qualifies, and any guess has a separator, at most ten words and does not start with "apply" |
| EmailParsing.FirstLocationIsFirst | jobs_cli.py:237-242 | the guess is the stripped first text node that qualifies |
| EmailParsing.GuessLocation | jobs_cli.py:233-243 | the search loop over the parent's text nodes returns the first qualifying stripped text, and none when there is no parent |
| EmailParsing.Extracted | jobs_cli.py:246-268 | extraction yields at most one posting per anchor; every link holds no `?`, and every posting carries the given source |
| EmailParsing.ExtractedAppend | jobs_cli.py:249-268 | extraction runs in document order: the postings of two anchor runs are those of the first followed by those of the second |
| EmailParsing.ExtractedSingle | jobs_cli.py:250-267 | a single anchor yields its posting when its `href` is whitelisted and nothing otherwise |
| EmailParsing.ExtractedCount | jobs_cli.py:249-268 | there is exactly one posting per whitelisted anchor |
| EmailParsing.SkippedAnchor | jobs_cli.py:251-255 | an anchor whose `href` is not whitelisted contributes nothing wherever it stands |
| EmailParsing.ParseEmailPayload | jobs_cli.py:246-268 | the loop that appends to `jobs` returns the extracted postings |
| JobsDb.InsertValid | jobs_cli.py:316-335 | one insert keeps links unique and ids below the counter and distinct |
| JobsDb.InsertAllValid | jobs_cli.py:316-335 | a batch of inserts keeps links unique and ids issued by the counter |
| JobsDb.InsertAllKeepsRows | jobs_cli.py:316-335 | inserting a batch never changes or removes a stored row (its title, `applied`, `ignored` and `created_at` included) and never lowers the id counter |
| JobsDb.InsertAllNewRows | jobs_cli.py:316-335 | every added row is a fresh, unseen, unapplied, unignored row stamped with `now` and carrying a batch posting's fields |
| JobsDb.InsertAllLinks | jobs_cli.py:316-335 | after a batch the stored links are the old ones plus the batch's links |
| JobsDb.InsertAllCount | jobs_cli.py:316-335 | a batch adds exactly one row per link not already stored |
| JobsDb.InsertAllStored | jobs_cli.py:334-335 | a batch whose links are all stored changes nothing |
| JobsDb.InsertAllTwice | jobs_cli.py:316-335 | running the same batch again adds nothing |
| JobsDb.InsertAllAppend | jobs_cli.py:316 | inserting two batches one after the other is inserting their concatenation |
| JobsDb.JobStore.InsertBatch | jobs_cli.py:316-335 | the insert loop leaves the table the batch insert describes and returns the number of rows added |
| JobsDb.Marked | jobs_cli.py:434-448 | an update always sets `seen_at`, sets `applied` for `apply` and `ignored` for `ignore`, and changes no other column |
| JobsDb.Updated | jobs_cli.py:443-446 | the update rewrites exactly the rows with the given id |
| JobsDb.UpdateUnknownId | jobs_cli.py:439-442 | an unknown id changes no row |
| JobsDb.UpdateOneRow | jobs_cli.py:434-447 | in a valid table the update rewrites one row and keeps the table valid |
| JobsDb.JobStore.UpdateJob | jobs_cli.py:434-448 | `_update_job` reports failure exactly for an unknown id and otherwise marks that row |
| JobsDb.MessagePostings | jobs_cli.py:288-314 | a message whose subject (default "(no subject)") is not an alert, or which has no HTML part, yields no posting; every posting has source "LinkedIn Email" and a link without `?`; an alert with an HTML part yields exactly the postings the extractor finds in it |
| JobsDb.FetchStep | jobs_cli.py:286-335 | one more message inserts its postings after those of the earlier messages |
| JobsDb.JobStore.FetchMessage | jobs_cli.py:288-335 | one message's postings are inserted and counted |
| JobsDb.JobStore.Fetch | jobs_cli.py:273-336 | `fetch_from_gmail` leaves the table all messages' postings inserted in order and returns the number of rows added |
| JobsDb.FetchTwice | jobs_cli.py:273-336 | fetching the same messages again adds nothing |
| JobsDb.FetchAddsNewLinks | jobs_cli.py:273-336 | a fetch keeps every stored row, adds one row per new link and afterwards stores exactly the old links plus the fetched ones |
| Filtering.NormalizeValue | jobs_cli.py:341-342 | `_normalize` gives the stripped input up to case, with no upper-case letter and no whitespace at either end (None counts as the empty string) |
| Filtering.NormalizeAll | jobs_cli.py:353-373 | each pattern list is normalized entry by entry |
| Filtering.AnyInExists | jobs_cli.py:354-374 | `any(p in value ...)` holds exactly when some pattern occurs in the value |
| Filtering.JobMatchesFilters | jobs_cli.py:345-390 | with `include_all` every row is accepted; otherwise a row is accepted exactly when every non-empty include list mentions its field, no exclude list does, and it is not too old |
| Filtering.MentionsPattern | jobs_cli.py:341-374 | a list mentions a field exactly when one of its normalized patterns is a substring of the normalized field |
| Filtering.ExcludeWins | jobs_cli.py:357-375 | a row whose title, company or location contains an exclude pattern is rejected whatever the include lists say |
| Filtering.NormalizeIgnoresCaseAndPadding | jobs_cli.py:341-342 | whitespace around a value and the case of its letters do not change its normalized form |
| Filtering.FilterSeesOnlyNormalized | jobs_cli.py:345-390 | two rows or two settings that agree after normalization get the same decision |
| Filtering.TitleCaseAndPadding | jobs_cli.py:349-355 | padding or re-casing a title never changes whether the row is shown |
| Filtering.PatternCaseAndPadding | jobs_cli.py:353-374 | padding or re-casing a pattern never changes whether a row is shown |
| Filtering.AgeBoundary | jobs_cli.py:377-386 | the age check passes a row exactly `max_age_days` days old and fails one a second older, and with a threshold of 0 it passes every row |
| Filtering.AgeBoundaryShown | jobs_cli.py:344-386 | a row that passes the other checks is shown at exactly `max_age_days` days old and hidden one second later |
| Listing.InsertByDate | jobs_cli.py:409-414 | inserting a row into a newest-first list keeps it newest first and adds just that row |
| Listing.SortNewestFirst | jobs_cli.py:409-414 | `ORDER BY created_at DESC` yields a permutation of the rows, newest first, with rows lacking a date last |
| Listing.OpenRows | jobs_cli.py:413 | `WHERE applied=0 AND ignored=0` keeps exactly the open rows |
| Listing.Take | jobs_cli.py:409-410 | `LIMIT` keeps a prefix of at most `limit` rows (so a sub-multiset of the rows), and all rows for a negative limit |
| Listing.KeepMatching | jobs_cli.py:420 | the list comprehension keeps exactly the rows the filter accepts |
| Listing.KeepMatchingAppend | jobs_cli.py:420 | the comprehension keeps the rows' order: the rows kept from two runs are those kept from the first followed by those kept from the second |
| Listing.KeepMatchingSorted | jobs_cli.py:420 | filtering a newest-first list leaves it newest first |
| Listing.Selected | jobs_cli.py:409-414 | the `WHERE` clause keeps every stored row in the `all` view and exactly the open rows otherwise |
| Listing.QueryRows | jobs_cli.py:409-417 | the query returns selected rows, newest first: exactly min(`limit`, selected) of them, every selected row when there is no limit, and no selected row it leaves out is newer than one it returns |
| Listing.ListJobs | jobs_cli.py:405-422 | `list_jobs` shows, newest first, exactly the queried rows, minus those the loaded settings reject when filters are on outside the `all` view |
| Listing.DefaultViewComplete | jobs_cli.py:405-422 | when there is no limit or the open rows fit within it, the default view shows every open row the filter accepts |
| Listing.NewerRowShown | jobs_cli.py:405-422 | an open row the filter accepts is shown whenever it is strictly newer than some row the query returned |
| Listing.AllViewShowsEverything | jobs_cli.py:405-420 | without a limit the `all` view shows every stored row, with filters on or off |
| Listing.KeepAll | jobs_cli.py:420 | a filter that accepts every row keeps the list as it is |
| Listing.MarkedJobHidden | jobs_cli.py:479-494 | after `apply` or `ignore` the job is absent from the default view |

## Left out

- Gmail OAuth and the message list and get calls are not modelled. A
  message is given as its subject header and the anchors of its HTML part,
  if it has one.
- The MIME-part walk, base64 decoding and BeautifulSoup/html5lib parsing are
  not modelled. An anchor's text is taken to be what `get_text(" ",
  strip=True)` returns, and its parent is the list of its text nodes.
- When several headers are named "subject", the dict keeps the last one.
  The model takes the subject as given.
- `max_results` is not modelled.
- JobsDb.JobStore.Fetch: the whole message loop of `fetch_from_gmail` runs
  inside one `with db() as conn:` transaction. An exception from a later
  message's `messages().get` call or from base64 decoding rolls back every
  insert of the run. The model has no such failures, so its `Fetch` always
  commits every insert. It does not capture that all-or-nothing behaviour.
- `_extract_links_from_html` is not modelled. Nothing in the listed paths
  calls it.
- SQLite itself is not modelled: connections, schema creation and SQL
  text. The table is a sequence of rows plus the AUTOINCREMENT counter. A
  rejected insert does not consume an id.
- `posted_at` is not modelled. The code always stores NULL for it.
- `datetime.now()` and ISO-8601 text are modelled as integer seconds. One
  `now` is used per command. `ORDER BY created_at` is modelled as numeric
  order rather than text order.
- Listing.SortNewestFirst: the order among rows with equal `created_at`
  is not specified. SQLite leaves it open, so the contracts state only
  newest-first order and the permutation.
- Filtering.TooOld: an unparsable `created_at` (ValueError) is modelled as
  a missing one, which skips the age check. Time zones are not modelled.
  The OverflowError of `timedelta` for a huge `max_age_days` is not
  modelled.
- The settings file is not read or written. The model starts from the JSON
  value of `settings.json`. A missing file and a file with invalid JSON both
  load as the empty object.
- JSON floats are not modelled, so neither is `int()` on a float.
- SettingsLayer.ParseInt: `int()` is modelled for optional surrounding
  whitespace, an optional sign and ASCII digits. Underscores between digits
  and non-ASCII digits are not accepted by the model.
- Whitespace and lower-casing are modelled for ASCII characters only.
- Rich output, `format_row`, Typer wiring, `open` (webbrowser), `reset`,
  `settings reset`, `settings_main` and the table rendering of
  `settings show` are not modelled. They are output and process glue.
