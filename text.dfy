/**
 * The string operations the alert parser and the filters are written with:
 * Python's `str.strip`, `str.lower`, the `in` substring test, the cut of
 * `str.split(sep, 1)`, `str.split()` (word count) and `str.split(sep)`.
 *
 * Whitespace is what Python's `str.isspace` accepts among ASCII characters and
 * lower-casing maps only 'A'..'Z'; non-ASCII case and spacing are not modelled.
 */
module Text {
  import opened Wrappers

  /** Python's `str.isspace` on ASCII: tab, line feed, vertical tab, form feed,
      carriage return, the separators 0x1C..0x1F, and space. */
  predicate IsSpace(c: char) {
    ('\t' <= c <= '\r') || ('\U{001C}' <= c <= ' ')
  }

  predicate AllSpace(s: string) {
    forall i :: 0 <= i < |s| ==> IsSpace(s[i])
  }

  /** `s.lstrip()`: drops leading whitespace and nothing else. */
  function TrimStart(s: string): (r: string)
    ensures |r| <= |s|
    ensures r != [] ==> !IsSpace(r[0])
  {
    if s != [] && IsSpace(s[0]) then TrimStart(s[1..]) else s
  }

  /** What `lstrip` drops is whitespace, and it keeps a suffix. */
  lemma {:induction false} TrimStartShape(s: string)
    ensures var r := TrimStart(s);
      r == s[|s| - |r|..] && AllSpace(s[..|s| - |r|])
  {
    if s != [] && IsSpace(s[0]) {
      TrimStartShape(s[1..]);
      var r := TrimStart(s[1..]);
      assert s[1..][|s| - 1 - |r|..] == s[|s| - |r|..];
      assert s[..|s| - |r|] == [s[0]] + s[1..][..|s| - 1 - |r|];
    }
  }

  /** `s.rstrip()`: drops trailing whitespace and nothing else. */
  function TrimEnd(s: string): (r: string)
    ensures |r| <= |s|
    ensures r != [] ==> r[0] == s[0] && !IsSpace(r[|r| - 1])
  {
    if s != [] && IsSpace(s[|s| - 1]) then TrimEnd(s[..|s| - 1]) else s
  }

  /** What `rstrip` drops is whitespace, and it keeps a prefix. */
  lemma {:induction false} TrimEndShape(s: string)
    ensures var r := TrimEnd(s);
      r == s[..|r|] && AllSpace(s[|r|..])
  {
    if s != [] && IsSpace(s[|s| - 1]) {
      var n := |s|;
      TrimEndShape(s[..n - 1]);
      var r := TrimEnd(s[..n - 1]);
      assert s[..n - 1][..|r|] == s[..|r|];
      assert s[|r|..] == s[..n - 1][|r|..] + [s[n - 1]];
    }
  }

  /** `s.strip()`: the longest middle part of `s` that neither starts nor ends
      with whitespace, everything around it being whitespace. */
  function Strip(s: string): (r: string)
    ensures r != [] ==> !IsSpace(r[0]) && !IsSpace(r[|r| - 1])
  {
    TrimEnd(TrimStart(s))
  }

  /** What `strip` keeps is a middle part of the string with only whitespace
      around it. */
  lemma StripShape(s: string)
    ensures var r := Strip(s);
      exists a :: 0 <= a <= |s| - |r| && r == s[a..a + |r|] && AllSpace(s[..a]) && AllSpace(s[a + |r|..])
  {
    var t := TrimStart(s);
    var r := TrimEnd(t);
    var a := |s| - |t|;
    TrimStartShape(s);
    TrimEndShape(t);
    assert r == s[a..a + |r|] && s[a + |r|..] == t[|r|..];
    assert AllSpace(s[..a]) && AllSpace(s[a + |r|..]);
    assert 0 <= a <= |s| - |r| && r == s[a..a + |r|] && AllSpace(s[..a]) && AllSpace(s[a + |r|..]);
  }

  /** `not s.strip()`: the string is empty or only whitespace. */
  predicate IsBlank(s: string) {
    AllSpace(s)
  }

  /** A string is blank exactly when `strip` leaves nothing of it. */
  lemma BlankIffStripsToEmpty(s: string)
    ensures IsBlank(s) <==> Strip(s) == []
  {
    var t := TrimStart(s);
    if AllSpace(s) {
      AllSpaceTrimsToEmpty(s);
    }
    if Strip(s) == [] {
      TrimStartShape(s);
      TrimEndShape(t);
      assert AllSpace(t[0..]) && t[0..] == t;
      assert s == s[..|s| - |t|] + t;
    }
  }

  lemma {:induction false} TrimStartSpaces(pre: string, s: string)
    requires AllSpace(pre)
    ensures TrimStart(pre + s) == TrimStart(s)
  {
    if pre != [] {
      assert (pre + s)[1..] == pre[1..] + s;
      TrimStartSpaces(pre[1..], s);
    } else {
      assert pre + s == s;
    }
  }

  lemma {:induction false} TrimEndSpaces(s: string, post: string)
    requires AllSpace(post)
    ensures TrimEnd(s + post) == TrimEnd(s)
  {
    if post != [] {
      var n := |post|;
      assert (s + post)[..|s| + n - 1] == s + post[..n - 1];
      TrimEndSpaces(s, post[..n - 1]);
    } else {
      assert s + post == s;
    }
  }

  lemma {:induction false} TrimStartAppend(s: string, post: string)
    ensures AllSpace(s) ==> TrimStart(s + post) == TrimStart(post)
    ensures !AllSpace(s) ==> TrimStart(s + post) == TrimStart(s) + post
  {
    if s == [] {
      assert s + post == post;
    } else if IsSpace(s[0]) {
      assert (s + post)[1..] == s[1..] + post;
      assert AllSpace(s) == AllSpace(s[1..]) by {
        assert forall i :: 1 <= i < |s| ==> s[i] == s[1..][i - 1];
      }
      TrimStartAppend(s[1..], post);
    } else {
      assert !AllSpace(s) && (s + post)[0] == s[0];
    }
  }

  lemma AllSpaceTrimsToEmpty(s: string)
    requires AllSpace(s)
    ensures TrimStart(s) == []
  {
    TrimStartSpaces(s, []);
    assert s + [] == s;
  }

  /** Whitespace around a value never changes what `strip` returns. */
  lemma StripPadding(pre: string, s: string, post: string)
    requires AllSpace(pre) && AllSpace(post)
    ensures Strip(pre + s + post) == Strip(s)
  {
    calc {
      TrimStart(pre + s + post);
      { assert pre + s + post == pre + (s + post); }
      TrimStart(pre + (s + post));
      { TrimStartSpaces(pre, s + post); }
      TrimStart(s + post);
    }
    TrimStartAppend(s, post);
    if AllSpace(s) {
      AllSpaceTrimsToEmpty(post);
      AllSpaceTrimsToEmpty(s);
    } else {
      TrimEndSpaces(TrimStart(s), post);
    }
  }

  /** `strip` keeps only characters of its input. */
  lemma StripChars(s: string)
    ensures forall c :: c in Strip(s) ==> c in s
  {
    var t := TrimStart(s);
    TrimStartShape(s);
    TrimEndShape(t);
    forall c | c in Strip(s) ensures c in s {
      var i :| 0 <= i < |Strip(s)| && Strip(s)[i] == c;
      assert t[i] == c;
      assert s[|s| - |t| + i] == c;
    }
  }

  /** Python's `str.lower` on one ASCII character. */
  function LowerChar(c: char): char {
    if 'A' <= c <= 'Z' then (c as int + 32) as char else c
  }

  /** `s.lower()`, character by character. */
  function Lower(s: string): (r: string)
    ensures |r| == |s|
    ensures forall i :: 0 <= i < |s| ==> r[i] == LowerChar(s[i])
  {
    if s == [] then [] else [LowerChar(s[0])] + Lower(s[1..])
  }

  /** Two strings that differ at most in the case of their letters. */
  predicate SameIgnoringCase(a: string, b: string) {
    |a| == |b| && forall i :: 0 <= i < |a| ==> LowerChar(a[i]) == LowerChar(b[i])
  }

  lemma {:induction false} LowerTrimStart(s: string)
    ensures Lower(TrimStart(s)) == TrimStart(Lower(s))
  {
    if s != [] {
      assert Lower(s)[1..] == Lower(s[1..]);
      LowerTrimStart(s[1..]);
    }
  }

  lemma {:induction false} LowerTrimEnd(s: string)
    ensures Lower(TrimEnd(s)) == TrimEnd(Lower(s))
  {
    if s != [] {
      var n := |s|;
      assert Lower(s)[..n - 1] == Lower(s[..n - 1]);
      LowerTrimEnd(s[..n - 1]);
    }
  }

  /** Lower-casing and stripping commute: case never turns a character into
      whitespace or back. */
  lemma LowerStrip(s: string)
    ensures Lower(Strip(s)) == Strip(Lower(s))
  {
    LowerTrimStart(s);
    LowerTrimEnd(TrimStart(s));
  }

  /** Python's `p in s` for strings: `p` occurs in `s` at position `i`. */
  predicate OccursAt(s: string, p: string, i: int) {
    0 <= i && i + |p| <= |s| && s[i..i + |p|] == p
  }

  /** Python's `p in s`. */
  predicate Contains(s: string, p: string) {
    exists i :: 0 <= i <= |s| && OccursAt(s, p, i)
  }

  /** The first position at which `p` occurs: where `s.split(p, 1)` cuts
      the string, or None when it does not occur and the split keeps one
      piece. */
  function IndexOf(s: string, p: string): (r: Option<nat>)
    ensures r.Some? ==> OccursAt(s, p, r.value)
    ensures r.Some? ==> forall j :: 0 <= j < r.value ==> !OccursAt(s, p, j)
    ensures r.Some? <==> Contains(s, p)
  {
    if p <= s then
      assert OccursAt(s, p, 0);
      Some(0)
    else if s == [] then
      assert forall j :: 0 <= j <= |s| ==> !OccursAt(s, p, j);
      None
    else
      var rest := IndexOf(s[1..], p);
      OccursShift(s, p);
      match rest
      case None => None
      case Some(i) => Some(i + 1)
  }

  /** An occurrence after the first character is an occurrence in the tail. */
  lemma OccursShift(s: string, p: string)
    requires s != []
    ensures forall j :: 1 <= j <= |s| ==> (OccursAt(s, p, j) <==> OccursAt(s[1..], p, j - 1))
  {
    forall j | 1 <= j <= |s|
      ensures OccursAt(s, p, j) <==> OccursAt(s[1..], p, j - 1)
    {
      if j + |p| <= |s| {
        var a, b := s[j..j + |p|], s[1..][j - 1..j - 1 + |p|];
        forall k | 0 <= k < |p| ensures a[k] == b[k] {
          assert a[k] == s[j + k] && b[k] == s[1..][j - 1 + k];
        }
        assert a == b;
      }
    }
  }

  /** A non-empty string that starts with a non-space is not blank. */
  lemma NotBlank(s: string)
    requires s != [] && !IsSpace(s[0])
    ensures !IsBlank(s)
  {
  }

  function StartsWith(s: string, p: string): bool {
    p <= s
  }

  function EndsWith(s: string, p: string): bool {
    |p| <= |s| && s[|s| - |p|..] == p
  }

  /** How many words `s` has after `afterSpace`: a word starts at a
      non-whitespace character that follows whitespace or the start. */
  function CountWords(s: string, afterSpace: bool): nat {
    if s == [] then 0
    else (if !IsSpace(s[0]) && afterSpace then 1 else 0) + CountWords(s[1..], IsSpace(s[0]))
  }

  /** `len(s.split())`: the number of maximal runs of non-whitespace. */
  function WordCount(s: string): (r: nat)
    ensures r <= |s|
  {
    CountWordsBound(s, true);
    CountWords(s, true)
  }

  lemma {:induction false} CountWordsBound(s: string, afterSpace: bool)
    ensures CountWords(s, afterSpace) <= |s|
  {
    if s != [] {
      CountWordsBound(s[1..], IsSpace(s[0]));
    }
  }

  /** A string has no word exactly when it is all whitespace. */
  lemma {:induction false} NoWordsIffAllSpace(s: string)
    ensures WordCount(s) == 0 <==> AllSpace(s)
  {
    if s != [] {
      NoWordsIffAllSpace(s[1..]);
      assert AllSpace(s) <==> IsSpace(s[0]) && AllSpace(s[1..]) by {
        assert forall i :: 1 <= i < |s| ==> s[i] == s[1..][i - 1];
      }
    }
  }

  /** Counting across a concatenation: the second part is counted from where
      the first part leaves off. */
  lemma {:induction false} CountWordsAppend(a: string, b: string, afterSpace: bool)
    ensures CountWords(a + b, afterSpace) ==
      CountWords(a, afterSpace) + CountWords(b, if a == [] then afterSpace else IsSpace(a[|a| - 1]))
  {
    if a == [] {
      assert a + b == b;
    } else {
      assert (a + b)[0] == a[0] && (a + b)[1..] == a[1..] + b;
      CountWordsAppend(a[1..], b, IsSpace(a[0]));
    }
  }

  /** Words separated by any whitespace character count separately:
      `len((a + c + b).split())` is the sum of the two counts. */
  lemma SpaceSeparatesWords(a: string, c: char, b: string)
    requires IsSpace(c)
    ensures WordCount(a + [c] + b) == WordCount(a) + WordCount(b)
  {
    CountWordsAppend(a, [c] + b, true);
    CountWordsAppend([c], b, if a == [] then true else IsSpace(a[|a| - 1]));
    assert a + [c] + b == a + ([c] + b);
  }

  /** A non-empty run of non-whitespace is one word. */
  lemma OneWord(s: string)
    requires s != [] && forall i :: 0 <= i < |s| ==> !IsSpace(s[i])
    ensures WordCount(s) == 1
  {
    NoSpaceNoNewWord(s[1..]);
  }

  /** Inside a word, a run of non-whitespace starts no further word. */
  lemma {:induction false} NoSpaceNoNewWord(s: string)
    requires forall i :: 0 <= i < |s| ==> !IsSpace(s[i])
    ensures CountWords(s, false) == 0
  {
    if s != [] {
      assert forall i :: 0 <= i < |s[1..]| ==> s[1..][i] == s[i + 1];
      NoSpaceNoNewWord(s[1..]);
    }
  }

  /** `s.split(sep)` for a one-character separator: the pieces between the
      separators, in order, at least one (possibly empty) piece. */
  function SplitOn(s: string, sep: char): (r: seq<string>)
    ensures |r| >= 1
    ensures forall i :: 0 <= i < |r| ==> sep !in r[i]
    ensures r[0] <= s
    ensures sep !in s ==> r == [s]
    ensures sep in s ==> |r[0]| < |s| && s[|r[0]|] == sep
  {
    if s == [] then [""]
    else
      var rest := SplitOn(s[1..], sep);
      if s[0] == sep then [""] + rest
      else
        assert [s[0]] + s[1..] == s;
        [[s[0]] + rest[0]] + rest[1..]
  }

  /** `sep.join(parts)`. */
  function Join(parts: seq<string>, sep: char): string
    requires |parts| >= 1
  {
    if |parts| == 1 then parts[0] else parts[0] + [sep] + Join(parts[1..], sep)
  }

  /** Joining the pieces of a split gives back the original string. */
  lemma {:induction false} JoinSplit(s: string, sep: char)
    ensures Join(SplitOn(s, sep), sep) == s
  {
    if s != [] {
      var rest := SplitOn(s[1..], sep);
      JoinSplit(s[1..], sep);
      if s[0] == sep {
        assert SplitOn(s, sep) == [""] + rest;
        assert ([""] + rest)[1..] == rest;
      } else {
        var parts := [[s[0]] + rest[0]] + rest[1..];
        assert SplitOn(s, sep) == parts;
        if |rest| == 1 {
          assert Join(parts, sep) == [s[0]] + rest[0];
        } else {
          assert parts[1..] == rest[1..];
          assert Join(parts, sep) == ([s[0]] + rest[0]) + [sep] + Join(rest[1..], sep);
        }
      }
    }
  }

  lemma {:induction false} SplitAfterPiece(a: string, b: string, sep: char)
    requires sep !in a
    ensures SplitOn(a + [sep] + b, sep) == [a] + SplitOn(b, sep)
  {
    if a == [] {
      assert a + [sep] + b == [sep] + b;
      assert ([sep] + b)[1..] == b;
    } else {
      assert (a + [sep] + b)[1..] == a[1..] + [sep] + b;
      SplitAfterPiece(a[1..], b, sep);
      assert [a[0]] + a[1..] == a;
    }
  }

  /** Splitting a join of separator-free pieces gives back the pieces. */
  lemma {:induction false} SplitJoin(parts: seq<string>, sep: char)
    requires |parts| >= 1
    requires forall i :: 0 <= i < |parts| ==> sep !in parts[i]
    ensures SplitOn(Join(parts, sep), sep) == parts
  {
    if |parts| > 1 {
      SplitJoin(parts[1..], sep);
      SplitAfterPiece(parts[0], Join(parts[1..], sep), sep);
      assert [parts[0]] + parts[1..] == parts;
    }
  }
}
