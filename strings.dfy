/** Python's `str` operations that the core relies on, over Dafny strings (sequences of
    Unicode scalar values, which is what Python's `len` and indexing count). */
module Strings {
  import opened Results

  /** Python's `str.isspace()`: the characters `strip()` without arguments removes. */
  predicate IsSpace(c: char) {
    || '\t' <= c <= '\r'
    || '\U{1C}' <= c <= ' '
    || c == '\U{85}' || c == '\U{A0}' || c == '\U{1680}'
    || '\U{2000}' <= c <= '\U{200A}'
    || c == '\U{2028}' || c == '\U{2029}' || c == '\U{202F}' || c == '\U{205F}' || c == '\U{3000}'
  }

  /** The characters at which Python's `str.splitlines()` ends a line. */
  const LineBreaks: set<char> := {
    '\n', '\r', '\U{0B}', '\U{0C}', '\U{1C}', '\U{1D}', '\U{1E}', '\U{85}', '\U{2028}', '\U{2029}'
  }

  /** No character of `s` is in `cs`. */
  predicate Avoids(s: string, cs: set<char>) {
    forall i :: 0 <= i < |s| ==> s[i] !in cs
  }

  /** Python's `s.lstrip(chars)`, with `drop` telling which characters are in `chars`: the
      suffix left after removing the leading ones. */
  function StripLeft(s: string, drop: char -> bool): (r: string)
    ensures |r| <= |s| && r == s[|s| - |r|..]
    ensures r == [] || !drop(r[0])
    ensures forall i :: 0 <= i < |s| - |r| ==> drop(s[i])
  {
    if |s| > 0 && drop(s[0]) then
      var r := StripLeft(s[1..], drop);
      assert forall i :: 1 <= i < |s| ==> s[i] == s[1..][i - 1];
      r
    else s
  }

  /** Python's `s.rstrip(chars)`, with `drop` telling which characters are in `chars`: the
      prefix left after removing the trailing ones. */
  function StripRight(s: string, drop: char -> bool): (r: string)
    ensures |r| <= |s| && r == s[..|r|]
    ensures r == [] || !drop(r[|r| - 1])
    ensures forall i :: |r| <= i < |s| ==> drop(s[i])
  {
    if |s| > 0 && drop(s[|s| - 1]) then
      var r := StripRight(s[..|s| - 1], drop);
      assert forall i :: 0 <= i < |s| - 1 ==> s[i] == s[..|s| - 1][i];
      r
    else s
  }

  /** Python's `s.strip()`: `s` without its leading and trailing whitespace. */
  function Strip(s: string): string
    decreases |s|
  {
    if |s| > 0 && IsSpace(s[0]) then Strip(s[1..])
    else if |s| > 0 && IsSpace(s[|s| - 1]) then Strip(s[..|s| - 1])
    else s
  }

  /** The stripped text is no longer than the original and neither starts nor ends with
      whitespace. */
  lemma {:induction false} StripTrims(s: string)
    ensures var r := Strip(s);
      |r| <= |s| && (r == [] || (!IsSpace(r[0]) && !IsSpace(r[|r| - 1])))
    decreases |s|
  {
    if |s| > 0 && IsSpace(s[0]) {
      StripTrims(s[1..]);
    } else if |s| > 0 && IsSpace(s[|s| - 1]) {
      StripTrims(s[..|s| - 1]);
    }
  }

  /** `s.strip()` is a substring of `s`, and it is empty exactly when `s` is all whitespace. */
  lemma StripSpec(s: string)
    ensures Strip(s) == [] <==> (forall i :: 0 <= i < |s| ==> IsSpace(s[i]))
    ensures exists k :: OccursAt(s, Strip(s), k)
  {
    StripBlank(s);
    StripOccurs(s);
  }

  lemma {:induction false} StripBlank(s: string)
    ensures Strip(s) == [] <==> (forall i :: 0 <= i < |s| ==> IsSpace(s[i]))
    decreases |s|
  {
    if |s| > 0 && IsSpace(s[0]) {
      var t := s[1..];
      StripBlank(t);
      assert forall i :: 1 <= i < |s| ==> s[i] == t[i - 1];
    } else if |s| > 0 && IsSpace(s[|s| - 1]) {
      var t := s[..|s| - 1];
      StripBlank(t);
      assert forall i :: 0 <= i < |s| - 1 ==> s[i] == t[i];
    }
  }

  lemma {:induction false} StripOccurs(s: string)
    ensures exists k :: OccursAt(s, Strip(s), k)
    decreases |s|
  {
    var r := Strip(s);
    if |s| > 0 && IsSpace(s[0]) {
      var t := s[1..];
      assert r == Strip(t);
      StripOccurs(t);
      var k :| OccursAt(t, r, k);
      forall j | k + 1 <= j < k + 1 + |r| ensures s[j] == t[j - 1] {
      }
      assert s[k + 1..k + 1 + |r|] == t[k..k + |r|];
      assert OccursAt(s, r, k + 1);
    } else if |s| > 0 && IsSpace(s[|s| - 1]) {
      var t := s[..|s| - 1];
      assert r == Strip(t);
      StripOccurs(t);
      var k :| OccursAt(t, r, k);
      forall j | k <= j < k + |r| ensures s[j] == t[j] {
      }
      assert s[k..k + |r|] == t[k..k + |r|];
      assert OccursAt(s, r, k);
    } else {
      assert s[0..|s|] == s;
      assert OccursAt(s, r, 0);
    }
  }

  /** `s` is empty once stripped. */
  predicate IsBlank(s: string) {
    Strip(s) == []
  }

  /** Stripping twice is stripping once. */
  lemma StripIdempotent(s: string)
    ensures Strip(Strip(s)) == Strip(s)
  {
    StripTrims(s);
    StripOfTrimmed(Strip(s));
  }

  /** A string that neither starts nor ends with whitespace is its own stripped form. */
  lemma StripOfTrimmed(s: string)
    requires s == [] || (!IsSpace(s[0]) && !IsSpace(s[|s| - 1]))
    ensures Strip(s) == s
  {
  }

  /** Leading white space in front of a trimmed text is what `strip()` removes. */
  lemma {:induction false} StripOfSpacesThen(w: string, s: string)
    requires forall i :: 0 <= i < |w| ==> IsSpace(w[i])
    requires s == [] || (!IsSpace(s[0]) && !IsSpace(s[|s| - 1]))
    ensures Strip(w + s) == s
    decreases |w|
  {
    if w != [] {
      assert (w + s)[1..] == w[1..] + s;
      StripOfSpacesThen(w[1..], s);
    }
  }

  /** `lstrip` removes a run of dropped characters up to the first kept one. */
  lemma {:induction false} StripLeftOfRun(b: string, s: string, drop: char -> bool)
    requires forall i :: 0 <= i < |b| ==> drop(b[i])
    requires s == [] || !drop(s[0])
    ensures StripLeft(b + s, drop) == s
    decreases |b|
  {
    if b != [] {
      assert (b + s)[1..] == b[1..] + s;
      StripLeftOfRun(b[1..], s, drop);
    }
  }

  /** The first occurrence of `pat` is at `i` when it occurs there and nowhere before. */
  lemma FindFirst(s: string, pat: string, i: nat)
    requires OccursAt(s, pat, i) && forall j :: 0 <= j < i ==> !OccursAt(s, pat, j)
    ensures Find(s, pat) == Some(i)
  {
  }

  /** Python's `s.startswith(p)`. */
  predicate StartsWith(s: string, p: string) {
    |p| <= |s| && s[..|p|] == p
  }

  /** Python's `s.endswith(p)`. */
  predicate EndsWith(s: string, p: string) {
    |p| <= |s| && s[|s| - |p|..] == p
  }

  /** `pat` occurs in `s` at position `i`. */
  predicate OccursAt(s: string, pat: string, i: int) {
    0 <= i && i + |pat| <= |s| && s[i..i + |pat|] == pat
  }

  /** Python's `s.find(pat)`: the first position at which `pat` occurs, if any. */
  function Find(s: string, pat: string): (r: Option<nat>)
    ensures r.Some? ==> OccursAt(s, pat, r.value)
    ensures forall i :: 0 <= i && (r.None? || i < r.value) ==> !OccursAt(s, pat, i)
    decreases |s|
  {
    if |s| < |pat| then None
    else if s[..|pat|] == pat then Some(0)
    else
      var rest := Find(s[1..], pat);
      forall i | 1 <= i ensures OccursAt(s, pat, i) == OccursAt(s[1..], pat, i - 1) {
        if i + |pat| <= |s| {
          var u := s[1..];
          assert u[i - 1..] == s[i..];
          assert u[i - 1..i - 1 + |pat|] == u[i - 1..][..|pat|];
          assert s[i..i + |pat|] == s[i..][..|pat|];
        }
      }
      match rest
      case None => None
      case Some(i) => Some(i + 1)
  }

  /** Python's `pat in s`. */
  predicate Contains(s: string, pat: string) {
    Find(s, pat).Some?
  }

  /** Python's `s.replace(pat, rep, 1)`. */
  function ReplaceFirst(s: string, pat: string, rep: string): (r: string)
    ensures Find(s, pat).None? ==> r == s
    ensures Find(s, pat).Some? ==>
              var i := Find(s, pat).value; r == s[..i] + rep + s[i + |pat|..]
  {
    match Find(s, pat)
    case None => s
    case Some(i) => s[..i] + rep + s[i + |pat|..]
  }

  /** Python's `s.replace(pat, rep)` for a non-empty `pat`: a left-to-right scan that
      replaces non-overlapping occurrences. */
  function ReplaceAll(s: string, pat: string, rep: string): string
    requires |pat| > 0
    decreases |s|
  {
    if |s| < |pat| then s
    else if s[..|pat|] == pat then rep + ReplaceAll(s[|pat|..], pat, rep)
    else [s[0]] + ReplaceAll(s[1..], pat, rep)
  }

  /** Replacing a pattern that does not occur changes nothing. */
  lemma {:induction false} ReplaceAllAbsent(s: string, pat: string, rep: string)
    requires |pat| > 0 && !Contains(s, pat)
    ensures ReplaceAll(s, pat, rep) == s
    decreases |s|
  {
    if |s| >= |pat| {
      ReplaceAllAbsent(s[1..], pat, rep);
    }
  }

  /** Replacing a pattern by itself changes nothing. */
  lemma {:induction false} ReplaceAllSelf(s: string, pat: string)
    requires |pat| > 0
    ensures ReplaceAll(s, pat, pat) == s
    decreases |s|
  {
    if |s| >= |pat| {
      if s[..|pat|] == pat {
        ReplaceAllSelf(s[|pat|..], pat);
        assert s == s[..|pat|] + s[|pat|..];
      } else {
        ReplaceAllSelf(s[1..], pat);
        assert s == [s[0]] + s[1..];
      }
    }
  }

  /** Python's `s.replace(" ", "")` removes every ASCII space and keeps every other character. */
  lemma {:induction false} RemoveSpaces(s: string)
    ensures forall i :: 0 <= i < |ReplaceAll(s, " ", "")| ==> ReplaceAll(s, " ", "")[i] != ' '
    ensures |ReplaceAll(s, " ", "")| == |s| - multiset(s)[' ']
    decreases |s|
  {
    if |s| >= 1 {
      RemoveSpaces(s[1..]);
      assert s == [s[0]] + s[1..];
      assert multiset(s) == multiset{s[0]} + multiset(s[1..]);
    }
  }

  /** Python's `sep.join(parts)`. */
  function Join(parts: seq<string>, sep: string): string
  {
    if |parts| == 0 then ""
    else if |parts| == 1 then parts[0]
    else parts[0] + sep + Join(parts[1..], sep)
  }

  /** Python's `s.split(c)` for a one-character separator, generalised to a set of
      separator characters: the pieces between separators, always at least one. */
  function Split(s: string, seps: set<char>): (r: seq<string>)
    ensures |r| >= 1
    ensures forall k :: 0 <= k < |r| ==> Avoids(r[k], seps)
  {
    if s == [] then [""]
    else
      var rest := Split(s[1..], seps);
      if s[0] in seps then [""] + rest else [[s[0]] + rest[0]] + rest[1..]
  }

  /** Splitting a separator-free prefix glues it to the first piece. */
  lemma {:induction false} SplitPrefix(x: string, t: string, seps: set<char>)
    requires Avoids(x, seps)
    ensures Split(x + t, seps) == [x + Split(t, seps)[0]] + Split(t, seps)[1..]
  {
    if x != [] {
      assert (x + t)[1..] == x[1..] + t;
      SplitPrefix(x[1..], t, seps);
      assert [x[0]] + (x[1..] + Split(t, seps)[0]) == x + Split(t, seps)[0];
    } else {
      var r := Split(t, seps);
      assert x + t == t;
      assert x + r[0] == r[0];
      assert r == [r[0]] + r[1..];
    }
  }

  /** Split undoes Join when no part contains the separator. */
  lemma {:induction false} SplitJoin(parts: seq<string>, c: char)
    requires |parts| >= 1
    requires forall k :: 0 <= k < |parts| ==> Avoids(parts[k], {c})
    ensures Split(Join(parts, [c]), {c}) == parts
  {
    if |parts| == 1 {
      SplitPrefix(parts[0], "", {c});
      assert parts[0] + "" == parts[0];
    } else {
      var rest := Join(parts[1..], [c]);
      SplitJoin(parts[1..], c);
      assert Join(parts, [c]) == parts[0] + ([c] + rest);
      SplitPrefix(parts[0], [c] + rest, {c});
      assert ([c] + rest)[1..] == rest;
      assert Split([c] + rest, {c}) == [""] + Split(rest, {c});
      assert parts[0] + "" == parts[0];
      assert parts == [parts[0]] + parts[1..];
    }
  }

  /** Stripping keeps only characters of the string, so it adds none of `cs`. */
  lemma StripAvoids(s: string, cs: set<char>)
    requires Avoids(s, cs)
    ensures Avoids(Strip(s), cs)
  {
    StripSpec(s);
    var k :| OccursAt(s, Strip(s), k);
    forall i | 0 <= i < |Strip(s)| ensures Strip(s)[i] !in cs {
      assert Strip(s)[i] == s[k..k + |Strip(s)|][i] == s[k + i];
    }
  }

  /** Joining non-empty pieces gives "" only for no pieces at all. */
  lemma JoinOfNonEmpty(xs: seq<string>, sep: string)
    requires forall k :: 0 <= k < |xs| ==> xs[k] != ""
    ensures Join(xs, sep) == "" <==> xs == []
  {
    if |xs| >= 2 {
      assert |Join(xs, sep)| >= |xs[0]|;
    }
  }

  /** `"".join` of two lists is the concatenation of their joins. */
  lemma {:induction false} ConcatAppend(a: seq<string>, b: seq<string>)
    ensures Join(a + b, "") == Join(a, "") + Join(b, "")
  {
    if a == [] {
      assert a + b == b;
    } else if |a| == 1 {
      if b != [] {
        assert (a + b)[1..] == b;
      }
    } else {
      ConcatAppend(a[1..], b);
      assert (a + b)[1..] == a[1..] + b;
    }
  }

  /** A joined text holds no character of `cs` when neither the parts nor the separator do. */
  lemma {:induction false} JoinAvoids(parts: seq<string>, sep: string, cs: set<char>)
    requires forall k :: 0 <= k < |parts| ==> Avoids(parts[k], cs)
    requires Avoids(sep, cs)
    ensures Avoids(Join(parts, sep), cs)
  {
    if |parts| >= 2 {
      JoinAvoids(parts[1..], sep, cs);
      var rest := Join(parts[1..], sep);
      var r := parts[0] + sep + rest;
      forall i | 0 <= i < |r| ensures r[i] !in cs {
        if i < |parts[0]| {
          assert r[i] == parts[0][i];
        } else if i < |parts[0]| + |sep| {
          assert r[i] == sep[i - |parts[0]|];
        } else {
          assert r[i] == rest[i - |parts[0]| - |sep|];
        }
      }
    }
  }

  /** A join of non-empty parts starts with the first character of the first part and ends
      with the last character of the last part. */
  lemma {:induction false} JoinEnds(parts: seq<string>, sep: string)
    requires |parts| >= 1 && forall k :: 0 <= k < |parts| ==> parts[k] != ""
    ensures var r := Join(parts, sep);
      var last := parts[|parts| - 1];
      |r| >= 1 && r[0] == parts[0][0] && r[|r| - 1] == last[|last| - 1]
  {
    if |parts| >= 2 {
      JoinEnds(parts[1..], sep);
    }
  }

  /** A text starts with what it was built from first. */
  lemma StartsWithAppend(p: string, s: string)
    ensures StartsWith(p + s, p)
  {
    assert (p + s)[..|p|] == p;
  }

  /** Putting text in front keeps the end of a text. */
  lemma EndsWithPrepend(a: string, s: string, q: string)
    requires EndsWith(s, q)
    ensures EndsWith(a + s, q)
  {
    assert (a + s)[|a + s| - |q|..] == s[|s| - |q|..];
  }

  /** Putting the same text in front of both keeps a prefix a prefix. */
  lemma StartsWithPrepend(a: string, s: string, q: string)
    requires StartsWith(s, q)
    ensures StartsWith(a + s, a + q)
  {
    assert (a + s)[..|a + q|] == a + s[..|q|];
  }

  /** A join of at least two parts starts with the first part and the separator, and ends
      with the last part. */
  lemma {:induction false} JoinFirstLast(parts: seq<string>, sep: string)
    requires |parts| >= 2
    ensures StartsWith(Join(parts, sep), parts[0] + sep)
    ensures EndsWith(Join(parts, sep), parts[|parts| - 1])
  {
    var rest := Join(parts[1..], sep);
    assert Join(parts, sep) == (parts[0] + sep) + rest;
    StartsWithAppend(parts[0] + sep, rest);
    if |parts| == 2 {
      assert rest == parts[1];
      assert EndsWith(rest, parts[1]);
    } else {
      JoinFirstLast(parts[1..], sep);
    }
    EndsWithPrepend(parts[0] + sep, rest, parts[|parts| - 1]);
  }

  /** ASCII upper case to lower case; every other character unchanged. */
  function LowerChar(c: char): char {
    if 'A' <= c <= 'Z' then (c as int + 32) as char else c
  }

  /** `s.lower()` restricted to ASCII letters. */
  function LowerAscii(s: string): (r: string)
    ensures |r| == |s|
    ensures forall i :: 0 <= i < |s| ==> r[i] == LowerChar(s[i])
  {
    seq(|s|, i requires 0 <= i < |s| => LowerChar(s[i]))
  }
}
