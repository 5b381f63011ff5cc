/** The JavaScript string primitives the log-line pipeline relies on: `indexOf`,
    `includes`, `substring`, `split` (by a string and by the three regular
    expressions the program uses), `trim` and `replace(/"/g, '')`. */
module Strings {

  /** `pat` occurs in `s` starting at index `k`. */
  predicate MatchAt(s: string, pat: string, k: int)
  {
    0 <= k && k + |pat| <= |s| && s[k..k + |pat|] == pat
  }

  /** `s.indexOf(pat, from)` for a non-empty `pat`: the first occurrence at or after
      `from` (a negative `from` searches from 0), or -1 when there is none. */
  function IndexOfFrom(s: string, pat: string, from: int): (r: int)
    requires |pat| > 0
    ensures r == -1 || (0 <= r && from <= r && MatchAt(s, pat, r))
    ensures forall k :: 0 <= k && from <= k && (r == -1 || k < r) ==> !MatchAt(s, pat, k)
    decreases |s| - from
  {
    if from < 0 then IndexOfFrom(s, pat, 0)
    else if from + |pat| > |s| then -1
    else if s[from..from + |pat|] == pat then from
    else IndexOfFrom(s, pat, from + 1)
  }

  /** `s.indexOf(pat)`. */
  function IndexOf(s: string, pat: string): int
    requires |pat| > 0
  {
    IndexOfFrom(s, pat, 0)
  }

  /** `s.includes(pat)`. */
  predicate Contains(s: string, pat: string)
    requires |pat| > 0
    ensures Contains(s, pat) <==> exists k :: MatchAt(s, pat, k)
  {
    IndexOf(s, pat) >= 0
  }

  /** The last occurrence of `pat` that starts at or before `k`, or -1. */
  function LastIndexOfBelow(s: string, pat: string, k: int): (r: int)
    ensures r == -1 || (0 <= r <= k && MatchAt(s, pat, r))
    ensures forall j :: r < j <= k ==> !MatchAt(s, pat, j)
    decreases k + 1
  {
    if k < 0 then -1 else if MatchAt(s, pat, k) then k else LastIndexOfBelow(s, pat, k - 1)
  }

  /** `s.lastIndexOf(pat)` for a non-empty `pat`: it finds an occurrence exactly when
      `indexOf` does, and none lies after it. */
  function LastIndexOf(s: string, pat: string): (r: int)
    requires |pat| > 0
    ensures r == -1 || MatchAt(s, pat, r)
    ensures forall j :: r < j ==> !MatchAt(s, pat, j)
    ensures r >= 0 <==> IndexOf(s, pat) >= 0
    ensures IndexOf(s, pat) <= r
  {
    LastIndexOfBelow(s, pat, |s| - |pat|)
  }

  /** Searching from inside `s` is searching the suffix and shifting the answer. */
  lemma IndexOfFromSuffix(s: string, pat: string, from: int)
    requires |pat| > 0 && 0 <= from <= |s|
    ensures IndexOfFrom(s, pat, from) == if IndexOf(s[from..], pat) < 0 then -1 else IndexOf(s[from..], pat) + from
  {
    var r, i := IndexOfFrom(s, pat, from), IndexOfFrom(s[from..], pat, 0);
    if i >= 0 {
      MatchInSuffix(s, pat, from, i);
      if r >= 0 && r < i + from {
        MatchInSuffix(s, pat, from, r - from);
      }
    } else if r >= 0 {
      MatchInSuffix(s, pat, from, r - from);
    }
  }

  /** An occurrence at `k` in `s[from..]` is one at `k + from` in `s`. */
  lemma MatchInSuffix(s: string, pat: string, from: nat, k: int)
    requires from <= |s| && 0 <= k
    ensures MatchAt(s[from..], pat, k) <==> MatchAt(s, pat, k + from)
  {
    if k + |pat| <= |s| - from {
      assert s[from..][k..k + |pat|] == s[k + from..k + from + |pat|];
    }
  }

  /** `s.substring(start)`: the suffix from `start`, clamped to the string. */
  function SubstringFrom(s: string, start: int): (r: string)
    ensures 0 <= start <= |s| ==> r == s[start..]
    ensures start >= |s| ==> r == ""
  {
    if start <= 0 then s else if start >= |s| then "" else s[start..]
  }

  /** `s.split(sep)` for a non-empty separator string. */
  function Split(s: string, sep: string): (parts: seq<string>)
    requires |sep| > 0
    ensures |parts| >= 1
    decreases |s|
  {
    var i := IndexOf(s, sep);
    if i < 0 then [s] else [s[..i]] + Split(s[i + |sep|..], sep)
  }

  /** The first occurrence of `sep` cuts off the first piece of the split. */
  lemma SplitAtFirst(s: string, sep: string)
    requires |sep| > 0 && IndexOf(s, sep) >= 0
    ensures IndexOf(s, sep) + |sep| <= |s|
    ensures Split(s, sep) == [s[..IndexOf(s, sep)]] + Split(s[IndexOf(s, sep) + |sep|..], sep)
  {
  }

  /** Splitting the suffix from `from`: the first occurrence at or after `from` cuts off
      the first piece. */
  lemma SplitFromFirst(s: string, sep: string, from: nat)
    requires |sep| > 0 && from <= |s| && IndexOfFrom(s, sep, from) >= 0
    ensures var r := IndexOfFrom(s, sep, from);
            from <= r && r + |sep| <= |s|
            && Split(s[from..], sep) == [s[from..r]] + Split(s[r + |sep|..], sep)
  {
    var r := IndexOfFrom(s, sep, from);
    var rest := s[from..];
    IndexOfFromSuffix(s, sep, from);
    SplitAtFirst(rest, sep);
    assert rest[..r - from] == s[from..r];
    assert rest[r - from + |sep|..] == s[r + |sep|..];
  }

  /** `parts.join(sep)`. */
  function Join(parts: seq<string>, sep: string): string
  {
    if |parts| == 0 then ""
    else if |parts| == 1 then parts[0]
    else parts[0] + sep + Join(parts[1..], sep)
  }

  /** Joining the pieces of a split with the separator gives back the string. */
  lemma {:induction false} JoinSplit(s: string, sep: string)
    requires |sep| > 0
    ensures Join(Split(s, sep), sep) == s
    decreases |s|
  {
    var i := IndexOf(s, sep);
    if i >= 0 {
      var head, rest := s[..i], s[i + |sep|..];
      JoinSplit(rest, sep);
      SplitAround(s, sep, i);
      JoinCons(head, Split(rest, sep), sep);
      assert Split(s, sep) == [head] + Split(rest, sep);
    } else {
      assert Split(s, sep) == [s];
    }
  }

  lemma JoinCons(head: string, tail: seq<string>, sep: string)
    requires |tail| >= 1
    ensures Join([head] + tail, sep) == head + sep + Join(tail, sep)
  {
    assert ([head] + tail)[1..] == tail;
  }

  lemma SplitAround(s: string, sep: string, i: int)
    requires MatchAt(s, sep, i)
    ensures s == s[..i] + sep + s[i + |sep|..]
  {
    assert s == s[..i] + s[i..i + |sep|] + s[i + |sep|..];
  }

  /** No piece of a split contains the separator. */
  lemma {:induction false} SplitPiecesAreFree(s: string, sep: string)
    requires |sep| > 0
    ensures forall p :: p in Split(s, sep) ==> !Contains(p, sep)
    decreases |s|
  {
    var i := IndexOf(s, sep);
    if i >= 0 {
      var head, rest := s[..i], s[i + |sep|..];
      SplitPiecesAreFree(rest, sep);
      BeforeFirstOccurrence(s, sep);
      var parts, tail := Split(s, sep), Split(rest, sep);
      assert parts == [head] + tail;
      forall p | p in parts ensures !Contains(p, sep) {
        if p != head {
          assert p in tail;
        }
      }
    } else {
      assert Split(s, sep) == [s];
    }
  }

  /** The text before the first occurrence of `sep` does not contain it. */
  lemma BeforeFirstOccurrence(s: string, sep: string)
    requires |sep| > 0 && IndexOf(s, sep) >= 0
    ensures !Contains(s[..IndexOf(s, sep)], sep)
  {
    var i := IndexOfFrom(s, sep, 0);
    forall k | 0 <= k ensures !MatchAt(s[..i], sep, k) {
      if k + |sep| <= i {
        assert s[..i][k..k + |sep|] == s[k..k + |sep|];
        assert !MatchAt(s, sep, k);
      }
    }
  }

  /** A string that lacks one of the characters of `pat` does not contain `pat`. */
  lemma MissingCharacter(s: string, pat: string, i: nat)
    requires |pat| > 0 && i < |pat| && pat[i] !in s
    ensures !Contains(s, pat)
  {
    forall k | 0 <= k && k + |pat| <= |s| ensures !MatchAt(s, pat, k) {
      assert s[k..k + |pat|][i] == s[k + i];
    }
  }

  /** No proper prefix of `sep` is also a suffix of it ("->", "HW->" and "," are like
      this), so an occurrence cannot straddle a piece and the separator after it. */
  predicate Borderless(sep: string)
  {
    forall j :: 0 < j < |sep| ==> sep[j..] != sep[..|sep| - j]
  }

  /** The first occurrence of a borderless `sep` in `p + sep + rest` is the one after `p`
      when `p` does not contain it. */
  lemma FirstOccurrenceAfter(p: string, sep: string, rest: string)
    requires |sep| > 0 && Borderless(sep) && !Contains(p, sep)
    ensures IndexOf(p + sep + rest, sep) == |p|
  {
    var s := p + sep + rest;
    assert s[|p|..|p| + |sep|] == sep;
    assert MatchAt(s, sep, |p|);
    forall k | 0 <= k < |p| ensures !MatchAt(s, sep, k) {
      if k + |sep| <= |p| {
        assert p[k..k + |sep|] == s[k..k + |sep|];
        assert !MatchAt(p, sep, k);
      } else {
        var j := |p| - k;
        assert sep[j..] != sep[..|sep| - j];
        assert s[k..k + |sep|][j..] == s[|p|..|p| + |sep| - j];
        assert s[|p|..|p| + |sep| - j] == sep[..|sep| - j];
      }
    }
  }

  /** Splitting a join of separator-free pieces gives back the pieces. */
  lemma {:induction false} SplitJoin(parts: seq<string>, sep: string)
    requires |sep| > 0 && Borderless(sep) && |parts| >= 1
    requires forall p :: p in parts ==> !Contains(p, sep)
    ensures Split(Join(parts, sep), sep) == parts
  {
    if |parts| > 1 {
      var rest := Join(parts[1..], sep);
      FirstOccurrenceAfter(parts[0], sep, rest);
      var s := parts[0] + sep + rest;
      assert s[..|parts[0]|] == parts[0];
      assert s[|parts[0]| + |sep|..] == rest;
      SplitJoin(parts[1..], sep);
      assert parts == [parts[0]] + parts[1..];
    } else {
      assert Join(parts, sep) == parts[0];
      assert parts[0] in parts;
      assert Split(parts[0], sep) == [parts[0]];
    }
  }

  /** The characters JavaScript's `\s` and `String.prototype.trim` treat as white space
      (WhiteSpace and LineTerminator of the ECMAScript grammar). */
  predicate IsSpace(c: char)
  {
    c == ' ' || c == '\t' || c == '\n' || c == '\r' || c == '\U{0B}' || c == '\U{0C}'
    || c == '\U{A0}' || c == '\U{1680}' || ('\U{2000}' <= c <= '\U{200A}')
    || c == '\U{2028}' || c == '\U{2029}' || c == '\U{202F}' || c == '\U{205F}'
    || c == '\U{3000}' || c == '\U{FEFF}'
  }

  /** `s.trim()`: the longest middle slice that neither starts nor ends with white space. */
  function Trim(s: string): (r: string)
    ensures |r| > 0 ==> !IsSpace(r[0]) && !IsSpace(r[|r| - 1])
    ensures exists i, j ::
              && 0 <= i <= j <= |s| && r == s[i..j]
              && (forall k :: 0 <= k < i ==> IsSpace(s[k]))
              && (forall k :: j <= k < |s| ==> IsSpace(s[k]))
  {
    var i := SpanSpaces(s, 0);
    var j := TrimEndAt(s, i, |s|);
    s[i..j]
  }

  /** The end of the run of white space that starts at `i`. */
  function SpanSpaces(s: string, i: nat): (j: nat)
    requires i <= |s|
    ensures i <= j <= |s|
    ensures forall k :: i <= k < j ==> IsSpace(s[k])
    ensures j < |s| ==> !IsSpace(s[j])
    decreases |s| - i
  {
    if i < |s| && IsSpace(s[i]) then SpanSpaces(s, i + 1) else i
  }

  /** The run of white space from `i` ends at `j` when `s[i..j]` is white space and
      nothing white follows it. */
  lemma SpanSpacesEndsAt(s: string, i: nat, j: nat)
    requires i <= j <= |s|
    requires forall k :: i <= k < j ==> IsSpace(s[k])
    requires j < |s| ==> !IsSpace(s[j])
    ensures SpanSpaces(s, i) == j
  {
  }

  /** Moves `j` left over trailing white space, not past `i`. */
  function TrimEndAt(s: string, i: nat, j: nat): (r: nat)
    requires i <= j <= |s|
    requires i < |s| ==> !IsSpace(s[i])
    ensures i <= r <= j
    ensures forall k :: r <= k < j ==> IsSpace(s[k])
    ensures r > i ==> !IsSpace(s[r - 1])
    ensures r == i ==> i == j || i == |s|
    decreases j
  {
    if j > i && IsSpace(s[j - 1]) then TrimEndAt(s, i, j - 1) else j
  }

  /** `s.replace(/c/g, '')`: `s` without any occurrence of `c`. */
  function RemoveAll(s: string, c: char): (r: string)
    ensures c !in r
    ensures forall x :: x in s && x != c ==> x in r
    ensures forall x :: x in r ==> x in s
  {
    if s == [] then []
    else if s[0] == c then RemoveAll(s[1..], c)
    else [s[0]] + RemoveAll(s[1..], c)
  }

  /** Removing `c` distributes over concatenation. */
  lemma {:induction false} RemoveAllAppend(a: string, b: string, c: char)
    ensures RemoveAll(a + b, c) == RemoveAll(a, c) + RemoveAll(b, c)
    decreases |a|
  {
    if a != [] {
      assert (a + b)[1..] == a[1..] + b;
      RemoveAllAppend(a[1..], b, c);
    } else {
      assert a + b == b;
    }
  }

  /** Removing a character that does not occur changes nothing. */
  lemma {:induction false} RemoveAllAbsent(s: string, c: char)
    requires c !in s
    ensures RemoveAll(s, c) == s
    decreases |s|
  {
    if s != [] {
      RemoveAllAbsent(s[1..], c);
      assert s == [s[0]] + s[1..];
    }
  }

  /** The three regular expressions the program splits with. */
  datatype Pattern =
    | SpaceRun    // /\s+/
    | QuotedGap   // /"\s+"/
    | GroupBreak  // /}\s*[\r?\n]*{/

  /** The end of the run of white space and '?' characters that starts at `i`. */
  function SpanGap(s: string, i: nat): (j: nat)
    requires i <= |s|
    ensures i <= j <= |s|
    ensures forall k :: i <= k < j ==> IsSpace(s[k]) || s[k] == '?'
    ensures j < |s| ==> !IsSpace(s[j]) && s[j] != '?'
    decreases |s| - i
  {
    if i < |s| && (IsSpace(s[i]) || s[i] == '?') then SpanGap(s, i + 1) else i
  }

  /** The run of white space and '?' from `i` ends at `j` when `s[i..j]` is made of them
      and no such character follows it. */
  lemma SpanGapEndsAt(s: string, i: nat, j: nat)
    requires i <= j <= |s|
    requires forall k :: i <= k < j ==> IsSpace(s[k]) || s[k] == '?'
    requires j < |s| ==> !IsSpace(s[j]) && s[j] != '?'
    ensures SpanGap(s, i) == j
  {
  }

  /** `\s*[\r?\n]*` matches all of `g`: white space, then only '\r', '?' and '\n'. */
  predicate GapMatches(g: string)
  {
    forall i, j :: 0 <= i < j < |g| && g[i] == '?' ==> g[j] == '\r' || g[j] == '?' || g[j] == '\n'
  }

  /** Where a match of `pat` that starts at `q` ends, or -1 when none starts there.
      Every part of each pattern is forced (a greedy `\s` run can only be followed by
      a character outside it), so the match at `q` is unique. */
  function MatchEnd(pat: Pattern, s: string, q: nat): (e: int)
    requires q < |s|
    ensures e == -1 || q < e <= |s|
  {
    match pat
    case SpaceRun =>
      if IsSpace(s[q]) then SpanSpaces(s, q) else -1
    case QuotedGap =>
      if s[q] == '"' then
        var m := SpanSpaces(s, q + 1);
        if q + 1 < m < |s| && s[m] == '"' then m + 1 else -1
      else -1
    case GroupBreak =>
      if s[q] == '}' then
        var m := SpanGap(s, q + 1);
        if m < |s| && s[m] == '{' && GapMatches(s[q + 1..m]) then m + 1 else -1
      else -1
  }

  /** The leftmost start of a match of `pat` at or after `from`, or -1. */
  function FirstMatch(pat: Pattern, s: string, from: nat): (q: int)
    ensures q == -1 || (from <= q < |s| && MatchEnd(pat, s, q) != -1)
    ensures forall k :: from <= k < |s| && (q == -1 || k < q) ==> MatchEnd(pat, s, k) == -1
    decreases |s| - from
  {
    if from >= |s| then -1
    else if MatchEnd(pat, s, from) != -1 then from
    else FirstMatch(pat, s, from + 1)
  }

  /** `s.split(regex)` for a regular expression that never matches the empty string:
      the pieces between successive leftmost matches. */
  function RegexSplit(s: string, pat: Pattern): (parts: seq<string>)
    ensures |parts| >= 1
    ensures FirstMatch(pat, s, 0) == -1 ==> parts == [s]
    ensures FirstMatch(pat, s, 0) != -1 ==> |parts| >= 2
    decreases |s|
  {
    var q := FirstMatch(pat, s, 0);
    if q < 0 then [s] else [s[..q]] + RegexSplit(s[MatchEnd(pat, s, q)..], pat)
  }

  /** The text each successive leftmost match of `pat` covers: the separators `split`
      drops between the pieces of `RegexSplit`. */
  function RegexMatches(s: string, pat: Pattern): (ms: seq<string>)
    decreases |s|
  {
    var q := FirstMatch(pat, s, 0);
    if q < 0 then [] else [s[q..MatchEnd(pat, s, q)]] + RegexMatches(s[MatchEnd(pat, s, q)..], pat)
  }

  /** `parts[0] + seps[0] + parts[1] + ... + parts[|seps|]`. */
  function Interleave(parts: seq<string>, seps: seq<string>): string
    requires |parts| == |seps| + 1
    decreases |seps|
  {
    if |seps| == 0 then parts[0] else parts[0] + seps[0] + Interleave(parts[1..], seps[1..])
  }

  /** A match that lies inside the prefix `s[..n]` is a match of the whole string too:
      each pattern ends on a character outside its runs, so more text after it cannot
      change it. */
  lemma MatchInPrefix(pat: Pattern, s: string, n: nat, k: nat)
    requires k < n <= |s|
    requires MatchEnd(pat, s[..n], k) != -1
    ensures MatchEnd(pat, s, k) != -1
  {
    var t := s[..n];
    match pat
    case SpaceRun =>
      assert t[k] == s[k];
    case QuotedGap =>
      var m := SpanSpaces(t, k + 1);
      assert t[m] == s[m];
      forall j | k + 1 <= j < m ensures IsSpace(s[j]) {
        assert t[j] == s[j];
      }
      SpanSpacesEndsAt(s, k + 1, m);
      assert t[k] == s[k];
    case GroupBreak =>
      var m := SpanGap(t, k + 1);
      assert t[m] == s[m];
      forall j | k + 1 <= j < m ensures IsSpace(s[j]) || s[j] == '?' {
        assert t[j] == s[j];
      }
      SpanGapEndsAt(s, k + 1, m);
      assert t[k + 1..m] == s[k + 1..m];
      assert t[k] == s[k];
  }

  /** The text before the first match of `s` holds no match of its own. */
  lemma PrefixBeforeMatchFree(pat: Pattern, s: string, q: int)
    requires q == FirstMatch(pat, s, 0) && q >= 0
    ensures FirstMatch(pat, s[..q], 0) == -1
  {
    forall k | 0 <= k < q ensures MatchEnd(pat, s[..q], k) == -1 {
      if MatchEnd(pat, s[..q], k) != -1 {
        MatchInPrefix(pat, s, q, k);
      }
    }
  }

  /** No piece of `RegexSplit` contains a match of the pattern. */
  lemma {:induction false} RegexPiecesFree(s: string, pat: Pattern)
    ensures forall i :: 0 <= i < |RegexSplit(s, pat)| ==> FirstMatch(pat, RegexSplit(s, pat)[i], 0) == -1
    decreases |s|
  {
    var q, e := RegexStep(s, pat);
    if q >= 0 {
      var rest := s[e..];
      RegexPiecesFree(rest, pat);
      PrefixBeforeMatchFree(pat, s, q);
      var parts, tail := RegexSplit(s, pat), RegexSplit(rest, pat);
      forall i | 0 <= i < |parts| ensures FirstMatch(pat, parts[i], 0) == -1 {
        if i > 0 {
          assert parts[i] == tail[i - 1];
        }
      }
    }
  }

  /** Interleaving after one more piece and separator. */
  lemma InterleaveCons(p: string, m: string, parts: seq<string>, seps: seq<string>)
    requires |parts| == |seps| + 1
    ensures Interleave([p] + parts, [m] + seps) == p + m + Interleave(parts, seps)
  {
    assert ([p] + parts)[1..] == parts;
    assert ([m] + seps)[1..] == seps;
  }

  /** One step of `RegexSplit` and `RegexMatches`: the first match, if any, cuts off the
      first piece and the first separator. */
  lemma RegexStep(s: string, pat: Pattern) returns (q: int, e: int)
    ensures q == FirstMatch(pat, s, 0)
    ensures q < 0 ==> RegexSplit(s, pat) == [s] && RegexMatches(s, pat) == []
    ensures q >= 0 ==> 0 <= q < e <= |s| && e == MatchEnd(pat, s, q)
                       && RegexSplit(s, pat) == [s[..q]] + RegexSplit(s[e..], pat)
                       && RegexMatches(s, pat) == [s[q..e]] + RegexMatches(s[e..], pat)
  {
    q := FirstMatch(pat, s, 0);
    e := if q >= 0 then MatchEnd(pat, s, q) else 0;
  }

  /** Putting the matched separators back between the pieces rebuilds the input. */
  lemma {:induction false} RegexSplitRejoins(s: string, pat: Pattern)
    ensures |RegexSplit(s, pat)| == |RegexMatches(s, pat)| + 1
    ensures Interleave(RegexSplit(s, pat), RegexMatches(s, pat)) == s
    decreases |s|
  {
    var q, e := RegexStep(s, pat);
    if q >= 0 {
      var rest := s[e..];
      RegexSplitRejoins(rest, pat);
      InterleaveCons(s[..q], s[q..e], RegexSplit(rest, pat), RegexMatches(rest, pat));
      assert s == s[..q] + s[q..e] + rest;
    }
  }

  /** The text of a match is, on its own, one whole match. */
  lemma MatchedText(pat: Pattern, s: string, q: nat)
    requires q < |s| && MatchEnd(pat, s, q) != -1
    ensures var t := s[q..MatchEnd(pat, s, q)]; |t| > 0 && MatchEnd(pat, t, 0) == |t|
  {
    var e := MatchEnd(pat, s, q);
    var t := s[q..e];
    match pat
    case SpaceRun =>
      forall j | 0 <= j < |t| ensures IsSpace(t[j]) {
        assert t[j] == s[q + j];
      }
      SpanSpacesEndsAt(t, 0, |t|);
    case QuotedGap =>
      var m := SpanSpaces(s, q + 1);
      forall j | 1 <= j < m - q ensures IsSpace(t[j]) {
        assert t[j] == s[q + j];
      }
      assert t[m - q] == s[m];
      SpanSpacesEndsAt(t, 1, m - q);
    case GroupBreak =>
      var m := SpanGap(s, q + 1);
      forall j | 1 <= j < m - q ensures IsSpace(t[j]) || t[j] == '?' {
        assert t[j] == s[q + j];
      }
      assert t[m - q] == s[m];
      SpanGapEndsAt(t, 1, m - q);
      assert t[1..m - q] == s[q + 1..m];
  }

  /** Every separator `RegexSplit` drops is a non-empty whole match of the pattern. */
  lemma {:induction false} RegexMatchesWhole(s: string, pat: Pattern)
    ensures forall i :: 0 <= i < |RegexMatches(s, pat)| ==>
              var m := RegexMatches(s, pat)[i]; |m| > 0 && MatchEnd(pat, m, 0) == |m|
    decreases |s|
  {
    var q, e := RegexStep(s, pat);
    if q >= 0 {
      var rest := s[e..];
      RegexMatchesWhole(rest, pat);
      MatchedText(pat, s, q);
      var ms, tail := RegexMatches(s, pat), RegexMatches(rest, pat);
      forall i | 0 <= i < |ms| ensures |ms[i]| > 0 && MatchEnd(pat, ms[i], 0) == |ms[i]| {
        if i > 0 {
          assert ms[i] == tail[i - 1];
        }
      }
    }
  }

  /** `s.slice(1)`: all but the first character. */
  function DropFirst(s: string): (r: string)
    ensures |s| > 0 ==> s == s[..1] + r
    ensures |s| == 0 ==> r == ""
  {
    if |s| == 0 then "" else s[1..]
  }

  /** `s.slice(0, s.length - 1)`: all but the last character. */
  function DropLast(s: string): (r: string)
    ensures |s| > 0 ==> s == r + s[|s| - 1..]
    ensures |s| == 0 ==> r == ""
  {
    if |s| == 0 then "" else s[..|s| - 1]
  }
}
