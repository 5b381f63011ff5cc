/** The string logic of maps/entities.js: `findClosestIndexOf`, the search that finds the
    braces around the entity lump of a compiled map, and the parser that turns the lump
    into one property map per entity. */
module Entities {
  import opened Wrappers
  import opened Strings

  // ---------------------------------------------------------------------------
  // findClosestIndexOf

  /** `buffer.slice(k, k + pattern.length).toString() === pattern`: `slice` clamps both
      ends to the length of the text, so past the end it gives "". */
  predicate SliceEquals(buffer: string, k: nat, pattern: string)
  {
    var lo := if k < |buffer| then k else |buffer|;
    var hi := if k + |pattern| < |buffer| then k + |pattern| else |buffer|;
    buffer[lo..hi] == pattern
  }

  /** The message of the error thrown when the search gives up. */
  const NotFound: string := "Could not find entities start index."

  /** `findClosestIndexOf(buffer, ix, order, string)`: looks at `ix + order`, `ix + 2·order`,
      … while the position is positive and returns the first one where `pattern` starts;
      index 0 is never looked at. Searching forward (`order` 1) never stops on its own, so
      the caller must know that a match lies ahead; searching backward gives up at 0. */
  method FindClosestIndexOf(buffer: string, ix: int, order: int, pattern: string) returns (r: Result<nat, string>)
    requires order == 1 || order == -1
    requires order == 1 && ix + 1 > 0 ==> exists k: nat :: ix < k && SliceEquals(buffer, k, pattern)
    ensures r.Success? ==> r.value > 0 && SliceEquals(buffer, r.value, pattern)
    ensures r.Success? && order == 1 ==>
              ix < r.value && forall k: nat :: ix < k < r.value ==> !SliceEquals(buffer, k, pattern)
    ensures r.Success? && order == -1 ==>
              r.value < ix && forall k: nat :: r.value < k < ix ==> !SliceEquals(buffer, k, pattern)
    ensures r.Failure? <==>
              || (order == 1 && ix + 1 <= 0)
              || (order == -1 && forall k: nat :: 0 < k < ix ==> !SliceEquals(buffer, k, pattern))
    ensures r.Failure? ==> r.error == NotFound
  {
    var currentIx := ix + order;
    ghost var bound: nat := 0;
    if order == 1 && currentIx > 0 {
      bound :| ix < bound && SliceEquals(buffer, bound, pattern);
    }
    while currentIx > 0
      invariant order == 1 ==> ix < currentIx && forall k: nat :: ix < k < currentIx ==> !SliceEquals(buffer, k, pattern)
      invariant order == 1 && currentIx > 0 ==> currentIx <= bound && SliceEquals(buffer, bound, pattern)
      invariant order == -1 ==> currentIx < ix && forall k: nat :: currentIx < k < ix ==> !SliceEquals(buffer, k, pattern)
      decreases if order == 1 then bound - currentIx else currentIx
    {
      if SliceEquals(buffer, currentIx, pattern) {
        return Success(currentIx);
      }
      currentIx := currentIx + order;
    }
    return Failure(NotFound);
  }

  /** A one-character pattern matches where that character is. */
  lemma SliceOfChar(buffer: string, k: nat, c: char)
    ensures SliceEquals(buffer, k, [c]) <==> k < |buffer| && buffer[k] == c
  {
    if k < |buffer| {
      assert buffer[k..k + 1] == [buffer[k]];
    }
  }

  /** The property every entity of the lump has. */
  const HammerId: string := "\"hammerid\" \""

  /** `buffer.slice(startIx, endIx + 1)`: the text from the `{` closest before the first
      `"hammerid" "` to the `}` closest after the last one. The search for the `}` runs
      only once the `{` is found, and it must end, so then a `}` follows the last one. */
  method EntityLump(buffer: string) returns (r: Result<string, string>)
    requires IndexOf(buffer, HammerId) >= 0 && (exists k :: 0 < k < IndexOf(buffer, HammerId) && buffer[k] == '{') ==>
               exists k: nat :: LastIndexOf(buffer, HammerId) < k && SliceEquals(buffer, k, "}")
    ensures r.Failure? <==>
              || IndexOf(buffer, HammerId) < 0
              || forall k :: 0 < k < IndexOf(buffer, HammerId) ==> buffer[k] != '{'
    ensures r.Failure? ==> r.error == NotFound
    ensures r.Success? ==>
              exists s: nat, e: nat ::
                && 0 < s < IndexOf(buffer, HammerId) && LastIndexOf(buffer, HammerId) < e < |buffer|
                && r.value == buffer[s..e + 1] && buffer[s] == '{' && buffer[e] == '}'
                && (forall k :: s < k < IndexOf(buffer, HammerId) ==> buffer[k] != '{')
                && (forall k :: LastIndexOf(buffer, HammerId) < k < e ==> buffer[k] != '}')
  {
    var first := IndexOf(buffer, HammerId);
    var last := LastIndexOf(buffer, HammerId);
    var startIx := FindClosestIndexOf(buffer, first, -1, "{");
    if startIx.Failure? {
      forall k | 0 < k < first ensures buffer[k] != '{' {
        SliceOfChar(buffer, k, '{');
      }
      return Failure(startIx.error);
    }
    var s := startIx.value;
    SliceOfChar(buffer, s, '{');
    var endIx := FindClosestIndexOf(buffer, last, 1, "}");
    assert endIx.Success?;
    var e := endIx.value;
    SliceOfChar(buffer, e, '}');
    forall k | s < k < first ensures buffer[k] != '{' {
      SliceOfChar(buffer, k, '{');
    }
    forall k | last < k < e ensures buffer[k] != '}' {
      SliceOfChar(buffer, k, '}');
    }
    r := Success(buffer[s..e + 1]);
  }

  // ---------------------------------------------------------------------------
  // The entity lump

  /** `text.slice(1, text.length - 1)`: the text without its outer braces. */
  function InnerText(text: string): (inner: string)
    ensures |text| >= 2 ==> text == text[..1] + inner + text[|text| - 1..]
    ensures |text| < 2 ==> inner == ""
  {
    if |text| < 2 then "" else text[1..|text| - 1]
  }

  /** The error thrown when a non-empty line has no `"\s+"` in it: the right-hand side
      of `[left, right]` is `undefined` and `right.slice` is a TypeError. */
  datatype EntityError = RightUndefined(line: string)

  /** What one line of a group does to the entity being built. */
  datatype Line =
    | Blank                                  // the empty line: skipped
    | Property(key: string, value: string)   // `"key" "value"`
    | Unpaired(line: string)                 // throws `RightUndefined`

  /** `line.split(/"\s+"/)`, then the key is the left part without its first character
      and the value the right part without its last. */
  function ClassifyLine(line: string): (l: Line)
    ensures l.Blank? <==> line == ""
    ensures l.Unpaired? <==> line != "" && FirstMatch(QuotedGap, line, 0) == -1
    ensures l.Unpaired? ==> l.line == line
  {
    var parts := RegexSplit(line, QuotedGap);
    if line == "" then Blank
    else if |parts| < 2 then Unpaired(line)
    else Property(DropFirst(parts[0]), DropLast(parts[1]))
  }

  /** `Object.assign(entity, prop)` for one line. A key `__proto__` is lost: assigning a
      string to it on `prop` only reaches the prototype setter, which ignores it. */
  function Apply(entity: map<string, string>, l: Line): Result<map<string, string>, EntityError>
  {
    match l
    case Blank => Success(entity)
    case Unpaired(line) => Failure(RightUndefined(line))
    case Property(k, v) => Success(if k == "__proto__" then entity else entity[k := v])
  }

  /** The `reduce` over the lines of a group, from `{}`: each line applied in order, the
      first throw ending it. */
  function FoldLines(ls: seq<Line>): Result<map<string, string>, EntityError>
  {
    if ls == [] then Success(map[])
    else
      match FoldLines(ls[..|ls| - 1])
      case Failure(e) => Failure(e)
      case Success(entity) => Apply(entity, ls[|ls| - 1])
  }

  /** The lines of a group, classified. */
  function Classified(lines: seq<string>): (ls: seq<Line>)
    ensures |ls| == |lines|
    ensures forall i :: 0 <= i < |lines| ==> ls[i] == ClassifyLine(lines[i])
  {
    seq(|lines|, i requires 0 <= i < |lines| => ClassifyLine(lines[i]))
  }

  /** One group: `group.split('\n').reduce(…, {})`. */
  function ParseGroup(group: string): Result<map<string, string>, EntityError>
  {
    FoldLines(Classified(Split(group, "\n")))
  }

  /** `.map(group => …)` over the groups, left to right: the first group that throws ends
      the whole parse. */
  function ParseGroups(groups: seq<string>): Result<seq<map<string, string>>, EntityError>
  {
    if groups == [] then Success([])
    else
      match ParseGroup(groups[0])
      case Failure(e) => Failure(e)
      case Success(entity) =>
        match ParseGroups(groups[1..])
        case Failure(e) => Failure(e)
        case Success(rest) => Success([entity] + rest)
  }

  /** The entity lump: outer braces dropped, split into groups at `}\s*[\r?\n]*{`. */
  function ParseEntities(text: string): Result<seq<map<string, string>>, EntityError>
  {
    ParseGroups(RegexSplit(InnerText(text), GroupBreak))
  }

  // ---------------------------------------------------------------------------
  // Properties of a group

  /** A group fails exactly when one of its lines is unpaired, and then with the first
      such line. */
  lemma {:induction false} FoldFails(ls: seq<Line>)
    ensures FoldLines(ls).Failure? <==> exists i :: 0 <= i < |ls| && ls[i].Unpaired?
    ensures FoldLines(ls).Failure? ==>
              exists i :: 0 <= i < |ls| && ls[i].Unpaired? && FoldLines(ls).error == RightUndefined(ls[i].line)
                          && forall j :: 0 <= j < i ==> !ls[j].Unpaired?
  {
    if ls != [] {
      var n := |ls| - 1;
      var init := ls[..n];
      FoldFails(init);
      assert forall j :: 0 <= j < n ==> init[j] == ls[j];
      if FoldLines(init).Failure? {
        var i :| 0 <= i < n && init[i].Unpaired? && FoldLines(init).error == RightUndefined(init[i].line)
                 && forall j :: 0 <= j < i ==> !init[j].Unpaired?;
        assert ls[i].Unpaired?;
      } else if ls[n].Unpaired? {
        assert forall j :: 0 <= j < n ==> !ls[j].Unpaired?;
      }
    }
  }

  /** A key is in a parsed group exactly when some property line sets it (and it is not
      `__proto__`). */
  lemma {:induction false} FoldKeys(ls: seq<Line>, k: string)
    requires FoldLines(ls).Success?
    ensures k in FoldLines(ls).value <==>
              k != "__proto__" && exists i :: 0 <= i < |ls| && ls[i].Property? && ls[i].key == k
  {
    if ls != [] {
      var n := |ls| - 1;
      var init := ls[..n];
      FoldKeys(init, k);
      assert forall j :: 0 <= j < n ==> init[j] == ls[j];
      if ls[n].Property? && ls[n].key == k {
        assert k != "__proto__" ==> k in FoldLines(ls).value;
      } else {
        assert k in FoldLines(ls).value <==> k in FoldLines(init).value;
      }
    }
  }

  /** A later line with the same key overwrites an earlier one: a key holds the value of
      the last line that sets it. */
  lemma {:induction false} FoldLastWins(ls: seq<Line>, i: nat)
    requires FoldLines(ls).Success?
    requires i < |ls| && ls[i].Property? && ls[i].key != "__proto__"
    requires forall j :: i < j < |ls| ==> !(ls[j].Property? && ls[j].key == ls[i].key)
    ensures ls[i].key in FoldLines(ls).value
    ensures FoldLines(ls).value[ls[i].key] == ls[i].value
  {
    var n := |ls| - 1;
    var init := ls[..n];
    if i < n {
      assert init[i] == ls[i];
      assert forall j :: i < j < |init| ==> init[j] == ls[j];
      FoldLastWins(init, i);
    }
  }

  /** A blank line at the end of a group changes nothing. */
  lemma {:induction false} FoldSkipsBlank(ls: seq<Line>)
    ensures FoldLines(ls + [Blank]) == FoldLines(ls)
  {
    assert (ls + [Blank])[..|ls|] == ls;
  }

  // ---------------------------------------------------------------------------
  // Lines and groups written the way a map file writes them

  /** Every character of `s` is white space. */
  predicate AllSpace(s: string)
  {
    forall i :: 0 <= i < |s| ==> IsSpace(s[i])
  }

  /** The line `"k"<gap>"v"` is the property `k = v`, when neither word holds a quote, the
      gap is white space, and the key is not a non-empty run of white space (which the
      pattern would take for the gap). */
  lemma PropertyLine(k: string, gap: string, v: string)
    requires '"' !in k && '"' !in v
    requires |gap| > 0 && AllSpace(gap)
    requires |k| == 0 || !AllSpace(k)
    ensures ClassifyLine("\"" + k + "\"" + gap + "\"" + v + "\"") == Property(k, v)
  {
    var q := "\"";
    var s := q + k + q + gap + q + v + q;
    var a := |k| + 1;
    var m := a + 1 + |gap|;
    var rest := v + q;
    KeyThenGap(k, gap, v);
    ValueThenQuote(v);
    assert s[..a] == q + k;
    assert s[m + 1..] == rest;
    assert RegexSplit(s, QuotedGap) == [q + k, rest];
    assert DropFirst(q + k) == k by {
      assert (q + k)[1..] == k;
    }
    assert DropLast(rest) == v by {
      assert rest[..|v|] == v;
    }
  }

  /** In `"k"<gap>"v"` the first match of `"\s+"` is the gap between the words. */
  lemma KeyThenGap(k: string, gap: string, v: string)
    requires '"' !in k
    requires |gap| > 0 && AllSpace(gap)
    requires |k| == 0 || !AllSpace(k)
    ensures var s := "\"" + k + "\"" + gap + "\"" + v + "\"";
            && FirstMatch(QuotedGap, s, 0) == |k| + 1
            && MatchEnd(QuotedGap, s, |k| + 1) == |k| + |gap| + 3
  {
    var q := "\"";
    var s := q + k + q + gap + q + v + q;
    var a := |k| + 1;
    var m := a + 1 + |gap|;
    assert s[a] == '"' && s[m] == '"';
    forall p | a + 1 <= p < m ensures IsSpace(s[p]) {
      assert s[p] == gap[p - a - 1];
    }
    SpanSpacesEndsAt(s, a + 1, m);
    assert MatchEnd(QuotedGap, s, a) == m + 1;
    forall p | 0 <= p < a ensures MatchEnd(QuotedGap, s, p) == -1 {
      if p > 0 {
        assert s[p] == k[p - 1];
      } else {
        assert s[..|k| + 2] == q + k + q;
        QuoteThenKey(s, k);
      }
    }
  }

  /** After the gap, `v"` holds no match of `"\s+"` when `v` has no quote. */
  lemma ValueThenQuote(v: string)
    requires '"' !in v
    ensures FirstMatch(QuotedGap, v + "\"", 0) == -1
  {
    var rest := v + "\"";
    forall p | 0 <= p < |rest| ensures MatchEnd(QuotedGap, rest, p) == -1 {
      if p < |v| {
        assert rest[p] == v[p];
      }
    }
  }

  /** The pattern `"\s+"` does not match at the opening quote of `"k"…`. */
  lemma QuoteThenKey(s: string, k: string)
    requires |s| > |k| + 1 && s[..|k| + 2] == "\"" + k + "\""
    requires '"' !in k && (|k| == 0 || !AllSpace(k))
    ensures MatchEnd(QuotedGap, s, 0) == -1
  {
    var m := SpanSpaces(s, 1);
    assert forall p :: 1 <= p <= |k| ==> s[p] == k[p - 1] by {
      forall p | 1 <= p <= |k| ensures s[p] == k[p - 1] {
        assert s[p] == s[..|k| + 2][p];
      }
    }
    if |k| > 0 {
      var i :| 0 <= i < |k| && !IsSpace(k[i]);
      assert s[i + 1] == k[i];
      assert m <= i + 1;
      if m > 1 {
        assert s[m] == k[m - 1];
      }
    } else {
      assert s[1] == s[..|k| + 2][1];
    }
  }

  /** A group written as lines joined by "\n" is classified line by line. */
  lemma GroupLines(lines: seq<string>)
    requires |lines| >= 1
    requires forall i :: 0 <= i < |lines| ==> '\n' !in lines[i]
    ensures ParseGroup(Join(lines, "\n")) == FoldLines(Classified(lines))
  {
    forall p | p in lines ensures !Contains(p, "\n") {
      var i :| 0 <= i < |lines| && lines[i] == p;
      MissingCharacter(p, "\n", 0);
    }
    SplitJoin(lines, "\n");
  }

  /** The line a map file writes for the property `k = v`. */
  function PropertyText(k: string, v: string): string
  {
    "\"" + k + "\"" + " " + "\"" + v + "\""
  }

  /** The lines of a group written from key/value pairs, one property per line. */
  function PropertyTexts(pairs: seq<(string, string)>): (lines: seq<string>)
    ensures |lines| == |pairs|
    ensures forall i :: 0 <= i < |pairs| ==> lines[i] == PropertyText(pairs[i].0, pairs[i].1)
  {
    seq(|pairs|, i requires 0 <= i < |pairs| => PropertyText(pairs[i].0, pairs[i].1))
  }

  /** A key and a value a map file can write on one line and the parser reads back. */
  predicate Writable(k: string, v: string)
  {
    '"' !in k && '"' !in v && '\n' !in k && '\n' !in v && (|k| == 0 || !AllSpace(k))
  }

  /** A written property line holds no line break and reads back as the property. */
  lemma PropertyTextReads(k: string, v: string)
    requires Writable(k, v)
    ensures '\n' !in PropertyText(k, v)
    ensures ClassifyLine(PropertyText(k, v)) == Property(k, v)
  {
    assert AllSpace(" ");
    PropertyLine(k, " ", v);
  }

  /** The lines written from pairs hold no line break and read back as the pairs. */
  lemma PropertyTextsRead(pairs: seq<(string, string)>)
    requires forall i :: 0 <= i < |pairs| ==> Writable(pairs[i].0, pairs[i].1)
    ensures forall i :: 0 <= i < |pairs| ==> '\n' !in PropertyTexts(pairs)[i]
    ensures forall i :: 0 <= i < |pairs| ==> Classified(PropertyTexts(pairs))[i] == Property(pairs[i].0, pairs[i].1)
  {
    var lines := PropertyTexts(pairs);
    forall i | 0 <= i < |pairs|
      ensures '\n' !in lines[i] && Classified(lines)[i] == Property(pairs[i].0, pairs[i].1)
    {
      PropertyTextReads(pairs[i].0, pairs[i].1);
    }
  }

  /** A group of property lines only parses, to the keys the lines set, each holding its
      last value. */
  lemma {:induction false} FoldProperties(ls: seq<Line>, pairs: seq<(string, string)>)
    requires |ls| == |pairs|
    requires forall i :: 0 <= i < |ls| ==> ls[i] == Property(pairs[i].0, pairs[i].1)
    ensures FoldLines(ls).Success?
    ensures forall k :: k in FoldLines(ls).value <==>
              k != "__proto__" && exists i :: 0 <= i < |pairs| && pairs[i].0 == k
    ensures forall i :: 0 <= i < |pairs| && pairs[i].0 != "__proto__"
                        && (forall j :: i < j < |pairs| ==> pairs[j].0 != pairs[i].0)
                        ==> FoldLines(ls).value[pairs[i].0] == pairs[i].1
  {
    FoldFails(ls);
    var r := FoldLines(ls).value;
    forall k ensures k in r <==> k != "__proto__" && exists i :: 0 <= i < |pairs| && pairs[i].0 == k {
      FoldKeys(ls, k);
      if k in r {
        var i :| 0 <= i < |ls| && ls[i].Property? && ls[i].key == k;
        assert pairs[i].0 == k;
      }
      if k != "__proto__" && exists i :: 0 <= i < |pairs| && pairs[i].0 == k {
        var i :| 0 <= i < |pairs| && pairs[i].0 == k;
        assert ls[i].Property? && ls[i].key == k;
      }
    }
    forall i | 0 <= i < |pairs| && pairs[i].0 != "__proto__" && (forall j :: i < j < |pairs| ==> pairs[j].0 != pairs[i].0)
      ensures r[pairs[i].0] == pairs[i].1
    {
      FoldLastWins(ls, i);
    }
  }

  /** Round trip of a group: writing pairs one per line and parsing the text gives an
      entity that has exactly the written keys (but `__proto__`), each holding the value
      written last for it. */
  lemma GroupOfProperties(pairs: seq<(string, string)>)
    requires |pairs| >= 1
    requires forall i :: 0 <= i < |pairs| ==> Writable(pairs[i].0, pairs[i].1)
    ensures var r := ParseGroup(Join(PropertyTexts(pairs), "\n"));
            && r.Success?
            && (forall k :: k in r.value <==> k != "__proto__" && exists i :: 0 <= i < |pairs| && pairs[i].0 == k)
            && forall i :: 0 <= i < |pairs| && pairs[i].0 != "__proto__"
                           && (forall j :: i < j < |pairs| ==> pairs[j].0 != pairs[i].0)
                           ==> r.value[pairs[i].0] == pairs[i].1
  {
    var lines := PropertyTexts(pairs);
    PropertyTextsRead(pairs);
    GroupLines(lines);
    FoldProperties(Classified(lines), pairs);
  }

  // ---------------------------------------------------------------------------
  // Groups

  /** The map over groups succeeds exactly when every group parses, and then gives each
      group's entity in order. */
  lemma {:induction false} ParseGroupsExactly(groups: seq<string>)
    ensures ParseGroups(groups).Success? <==> forall i :: 0 <= i < |groups| ==> ParseGroup(groups[i]).Success?
    ensures ParseGroups(groups).Success? ==>
              && |ParseGroups(groups).value| == |groups|
              && forall i :: 0 <= i < |groups| ==> ParseGroups(groups).value[i] == ParseGroup(groups[i]).value
  {
    if groups != [] {
      var tail := groups[1..];
      ParseGroupsExactly(tail);
      var whole := ParseGroups(groups);
      if whole.Success? {
        var rest := ParseGroups(tail).value;
        assert whole.value == [ParseGroup(groups[0]).value] + rest;
        forall i | 0 <= i < |groups|
          ensures ParseGroup(groups[i]).Success? && whole.value[i] == ParseGroup(groups[i]).value
        {
          if i > 0 {
            assert groups[i] == tail[i - 1];
          }
        }
      } else if ParseGroup(groups[0]).Success? {
        var j :| 0 <= j < |tail| && ParseGroup(tail[j]).Failure?;
        assert groups[j + 1] == tail[j];
      }
    }
  }

  /** The group break that separates entities in a map file. */
  const Break: string := "}\n{"

  /** Groups without a closing brace, joined with "}\n{", split back into those groups. */
  lemma {:induction false} GroupsOfJoined(groups: seq<string>)
    requires |groups| >= 1
    requires forall i :: 0 <= i < |groups| ==> '}' !in groups[i]
    ensures RegexSplit(Join(groups, Break), GroupBreak) == groups
  {
    var g := groups[0];
    if |groups| == 1 {
      assert Join(groups, Break) == g;
      forall p | 0 <= p < |g| ensures MatchEnd(GroupBreak, g, p) == -1 {
        assert g[p] in g;
      }
      assert FirstMatch(GroupBreak, g, 0) == -1;
    } else {
      var rest := Join(groups[1..], Break);
      JoinCons(g, groups[1..], Break);
      assert [g] + groups[1..] == groups;
      var s := g + Break + rest;
      var n := |g|;
      assert s[n] == '}' && s[n + 1] == '\n' && s[n + 2] == '{';
      assert MatchEnd(GroupBreak, s, n) == n + 3 by {
        assert SpanGap(s, n + 2) == n + 2;
        assert s[n + 1..n + 2] == "\n";
      }
      forall p | 0 <= p < n ensures MatchEnd(GroupBreak, s, p) == -1 {
        assert s[p] == g[p] && g[p] in g;
      }
      assert FirstMatch(GroupBreak, s, 0) == n;
      assert s[..n] == g;
      assert s[n + 3..] == rest;
      assert forall i :: 0 <= i < |groups| - 1 ==> groups[1..][i] == groups[i + 1];
      GroupsOfJoined(groups[1..]);
    }
  }

  /** An entity lump written as `{group}\n{group}…` parses group by group. */
  lemma LumpOfGroups(groups: seq<string>)
    requires |groups| >= 1
    requires forall i :: 0 <= i < |groups| ==> '}' !in groups[i]
    ensures ParseEntities("{" + Join(groups, Break) + "}") == ParseGroups(groups)
  {
    var text := "{" + Join(groups, Break) + "}";
    assert InnerText(text) == Join(groups, Break);
    GroupsOfJoined(groups);
  }
}
