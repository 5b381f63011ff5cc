/** The tokenizer of parser/iterator.js: a cursor over one log line that hands out
    the text between successive "->" delimiters, starting just after the first "HW->".
    `NextStep` is one call of `next()` on the cursor state; `LineIterator` is the
    iterator object whose `next()` updates that state in place. */
module Iterator {
  import opened Strings

  /** The marker that identifies a line of the protocol. */
  const Marker: string := "HW->"

  /** The delimiter between tokens. */
  const Delimiter: string := "->"

  /** The iterator's state: the cursor `_ix` and the flag `_isDone`. */
  datatype Cursor = Cursor(ix: nat, isDone: bool)

  /** One answer of `next()`: `{value, done: false}` or `{done: true}` (no value). */
  datatype Step = Yield(value: string) | Done

  /** Where tokenizing starts: four characters past the first marker (3 when the line
      has none, as `indexOf` then gives -1). */
  function StartIndex(line: string): (r: nat)
    ensures Contains(line, Marker) ==> r == IndexOf(line, Marker) + |Marker| && r <= |line|
    ensures !Contains(line, Marker) ==> r == 3
  {
    IndexOf(line, Marker) + 4
  }

  /** The state of a fresh iterator, and of one that has wrapped around. */
  function Initial(line: string): Cursor
  {
    Cursor(StartIndex(line), false)
  }

  /** One call of `next()`. After the done answer the cursor is back at the start; while a
      delimiter remains it yields the text up to it and moves past it; otherwise it yields
      the rest of the line and sets the done flag, leaving `_ix` at -1 + 2. */
  function NextStep(line: string, c: Cursor): (r: (Step, Cursor))
    ensures c.isDone <==> r.0 == Done
    ensures c.isDone ==> r.1 == Initial(line)
  {
    if c.isDone then (Done, Initial(line))
    else
      var endIx := IndexOfFrom(line, Delimiter, c.ix);
      if endIx == -1 then (Yield(SubstringFrom(line, c.ix)), Cursor(endIx + 2, true))
      else (Yield(line[c.ix..endIx]), Cursor(endIx + 2, false))
  }

  /** A `next()` before done yields the text up to the first delimiter at or after the
      cursor and moves past that delimiter; with no delimiter left it yields the rest of
      the line and sets the done flag with `_ix` at 1. */
  lemma NextStepYields(line: string, c: Cursor)
    requires !c.isDone
    ensures var r := NextStep(line, c);
            !r.1.isDone ==>
              && c.ix + 2 <= r.1.ix <= |line| && MatchAt(line, Delimiter, r.1.ix - 2)
              && (forall k :: c.ix <= k < r.1.ix - 2 ==> !MatchAt(line, Delimiter, k))
              && r.0.value == line[c.ix..r.1.ix - 2]
    ensures var r := NextStep(line, c);
            r.1.isDone ==>
              && r.1.ix == 1 && r.0.value == SubstringFrom(line, c.ix)
              && forall k :: c.ix <= k ==> !MatchAt(line, Delimiter, k)
  {
  }

  /** The tokens an iterator in state `c` still has to hand out before it answers done:
      the rest of the line from the cursor, split at every delimiter. */
  function Pending(line: string, c: Cursor): (tokens: seq<string>)
    ensures c.isDone <==> tokens == []
  {
    if c.isDone then [] else Split(SubstringFrom(line, c.ix), Delimiter)
  }

  /** Each `next()` before done hands out the first pending token and leaves the rest. */
  lemma NextTakesPending(line: string, c: Cursor)
    requires !c.isDone
    ensures NextStep(line, c).0 == Yield(Pending(line, c)[0])
    ensures Pending(line, NextStep(line, c).1) == Pending(line, c)[1..]
  {
    if IndexOfFrom(line, Delimiter, c.ix) == -1 {
      TakeLast(line, c);
    } else {
      TakeBeforeDelimiter(line, c);
    }
  }

  /** `NextTakesPending` when no delimiter is left: the rest of the line is the last token. */
  lemma TakeLast(line: string, c: Cursor)
    requires !c.isDone && IndexOfFrom(line, Delimiter, c.ix) == -1
    ensures NextStep(line, c).0 == Yield(Pending(line, c)[0])
    ensures Pending(line, NextStep(line, c).1) == Pending(line, c)[1..]
  {
    var rest := SubstringFrom(line, c.ix);
    if c.ix <= |line| {
      IndexOfFromSuffix(line, Delimiter, c.ix);
    } else {
      assert IndexOf(rest, Delimiter) == -1;
    }
    assert Split(rest, Delimiter) == [rest];
  }

  /** `NextTakesPending` when a delimiter follows: the token is the text up to it. */
  lemma TakeBeforeDelimiter(line: string, c: Cursor)
    requires !c.isDone && IndexOfFrom(line, Delimiter, c.ix) != -1
    ensures NextStep(line, c).0 == Yield(Pending(line, c)[0])
    ensures Pending(line, NextStep(line, c).1) == Pending(line, c)[1..]
  {
    var endIx := IndexOfFrom(line, Delimiter, c.ix);
    SplitFromFirst(line, Delimiter, c.ix);
    var r := NextStep(line, c);
    assert r == (Yield(line[c.ix..endIx]), Cursor(endIx + 2, false));
    assert Pending(line, c) == Split(line[c.ix..], Delimiter);
    assert Pending(line, r.1) == Split(line[endIx + 2..], Delimiter);
  }

  /** The tokens handed out by calling `next()` until it answers done. */
  function Drain(line: string, c: Cursor): seq<string>
    decreases |Pending(line, c)|
  {
    if c.isDone then []
    else
      NextTakesPending(line, c);
      var (step, c') := NextStep(line, c);
      [step.value] + Drain(line, c')
  }

  /** What the iterator hands out before done is exactly the pending tokens. */
  lemma {:induction false} DrainIsPending(line: string, c: Cursor)
    ensures Drain(line, c) == Pending(line, c)
    decreases |Pending(line, c)|
  {
    if !c.isDone {
      NextTakesPending(line, c);
      var c' := NextStep(line, c).1;
      DrainIsPending(line, c');
      assert Pending(line, c) == [Pending(line, c)[0]] + Pending(line, c)[1..];
    }
  }

  /** Round trip: the tokens of a line, joined again with "->", are the line after its
      first "HW->"; and no token contains "->". */
  lemma TokensRoundTrip(line: string)
    requires Contains(line, Marker)
    ensures Join(Drain(line, Initial(line)), Delimiter) == line[IndexOf(line, Marker) + |Marker|..]
    ensures forall t :: t in Drain(line, Initial(line)) ==> !Contains(t, Delimiter)
  {
    DrainIsPending(line, Initial(line));
    JoinSplit(SubstringFrom(line, StartIndex(line)), Delimiter);
    SplitPiecesAreFree(SubstringFrom(line, StartIndex(line)), Delimiter);
  }

  /** The cursor after `n` calls of `next()`. */
  function Advance(line: string, c: Cursor, n: nat): Cursor
    decreases n
  {
    if n == 0 then c else Advance(line, NextStep(line, c).1, n - 1)
  }

  /** After one call per pending token the iterator is done, and the call after that puts
      it back at the start: iteration wraps around. */
  lemma {:induction false} WrapsAround(line: string, c: Cursor)
    requires !c.isDone
    ensures Advance(line, c, |Pending(line, c)|) == Cursor(1, true)
    ensures Advance(line, c, |Pending(line, c)| + 1) == Initial(line)
    decreases |Pending(line, c)|
  {
    var n := |Pending(line, c)|;
    DrainEnds(line, c, n - 1);
    AdvanceSnoc(line, c, n);
  }

  /** One call per pending token leaves the iterator done. */
  lemma {:induction false} DrainEnds(line: string, c: Cursor, n: nat)
    requires !c.isDone && |Pending(line, c)| == n + 1
    ensures Advance(line, c, n + 1) == Cursor(1, true)
    decreases n
  {
    AdvanceStep(line, c, n);
    if n == 0 {
      LastStep(line, c);
    } else {
      StepShrinks(line, c);
      DrainEnds(line, NextStep(line, c).1, n - 1);
    }
  }

  /** The call that hands out the last pending token leaves the iterator done. */
  lemma LastStep(line: string, c: Cursor)
    requires !c.isDone && |Pending(line, c)| == 1
    ensures NextStep(line, c).1 == Cursor(1, true)
  {
    NextTakesPending(line, c);
  }

  /** A call with more tokens pending leaves one token fewer. */
  lemma StepShrinks(line: string, c: Cursor)
    requires !c.isDone && |Pending(line, c)| >= 2
    ensures !NextStep(line, c).1.isDone && |Pending(line, NextStep(line, c).1)| == |Pending(line, c)| - 1
  {
    NextTakesPending(line, c);
  }

  /** `n + 1` calls are `n` calls followed by one. */
  lemma {:induction false} AdvanceSnoc(line: string, c: Cursor, n: nat)
    ensures Advance(line, c, n + 1) == NextStep(line, Advance(line, c, n)).1
    decreases n
  {
    if n > 0 {
      AdvanceSnoc(line, NextStep(line, c).1, n - 1);
    }
  }

  /** `n + 1` calls are one call followed by `n`. */
  lemma AdvanceStep(line: string, c: Cursor, n: nat)
    ensures Advance(line, c, n + 1) == Advance(line, NextStep(line, c).1, n)
  {
  }

  lemma SeparatorsAreBorderless()
    ensures Borderless(Marker) && Borderless(Delimiter)
  {
    assert Marker[1..] != Marker[..3] && Marker[2..] != Marker[..2] && Marker[3..] != Marker[..1];
    assert Delimiter[1..] != Delimiter[..1];
  }

  /** Building a line from tokens that contain no "->": the iterator hands out exactly
      those tokens. */
  lemma {:induction false} TokensOfJoinedLine(prefix: string, tokens: seq<string>)
    requires !Contains(prefix, Marker) && |tokens| >= 1
    requires forall t :: t in tokens ==> !Contains(t, Delimiter)
    ensures Pending(prefix + Marker + Join(tokens, Delimiter), Initial(prefix + Marker + Join(tokens, Delimiter))) == tokens
  {
    var rest := Join(tokens, Delimiter);
    var line := prefix + Marker + rest;
    SeparatorsAreBorderless();
    FirstOccurrenceAfter(prefix, Marker, rest);
    assert line[|prefix| + 4..] == rest;
    SplitJoin(tokens, Delimiter);
  }

  /** The argument of `createIterator`: a string, or any other JavaScript value. */
  datatype RawData = Text(text: string) | NotText

  /** The iterator object of parser/iterator.js. */
  class LineIterator {
    const line: string
    var ix: nat
    var isDone: bool

    /** The state `next()` works on. */
    function State(): Cursor
      reads this
    {
      Cursor(ix, isDone)
    }

    constructor (data: string)
      ensures line == data && State() == Initial(data)
    {
      line := data;
      ix := StartIndex(data);
      isDone := false;
    }

    /** `next()`: answers as `NextStep` and moves the cursor as it does. */
    method Next() returns (step: Step)
      modifies this
      ensures (step, State()) == NextStep(line, old(State()))
      ensures old(isDone) ==> step == Done && State() == Initial(line)
      ensures !old(isDone) ==>
                && step == Yield(Pending(line, old(State()))[0])
                && Pending(line, State()) == Pending(line, old(State()))[1..]
    {
      if !isDone {
        NextTakesPending(line, State());
      }
      if isDone {
        isDone := false;
        ix := StartIndex(line);
        return Done;
      }
      var endIx := IndexOfFrom(line, Delimiter, ix);
      if endIx == -1 {
        var start := ix;
        isDone := true;
        ix := endIx + 2;
        return Yield(SubstringFrom(line, start));
      }
      var start := ix;
      ix := endIx + 2;
      step := Yield(line[start..endIx]);
    }
  }

  /** The outcome of `createIterator(data)`: a fresh iterator, or the thrown
      `UnexpectedDataType` error. */
  datatype Creation = Iterating(it: LineIterator) | UnexpectedDataType

  /** `createIterator(data)`: anything but a string is refused before any iteration. */
  method CreateIterator(data: RawData) returns (r: Creation)
    ensures data.NotText? <==> r == UnexpectedDataType
    ensures r.Iterating? ==> fresh(r.it) && r.it.line == data.text && r.it.State() == Initial(data.text)
  {
    if data.NotText? {
      return UnexpectedDataType;
    }
    var it := new LineIterator(data.text);
    return Iterating(it);
  }
}
