/** The synchronous decisions of index.js: when the tracked map is replaced, how the
    radar calibration text becomes properties of the map, and which WebSocket clients
    receive a payload. The UDP listener, the HTTP and WebSocket servers, the file
    system and the `convert` subprocess are outside the model; their callbacks are
    the methods of `Session`, called with what the I/O produced. */
module Server {
  import opened Wrappers
  import opened Strings
  import opened Values
  import opened Parser

  // ---------------------------------------------------------------------------
  // The tracked map

  /** `===` on the values a parse produces: strings by content, `undefined` equals
      itself, and two objects are never the same object, as each parse builds new ones. */
  predicate StrictEquals(a: Value, b: Value)
  {
    match (a, b)
    case (Str(x), Str(y)) => x == y
    case (Undefined, Undefined) => true
    case _ => false
  }

  /** The name of the map an event reports: `result.map.name`. */
  function ReportedName(result: Value): Value
  {
    Get(Get(result, "map"), "name")
  }

  /** `result.map && (!map || map.name !== result.map.name)`. */
  predicate ShouldReplace(current: Option<map<string, Value>>, result: Value)
  {
    Truthy(Get(result, "map"))
    && (current.None? || !StrictEquals(Get(Obj(current.value), "name"), ReportedName(result)))
  }

  /** The tracked map after a parsed event: a fresh `{name}` when the event reports
      another map, otherwise the same map. */
  function MapAfterEvent(current: Option<map<string, Value>>, result: Value): Option<map<string, Value>>
  {
    if ShouldReplace(current, result) then Some(map["name" := ReportedName(result)]) else current
  }

  /** Once a map is tracked, one always is; a replacement holds only the reported name
      (the calibration of the previous map is dropped), and an event that reports no map,
      or the tracked map's own name, leaves the map exactly as it was. */
  lemma MapTransitions(current: Option<map<string, Value>>, result: Value)
    ensures current.Some? ==> MapAfterEvent(current, result).Some?
    ensures ShouldReplace(current, result) ==>
              MapAfterEvent(current, result) == Some(map["name" := ReportedName(result)])
    ensures !Truthy(Get(result, "map")) ==> MapAfterEvent(current, result) == current
    ensures current.Some? && StrictEquals(Get(Obj(current.value), "name"), ReportedName(result)) ==>
              MapAfterEvent(current, result) == current
  {
  }

  /** The same event twice has the effect of once. */
  lemma MapAfterEventIdempotent(current: Option<map<string, Value>>, result: Value)
    ensures MapAfterEvent(MapAfterEvent(current, result), result) == MapAfterEvent(current, result)
  {
  }

  /** Leaving a map and coming back reloads it: the calibration read for the first
      visit is gone and a new read is requested. */
  lemma ReturnReplaces(current: map<string, Value>, a: Value, b: Value)
    requires Truthy(Get(a, "map")) && Truthy(Get(b, "map"))
    requires ReportedName(a).Str? && ReportedName(b).Str? && ReportedName(a) != ReportedName(b)
    ensures var afterB := MapAfterEvent(Some(current), b);
            var afterA := MapAfterEvent(afterB, a);
            && ShouldReplace(afterB, a)
            && afterA == Some(map["name" := ReportedName(a)])
  {
    var afterB := MapAfterEvent(Some(current), b);
    assert Get(Obj(afterB.value), "name") == ReportedName(b) || afterB == Some(current);
  }

  // ---------------------------------------------------------------------------
  // The calibration text

  /** The lines the reducer keeps: those that mention `pos_` or `scale`. */
  predicate Calibrates(line: string)
  {
    Contains(line, "pos_") || Contains(line, "scale")
  }

  /** `line.trim().replace(/"/g, '').split(/\s+/)`. */
  function Fields(line: string): (parts: seq<string>)
    ensures |parts| >= 1
  {
    RegexSplit(RemoveAll(Trim(line), '"'), SpaceRun)
  }

  /** `const [key, value] = Fields(line)`: the second field is `undefined` when there is
      only one. */
  function EntryOf(line: string): (string, Value)
  {
    var parts := Fields(line);
    (parts[0], if |parts| >= 2 then Str(parts[1]) else Undefined)
  }

  /** The filter step: the lines that calibrate, in their order, repeats included. */
  function KeptLines(lines: seq<string>): (kept: seq<string>)
    ensures forall line :: line in kept <==> line in lines && Calibrates(line)
    ensures |lines| == 1 ==> kept == (if Calibrates(lines[0]) then lines else [])
  {
    if lines == [] then []
    else (if Calibrates(lines[0]) then [lines[0]] else []) + KeptLines(lines[1..])
  }

  /** Filtering keeps order and repetitions: the lines kept from `a + b` are those kept
      from `a` followed by those kept from `b`. */
  lemma {:induction false} KeptLinesAppend(a: seq<string>, b: seq<string>)
    ensures KeptLines(a + b) == KeptLines(a) + KeptLines(b)
    decreases |a|
  {
    if a == [] {
      assert a + b == b;
    } else {
      assert (a + b)[1..] == a[1..] + b;
      KeptLinesAppend(a[1..], b);
    }
  }

  /** The key and value each line contributes, in order. */
  function Entries(lines: seq<string>): (entries: seq<(string, Value)>)
    ensures |entries| == |lines|
    ensures forall i :: 0 <= i < |lines| ==> entries[i] == EntryOf(lines[i])
  {
    seq(|lines|, i requires 0 <= i < |lines| => EntryOf(lines[i]))
  }

  /** The reducer over the kept lines: a left fold from an empty object in which each
      entry sets its key on the accumulator. */
  function Assign(entries: seq<(string, Value)>): map<string, Value>
  {
    if entries == [] then map[]
    else
      var last := entries[|entries| - 1];
      Assign(entries[..|entries| - 1])[last.0 := last.1]
  }

  /** The calibration of a radar file's text: its lines are split at "\n". */
  function CalibrationOfText(text: string): map<string, Value>
  {
    Assign(Entries(KeptLines(Split(text, "\n"))))
  }

  /** The reduced object has a key exactly when some entry sets it. */
  lemma {:induction false} AssignKeys(entries: seq<(string, Value)>, k: string)
    ensures k in Assign(entries) <==> exists i :: 0 <= i < |entries| && entries[i].0 == k
  {
    if entries != [] {
      var n := |entries| - 1;
      var init := entries[..n];
      AssignKeys(init, k);
      if entries[n].0 == k {
        assert k in Assign(entries);
      } else {
        assert k in Assign(entries) <==> k in Assign(init);
        if k in Assign(init) {
          var i :| 0 <= i < n && init[i].0 == k;
          assert entries[i].0 == k;
        }
        forall i | 0 <= i < |entries| && entries[i].0 == k ensures k in Assign(init) {
          assert init[i] == entries[i];
        }
      }
    }
  }

  /** A later entry with the same key overwrites an earlier one: the key holds the value
      of the last entry that sets it. */
  lemma {:induction false} AssignLastWins(entries: seq<(string, Value)>, i: nat)
    requires i < |entries|
    requires forall j :: i < j < |entries| ==> entries[j].0 != entries[i].0
    ensures entries[i].0 in Assign(entries)
    ensures Assign(entries)[entries[i].0] == entries[i].1
  {
    var n := |entries| - 1;
    if i < n {
      var init := entries[..n];
      assert init[i] == entries[i];
      assert forall j :: i < j < |init| ==> init[j] == entries[j];
      AssignLastWins(init, i);
    }
  }

  /** The calibration has a key exactly when some kept line of the text names it. */
  lemma CalibrationKeys(text: string, k: string)
    ensures k in CalibrationOfText(text) <==>
              exists line :: line in Split(text, "\n") && Calibrates(line) && EntryOf(line).0 == k
  {
    var lines := Split(text, "\n");
    if k in CalibrationOfText(text) {
      var line := KeyFromLine(lines, k);
    }
    if exists line :: line in lines && Calibrates(line) && EntryOf(line).0 == k {
      var line :| line in lines && Calibrates(line) && EntryOf(line).0 == k;
      LineGivesKey(lines, line);
    }
  }

  /** A key of the reduced object comes from a kept line. */
  lemma KeyFromLine(lines: seq<string>, k: string) returns (line: string)
    requires k in Assign(Entries(KeptLines(lines)))
    ensures line in lines && Calibrates(line) && EntryOf(line).0 == k
  {
    var kept := KeptLines(lines);
    var entries := Entries(kept);
    AssignKeys(entries, k);
    var i :| 0 <= i < |entries| && entries[i].0 == k;
    line := kept[i];
    assert line in kept;
  }

  /** A kept line sets its key in the reduced object. */
  lemma LineGivesKey(lines: seq<string>, line: string)
    requires line in lines && Calibrates(line)
    ensures EntryOf(line).0 in Assign(Entries(KeptLines(lines)))
  {
    var kept := KeptLines(lines);
    var entries := Entries(kept);
    assert line in kept;
    var i :| 0 <= i < |kept| && kept[i] == line;
    assert entries[i].0 == EntryOf(line).0;
    AssignKeys(entries, EntryOf(line).0);
  }

  /** Each key of the calibration holds the value of the last kept line that names it. */
  lemma CalibrationLastWins(text: string, i: nat)
    requires var lines := Split(text, "\n");
             i < |lines| && Calibrates(lines[i])
             && forall j :: i < j < |lines| && Calibrates(lines[j]) ==> EntryOf(lines[j]).0 != EntryOf(lines[i]).0
    ensures var lines := Split(text, "\n");
            EntryOf(lines[i]).0 in CalibrationOfText(text)
            && CalibrationOfText(text)[EntryOf(lines[i]).0] == EntryOf(lines[i]).1
  {
    KeptLastWins(Split(text, "\n"), i);
  }

  /** `CalibrationLastWins` for any sequence of lines. */
  lemma KeptLastWins(lines: seq<string>, i: nat)
    requires i < |lines| && Calibrates(lines[i])
    requires forall j :: i < j < |lines| && Calibrates(lines[j]) ==> EntryOf(lines[j]).0 != EntryOf(lines[i]).0
    ensures EntryOf(lines[i]).0 in Assign(Entries(KeptLines(lines)))
    ensures Assign(Entries(KeptLines(lines)))[EntryOf(lines[i]).0] == EntryOf(lines[i]).1
  {
    var kept := KeptLines(lines);
    var n := KeptAround(lines, i);
    var entries := Entries(kept);
    forall j | n < j < |entries| ensures entries[j].0 != entries[n].0 {
      var m := KeptLater(lines, i, n, j);
    }
    AssignLastWins(entries, n);
  }

  /** A kept line splits the kept lines into those before it and those after it;
      `n` is its place among them. */
  lemma KeptAround(lines: seq<string>, i: nat) returns (n: nat)
    requires i < |lines| && Calibrates(lines[i])
    ensures KeptLines(lines) == KeptLines(lines[..i]) + [lines[i]] + KeptLines(lines[i + 1..])
    ensures n == |KeptLines(lines[..i])|
  {
    var a, b := lines[..i], lines[i + 1..];
    assert lines == a + [lines[i]] + b;
    KeptLinesAppend(a + [lines[i]], b);
    KeptLinesAppend(a, [lines[i]]);
    n := |KeptLines(a)|;
  }

  /** A kept line after the `n`-th, which is line `i`, is a later line of the input. */
  lemma KeptLater(lines: seq<string>, i: nat, n: nat, j: nat) returns (m: nat)
    requires i < |lines|
    requires KeptLines(lines) == KeptLines(lines[..i]) + [lines[i]] + KeptLines(lines[i + 1..])
    requires n == |KeptLines(lines[..i])| && n < j < |KeptLines(lines)|
    ensures i < m < |lines| && lines[m] == KeptLines(lines)[j] && Calibrates(lines[m])
  {
    var b := lines[i + 1..];
    var line := KeptLines(lines)[j];
    assert line == KeptLines(b)[j - n - 1];
    assert line in KeptLines(b);
    var k :| 0 <= k < |b| && b[k] == line;
    m := i + 1 + k;
  }

  /** A line of a radar file, `"key" "value"` with white space around and between the
      quoted words, gives the key and the value without their quotes. */
  lemma CalibrationLine(lead: string, k: string, gap: string, v: string, trail: string)
    requires forall c :: c in lead + gap + trail ==> IsSpace(c)
    requires |gap| > 0 && |k| > 0 && |v| > 0
    requires forall c :: c in k + v ==> !IsSpace(c) && c != '"'
    ensures EntryOf(lead + "\"" + k + "\"" + gap + "\"" + v + "\"" + trail) == (k, Str(v))
  {
    var word := "\"" + k + "\"" + gap + "\"" + v + "\"";
    assert lead + word + trail == lead + "\"" + k + "\"" + gap + "\"" + v + "\"" + trail;
    assert forall c :: c in lead + trail ==> c in lead + gap + trail;
    TrimAround(lead, word, trail);
    forall c | c in k ensures c != '"' {
      assert c in k + v;
    }
    forall c | c in v ensures c != '"' {
      assert c in k + v;
    }
    forall c | c in gap ensures IsSpace(c) && c != '"' {
      assert c in lead + gap + trail;
    }
    RemoveQuotes(k, gap, v);
    SplitAtSpaceRun(k, gap, v);
  }

  /** Removing the quotes of `"k"gap"v"` leaves `k + gap + v` when those have none. */
  lemma RemoveQuotes(k: string, gap: string, v: string)
    requires '"' !in k && '"' !in gap && '"' !in v
    ensures RemoveAll("\"" + k + "\"" + gap + "\"" + v + "\"", '"') == k + gap + v
  {
    var q := "\"";
    RemoveAllAbsent(k, '"');
    RemoveAllAbsent(v, '"');
    RemoveAllAbsent(gap, '"');
    assert RemoveAll(q, '"') == "";
    var a1 := q + k;
    var a2 := a1 + q;
    var a3 := a2 + gap;
    var a4 := a3 + q;
    var a5 := a4 + v;
    var a6 := a5 + q;
    RemoveAllAppend(q, k, '"');
    assert RemoveAll(a1, '"') == k;
    RemoveAllAppend(a1, q, '"');
    assert RemoveAll(a2, '"') == k;
    RemoveAllAppend(a2, gap, '"');
    assert RemoveAll(a3, '"') == k + gap;
    RemoveAllAppend(a3, q, '"');
    assert RemoveAll(a4, '"') == k + gap;
    RemoveAllAppend(a4, v, '"');
    assert RemoveAll(a5, '"') == k + gap + v;
    RemoveAllAppend(a5, q, '"');
    assert RemoveAll(a6, '"') == k + gap + v;
  }

  /** `trim` removes exactly the white space around a word that starts and ends with
      other characters. */
  lemma TrimAround(lead: string, word: string, trail: string)
    requires forall c :: c in lead + trail ==> IsSpace(c)
    requires |word| > 0 && !IsSpace(word[0]) && !IsSpace(word[|word| - 1])
    ensures Trim(lead + word + trail) == word
  {
    var s := lead + word + trail;
    var e := |lead| + |word|;
    forall q | 0 <= q < |lead| ensures IsSpace(s[q]) {
      assert s[q] == lead[q] && lead[q] in lead + trail;
    }
    forall q | e <= q < |s| ensures IsSpace(s[q]) {
      assert s[q] == trail[q - e] && trail[q - e] in lead + trail;
    }
    assert s[|lead|] == word[0];
    assert s[e - 1] == word[|word| - 1];
    SpanSpacesEndsAt(s, 0, |lead|);
    TrimEndOfGap(s, |lead|, |s|, e);
    assert s[|lead|..e] == word;
  }

  /** Moving left over trailing white space stops after the last other character. */
  lemma {:induction false} TrimEndOfGap(s: string, i: nat, j: nat, e: nat)
    requires i < e <= j <= |s| && !IsSpace(s[e - 1]) && !IsSpace(s[i])
    requires forall q :: e <= q < j ==> IsSpace(s[q])
    ensures TrimEndAt(s, i, j) == e
    decreases j
  {
    if j > e {
      TrimEndOfGap(s, i, j - 1, e);
    }
  }

  /** Splitting `k + gap + v` at runs of white space, when only `gap` is white space. */
  lemma SplitAtSpaceRun(k: string, gap: string, v: string)
    requires |gap| > 0 && |k| > 0 && |v| > 0
    requires forall c :: c in gap ==> IsSpace(c)
    requires forall c :: c in k + v ==> !IsSpace(c)
    ensures RegexSplit(k + gap + v, SpaceRun) == [k, v]
  {
    var s := k + gap + v;
    GapIsFirstRun(k, gap, v);
    forall c | c in v ensures !IsSpace(c) {
      assert c in k + v;
    }
    NoSpaceRun(v);
    assert s[..|k|] == k;
    assert s[|k| + |gap|..] == v;
  }

  /** In `k + gap + v`, the first run of white space is the gap. */
  lemma GapIsFirstRun(k: string, gap: string, v: string)
    requires |gap| > 0 && |k| > 0 && |v| > 0
    requires forall c :: c in gap ==> IsSpace(c)
    requires forall c :: c in k + v ==> !IsSpace(c)
    ensures FirstMatch(SpaceRun, k + gap + v, 0) == |k|
    ensures MatchEnd(SpaceRun, k + gap + v, |k|) == |k| + |gap|
  {
    var s := k + gap + v;
    assert forall q :: 0 <= q < |k| ==> s[q] == k[q] && k[q] in k + v;
    assert s[|k|] == gap[0];
    assert forall q :: |k| <= q < |k| + |gap| ==> s[q] == gap[q - |k|];
    assert s[|k| + |gap|] == v[0] && v[0] in k + v;
    forall q | 0 <= q < |k| ensures MatchEnd(SpaceRun, s, q) == -1 {
      assert !IsSpace(s[q]);
    }
    assert MatchEnd(SpaceRun, s, |k|) != -1;
    SpanSpacesEndsAt(s, |k|, |k| + |gap|);
  }

  /** A word without white space has no run of it. */
  lemma NoSpaceRun(w: string)
    requires forall c :: c in w ==> !IsSpace(c)
    ensures FirstMatch(SpaceRun, w, 0) == -1
  {
    forall q | 0 <= q < |w| ensures MatchEnd(SpaceRun, w, q) == -1 {
      assert w[q] in w;
    }
  }

  // ---------------------------------------------------------------------------
  // Clients and payloads

  /** `ws.CONNECTING`, `ws.OPEN`, `ws.CLOSING` and `ws.CLOSED`. */
  datatype ReadyState = Connecting | Open | Closing | Closed

  /** A connected WebSocket client. */
  datatype Client = Client(id: nat, readyState: ReadyState)

  /** One `client.send(JSON.stringify(payload))`. */
  datatype Delivery = Delivery(client: nat, payload: Value)

  /** The clients `forEach` reaches with `readyState === OPEN`, in their order. */
  function OpenClients(clients: seq<Client>): (open: seq<Client>)
  {
    if clients == [] then []
    else if clients[0].readyState == Open then [clients[0]] + OpenClients(clients[1..])
    else OpenClients(clients[1..])
  }

  /** A client is reached exactly when it is connected and open, at most as often as it
      occurs; an all-open list is reached as it is. */
  lemma {:induction false} OpenClientsExactly(clients: seq<Client>)
    ensures forall c :: c in OpenClients(clients) <==> c in clients && c.readyState == Open
    ensures |OpenClients(clients)| <= |clients|
    ensures (forall i :: 0 <= i < |clients| ==> clients[i].readyState == Open) ==> OpenClients(clients) == clients
  {
    if clients != [] {
      OpenClientsExactly(clients[1..]);
      assert clients == [clients[0]] + clients[1..];
    }
  }

  /** The broadcast loop: every client in the server's list whose state is open is sent
      the payload, in list order; the others are skipped. */
  method Broadcast(clients: seq<Client>, payload: Value) returns (sent: seq<Delivery>)
    ensures |sent| == |OpenClients(clients)|
    ensures forall i :: 0 <= i < |sent| ==> sent[i] == Delivery(OpenClients(clients)[i].id, payload)
  {
    sent := [];
    var i := 0;
    while i < |clients|
      invariant 0 <= i <= |clients|
      invariant |sent| == |OpenClients(clients[..i])|
      invariant forall j :: 0 <= j < |sent| ==> sent[j] == Delivery(OpenClients(clients[..i])[j].id, payload)
    {
      OpenClientsSnoc(clients[..i], clients[i]);
      assert clients[..i + 1] == clients[..i] + [clients[i]];
      if clients[i].readyState == Open {
        sent := sent + [Delivery(clients[i].id, payload)];
      }
      i := i + 1;
    }
    assert clients[..i] == clients;
  }

  /** Reaching one more client at the end of the list. */
  lemma {:induction false} OpenClientsSnoc(clients: seq<Client>, c: Client)
    ensures OpenClients(clients + [c]) == OpenClients(clients) + (if c.readyState == Open then [c] else [])
    decreases |clients|
  {
    if clients == [] {
      assert [c][1..] == [];
    } else {
      assert (clients + [c])[1..] == clients[1..] + [c];
      OpenClientsSnoc(clients[1..], c);
    }
  }

  /** The map notification `{command: 'map', map}`. */
  function MapNotice(m: map<string, Value>): (notice: Value)
    ensures Get(notice, "command") == Str("map") && Get(notice, "map") == Obj(m)
  {
    Obj(map["command" := Str("map"), "map" := Obj(m)])
  }

  // ---------------------------------------------------------------------------
  // The event handlers

  /** What the `data` handler does with one log line. */
  datatype Handling =
    | Ignored                   // not a Haywire line: returns silently
    | Logged                    // any other parse error: logged, nothing sent
    | Crashed(e: Exception)     // the parser threw out of the handler
    | Handled(result: Value)    // parsed: sent to every open client

  /** The state of index.js: the tracked `map` (null until a map is reported). */
  class Session {
    var tracked: Option<map<string, Value>>

    constructor ()
      ensures tracked == None
    {
      tracked := None;
    }

    /** `wss.on('connection')`: the new socket gets the map notification iff a map is
        tracked, even when it has no calibration yet. */
    method OnConnection() returns (notice: Option<Value>)
      ensures tracked.None? <==> notice.None?
      ensures tracked.Some? ==> notice == Some(MapNotice(tracked.value))
    {
      if tracked.Some? {
        return Some(MapNotice(tracked.value));
      }
      return None;
    }

    /** `cs.on('data')`: parse, maybe replace the map and request its calibration file
        (`readRequest` is the name whose file is read), then send the event to the open
        clients; the event is sent also when the map has just changed. */
    method OnData(data: string, clients: seq<Client>) returns (h: Handling, readRequest: Option<Value>, sent: seq<Delivery>)
      modifies this
      ensures var p := Parse(data);
              && (p.Rejected? && p.err.NonHaywireData? <==> h == Ignored)
              && (p.Rejected? && p.err.ParserNotImplemented? <==> h == Logged)
              && (p.Threw? <==> h.Crashed?)
              && (p.Threw? ==> h == Crashed(p.exception))
              && (p.Parsed? ==> h == Handled(p.result))
              && (h.Handled? ==> p.Parsed?)
      ensures !h.Handled? ==> tracked == old(tracked) && readRequest.None? && sent == []
      ensures h.Handled? ==>
                && tracked == MapAfterEvent(old(tracked), h.result)
                && (readRequest.Some? <==> ShouldReplace(old(tracked), h.result))
                && (readRequest.Some? ==> readRequest.value == ReportedName(h.result))
                && |sent| == |OpenClients(clients)|
                && forall i :: 0 <= i < |sent| ==> sent[i] == Delivery(OpenClients(clients)[i].id, h.result)
    {
      var p := ParseLogLine(data);
      readRequest := None;
      sent := [];
      match p {
        case Rejected(err) =>
          h := if err.NonHaywireData? then Ignored else Logged;
        case Threw(e) =>
          h := Crashed(e);
        case Parsed(result) =>
          h := Handled(result);
          if ShouldReplace(tracked, result) {
            tracked := Some(map["name" := ReportedName(result)]);
            readRequest := Some(ReportedName(result));
          }
          sent := Broadcast(clients, result);
      }
    }

    /** The `fs.readFile` callback: on success the calibration is assigned into whichever
        map is tracked by then (there is no check that it is still the one requested). */
    method OnCalibrationRead(file: Option<string>)
      requires tracked.Some?
      modifies this
      ensures file.None? ==> tracked == old(tracked)
      ensures file.Some? ==> tracked == Some(old(tracked).value + CalibrationOfText(file.value))
    {
      if file.Some? {
        tracked := Some(tracked.value + CalibrationOfText(file.value));
      }
    }

    /** The `fs.stat` callback: an existing image means the map notification goes to the
        open clients now; a missing one means `convert` is started. */
    method OnImageChecked(exists_: bool, clients: seq<Client>) returns (convert: bool, sent: seq<Delivery>)
      requires tracked.Some?
      ensures convert <==> !exists_
      ensures !exists_ ==> sent == []
      ensures exists_ ==> |sent| == |OpenClients(clients)|
                          && forall i :: 0 <= i < |sent| ==> sent[i] == Delivery(OpenClients(clients)[i].id, MapNotice(tracked.value))
    {
      if exists_ {
        sent := Broadcast(clients, MapNotice(tracked.value));
        return false, sent;
      }
      return true, [];
    }

    /** The `exec('convert …')` callback: on success the map notification goes to the open
        clients; on failure it is logged. */
    method OnConversionDone(ok: bool, clients: seq<Client>) returns (sent: seq<Delivery>)
      requires tracked.Some?
      ensures !ok ==> sent == []
      ensures ok ==> |sent| == |OpenClients(clients)|
                     && forall i :: 0 <= i < |sent| ==> sent[i] == Delivery(OpenClients(clients)[i].id, MapNotice(tracked.value))
    {
      sent := [];
      if ok {
        sent := Broadcast(clients, MapNotice(tracked.value));
      }
    }
  }
}
