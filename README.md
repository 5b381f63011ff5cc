# haywire log-line pipeline, modelled in Dafny

haywire reads a game server's UDP log stream. Each line that carries the `HW->` marker is
cut into tokens at `->`. The first token is a command and the second a version. A
table maps the command and version to a list of field extractors, which read the
following tokens and build a nested JSON-like event. The server tracks which map is being
played. When the map changes it loads the map's radar calibration and sends the map to
the connected WebSocket clients. It also sends every parsed event to every open client.
A separate script pulls the entity lump out of a compiled map file and turns it into one
property map per entity.

The model has seven modules, one per concern of the program:

- `Wrappers` holds `Option` and `Result`.
- `Strings` models the JavaScript string operations the program relies on: `indexOf`,
  `lastIndexOf`, `includes`, `substring`, `split` (by a string and by the three regular
  expressions used), `trim`, `replace(/"/g, '')` and `slice`.
- `Iterator` models `parser/iterator.js`.
  - `NextStep` is one `next()` call on the cursor `(_ix, _isDone)`, as a function.
  - `LineIterator` is the iterator object, a class whose `Next` method updates that
    state in place.
  - `Pending` gives the tokens still to come, so that what `next()` does can be stated
    as "hand out the first pending token".
- `Values` models the values events are built from: strings, `undefined` and plain
  objects. It has `mergeDeep` both as a function (`MergeDeep`) and as the `for…in`
  loop that runs it (`MergeDeepInto`).
- `Parser` models `parser/index.js`.
  - `Table` is the `PARSERS` table: all 56 commands, each with version `'1'` only.
  - The seven extractors become the datatype `Extractor` and the function `RunExtractor`.
  - `Parse` gives the outcome of `parseLogLine`: returned, returned with an error, or
    thrown.
  - `ParseLogLine` is the method that runs it the way the source does: a fresh
    iterator, two `next()` calls, then a loop folding the fragments in with
    `MergeDeepInto`. It is proved equal to `Parse`.
- `Server` models the synchronous decisions of `index.js`: when the tracked map is
  replaced, how the calibration text becomes properties of the map, and which clients
  receive a payload.
  - The class `Session` holds the tracked map.
  - Each callback of the program is a method of `Session`. It receives what the I/O
    produced as parameters.
- `Entities` models `maps/entities.js`.
  - `FindClosestIndexOf` is the directional search loop.
  - `EntityLump` slices out the entity text.
  - `ParseEntities` splits that text into groups and folds each group's
    `"key" "value"` lines into a map.

Where the code does something other than its stated design, the model follows the code:

- A known command with a version other than `'1'` throws out of `parseLogLine`. The
  code calls `.reduce` on `parser[version]`, which is `undefined` for an unknown version
  and an inherited member without `reduce` (a function, say) for a version such as
  `toString`. It does not report `ParserNotImplemented`.
- A command that names a property every object inherits (`toString`, `constructor`,
  `__proto__`, …) finds a truthy value in `PARSERS`, so it also throws.
- A thrown parser error is not caught in the `data` listener. Unless the `srcds-log`
  library that calls the listener catches it (that library is not part of this model),
  Node's default for an uncaught exception is to end the process. The model records
  the throw as `Handling.Crashed` for that datagram.
- The calibration callback writes into whichever map is tracked when the file arrives.
  No check ties a completion to the map it was requested for.
- A failed calibration read is not retried. The map has already been replaced, so a
  later event naming the same map does not trigger another read.
- A connecting client gets the tracked map as soon as one is tracked, before its
  calibration or image is ready.
- After handing out the last token the iterator sets `_ix` to `-1 + 2 = 1`. The next
  call answers done and goes back to the start. Extractors that read past the end see
  `undefined` once and then the command token again.

## Model

| member | source | states |
|---|---|---|
| `Strings.IndexOfFrom` | parser/iterator.js:16 | `indexOf(pat, from)` is the first occurrence at or after `from`, or -1 when none exists |
| `Strings.Contains` | parser/index.js:177 | `includes` / `indexOf >= 0` holds exactly when the pattern occurs somewhere |
| `Strings.LastIndexOf` | maps/entities.js:17 | `lastIndexOf` is an occurrence with none after it; it finds one exactly when `indexOf` does, and never before it |
| `Strings.SubstringFrom` | parser/iterator.js:21 | `substring(start)` is the suffix from `start`, clamped to the string |
| `Strings.Trim` | index.js:63 | `trim()` is a middle slice whose dropped ends are white space and whose own ends are not |
| `Strings.RemoveAll` | index.js:63 | `replace(/"/g, '')` leaves no quote and keeps every other character, adding none |
| `Strings.IndexOf` | parser/index.js:177 | `indexOf(pat)` is the search from 0; `IndexOfFrom` and `Contains` state what it finds |
| `Strings.Split` | index.js:60 | `split(sep)` by a non-empty string gives at least one piece; `JoinSplit`, `SplitPiecesAreFree` and `SplitJoin` state which pieces |
| `Strings.JoinSplit` | index.js:60 | joining the pieces of a split with the separator gives back the string |
| `Strings.SplitPiecesAreFree` | maps/entities.js:25 | no piece of a split contains the separator |
| `Strings.SplitJoin` | parser/iterator.js:16-25 | splitting a join of separator-free pieces at `->`, `HW->`, `,` or `\n` gives back the pieces |
| `Strings.MatchEnd` | maps/entities.js:27 | where the match of `/\s+/`, `/"\s+"/` or `/}\s*[\r?\n]*{/` that starts at a position ends, always past that position, or -1 when none starts there |
| `Strings.FirstMatch` | maps/entities.js:27 | the leftmost start of a match at or after a position, with no match between the two, or -1 when there is none |
| `Strings.RegexSplit` | maps/entities.js:27 | splitting by a regular expression gives the whole string when nothing matches and at least two pieces when something does |
| `Strings.RegexPiecesFree` | maps/entities.js:27 | no piece of a split by a regular expression contains a match of it |
| `Strings.RegexSplitRejoins` | index.js:63 | the pieces with the matched separators put back between them rebuild the string, one piece more than separators |
| `Strings.RegexMatchesWhole` | maps/entities.js:23 | every separator the split drops is non-empty and, on its own, one whole match of the expression |
| `Strings.DropFirst` | maps/entities.js:32 | `slice(1)` is everything after the first character |
| `Strings.DropLast` | maps/entities.js:32 | `slice(0, length - 1)` is everything before the last character |
| `Iterator.StartIndex` | parser/iterator.js:27 | the cursor starts four characters past the first `HW->` |
| `Iterator.NextStep` | parser/iterator.js:10-14 | `next()` answers done exactly after done, and then goes back to the start |
| `Iterator.NextStepYields` | parser/iterator.js:16-25 | before done, `next()` yields the text up to the first `->` at or after the cursor and moves past it; with none left it yields the rest of the line, sets done and leaves `_ix` at 1 |
| `Iterator.NextTakesPending` | parser/iterator.js:16-25 | each `next()` before done yields the first pending token and leaves the rest pending |
| `Iterator.DrainIsPending` | parser/iterator.js:10-26 | calling `next()` until done hands out exactly the pending tokens |
| `Iterator.TokensRoundTrip` | parser/iterator.js:13-25 | the tokens joined again with `->` are the line after its first `HW->`, and no token contains `->` |
| `Iterator.WrapsAround` | parser/iterator.js:11-20 | one call per pending token makes the iterator done at `_ix` 1; one more puts it back at the start |
| `Iterator.TokensOfJoinedLine` | parser/iterator.js:13-27 | a line made of a prefix without `HW->`, the marker and `->`-free tokens joined by `->` yields exactly those tokens |
| `Iterator.LineIterator.constructor` | parser/iterator.js:7-29 | a fresh iterator is at the start, not done |
| `Iterator.LineIterator.Next` | parser/iterator.js:10-26 | `next()` answers and moves the cursor as `NextStep` does: done after done, otherwise the first pending token |
| `Iterator.CreateIterator` | parser/iterator.js:3-6 | a non-string argument is refused with `UnexpectedDataType`; a string gets a fresh iterator at the start |
| `Values.Truthy` | parser/index.js:295 | JavaScript truthiness of the model's values: only `''` and `undefined` are falsy; `MergeCombinesNested` uses it for the `!target[key]` test |
| `Values.IsObject` | parser/index.js:281-283 | `isObject` holds of plain objects only, not of strings or `undefined`; `MergeDeep` states what each case does |
| `Values.MergeDeep` | parser/index.js:285-306 | merging two objects keeps the union of their keys, leaves keys absent from the source unchanged and overwrites with scalar source values; a non-object target is returned as it is |
| `Values.MergeDeepInto` | parser/index.js:292-303 | the `for…in` loop, writing one key per step in any order, computes `MergeDeep` |
| `Values.MergeCombinesNested` | parser/index.js:294-298 | an object source value combines its keys with the target's object under the same key, or with `{}` when the target's value is falsy; a truthy string target value is kept |
| `Values.MergeIntoEmpty` | parser/index.js:295-298 | merging an object into `{}` copies it |
| `Values.MergeDisjoint` | parser/index.js:292-302 | objects with disjoint keys merge to their union |
| `Values.MergeIdempotent` | parser/index.js:285-306 | merging the same source twice has the effect of once |
| `Parser.Table` | parser/index.js:5-174 | `PARSERS[command]` for the table's own properties, each holding version `'1'` only; `OnlyVersionOne` states it of every command |
| `Parser.VersionOne` | parser/index.js:5-174 | the extractor list of each of the 56 commands, in the order written; `ZeroFieldCommandsYieldCommand`, `DeathExtractorsWriteVictim` and `JumpLineFolds` state entries of it |
| `Parser.RunExtractor` | parser/index.js:204-279 | one extractor run on the iterator's state; `FragmentShape`, `ExtractorThrows` and `ExtractorConsumes` state what it returns |
| `Parser.Fold` | parser/index.js:198-199 | the `reduce` merging each fragment into `{command}`; `FoldOutcomes`, `FoldKeys` and `FoldFollowsTokens` state what it returns |
| `Parser.Parse` | parser/index.js:176-202 | the outcome of `parseLogLine`; `RejectsNonHaywire`, `RejectsUnknownCommand`, `ThrowsWithoutExtractorList`, `FoldsExtractors` and `ParseLogLine` state it |
| `Parser.Dispatch` | parser/index.js:189-199 | the choice on the table's answer and the version; `DispatchOutcomes` states it |
| `Parser.OnlyVersionOne` | parser/index.js:5-174 | every command of `PARSERS` has the single version `'1'` |
| `Parser.Extract` | parser/index.js:204-279 | running an extractor on the iterator object reads its tokens and returns its fragment, or throws exactly when the function model throws |
| `Parser.ParseLogLine` | parser/index.js:176-202 | the iterator-and-loop implementation computes `Parse` |
| `Parser.HeadTokens` | parser/index.js:185-187 | the first two `next()` calls give the command token and the version token (`undefined` if missing) |
| `Parser.ParseDispatches` | parser/index.js:185-197 | a Haywire line is dispatched on the table's answer for its first token and on its second token |
| `Parser.FoldOutcomes` | parser/index.js:198-199 | the reduce over the extractors either returns a result or throws from an extractor |
| `Parser.DispatchOutcomes` | parser/index.js:189-199 | the dispatch rejects exactly unknown commands, with command and version; it throws for want of an extractor list exactly on an inherited property or a missing version |
| `Parser.RejectsNonHaywire` | parser/index.js:177-183 | a line without `HW->` is rejected as `NonHaywireData` carrying the line, and only such a line |
| `Parser.RejectsUnknownCommand` | parser/index.js:189-197 | a Haywire line is rejected exactly when its command is neither in the table nor inherited, and then as `ParserNotImplemented` |
| `Parser.ThrowsWithoutExtractorList` | parser/index.js:189-199 | an inherited command name, or a known command with a version other than `'1'`, throws; nothing else throws that way |
| `Parser.FoldsExtractors` | parser/index.js:198-199 | a known command with version `'1'` is the fold of its extractors from `{command}` |
| `Parser.ZeroFieldCommandsYieldCommand` | parser/index.js:12-29 | `buytime_ended`, `bomb_beep` and `bomb_exploded` parse to `{command}` alone |
| `Parser.FragmentShape` | parser/index.js:204-279 | each fragment has exactly one property, named by the extractor (`entity` for entities), holding an object with the extractor's fields (`int` holds the bare token) |
| `Parser.FoldKeys` | parser/index.js:198-199 | the fold keeps the accumulator's properties and adds one per extractor |
| `Parser.FoldNestedKeys` | parser/index.js:292-298 | extractors writing the same key combine their nested objects |
| `Parser.ParsedKeepsCommand` | parser/index.js:198-201 | a parsed line has `command` equal to its first token and exactly one further property per extractor |
| `Parser.ExtractorThrows` | parser/index.js:204-247 | `userCoords`, `entity`, `coordinates` and `healthArmour` throw exactly when a token they split is `undefined`; the others never throw |
| `Parser.DoneAfterOne` | parser/iterator.js:16-21 | one `next()` makes the iterator done exactly when one token was pending |
| `Parser.ExtractorConsumes` | parser/index.js:204-279 | with enough tokens, an extractor reads 3, 2 or 1 of them and builds its fragment from their raw text |
| `Parser.FoldFollowsTokens` | parser/index.js:198-199 | with enough tokens the fold never throws and is the fold over the token list |
| `Parser.ParseFollowsTokens` | parser/index.js:185-201 | a known command with version `'1'` and enough tokens parses to the fold over the tokens after command and version |
| `Parser.JumpLineFolds` | parser/index.js:135-137 | the `player_jump` example line is `{command}` merged with one `userCoords('originator')` fragment |
| `Parser.PlayerJumpExample` | parser/index.js:204-217 | the example parses to `{command, originator: {clientId, coordinates: {x, y, z}, orientation: {ang0, ang1, ang2}}}` with the raw token text |
| `Parser.DeathExtractorsWriteVictim` | parser/index.js:120-122 | `player_death` writes under `victim` the fields `clientId`, `coordinates`, `orientation`, `team` and `name` |
| `Parser.PlayerDeathVictim` | parser/index.js:254-270 | a parsed `player_death` holds one `victim` object with all those fields together |
| `Server.ShouldReplace` | index.js:48 | the test for replacing the tracked map; `MapTransitions` states when it holds |
| `Server.MapAfterEvent` | index.js:48-52 | the tracked map after an event; `MapTransitions`, `MapAfterEventIdempotent` and `ReturnReplaces` state it |
| `Server.MapTransitions` | index.js:48-52 | once a map is tracked one always is; a replacement holds only the reported name; an event with no map or the same name leaves the map as it was |
| `Server.MapAfterEventIdempotent` | index.js:48-52 | the same event twice changes the map as once |
| `Server.ReturnReplaces` | index.js:48-57 | leaving a map and coming back replaces it again, dropping its calibration |
| `Server.KeptLines` | index.js:61 | a line is kept exactly when it contains `pos_` or `scale`; a single line is kept exactly when it does |
| `Server.KeptLinesAppend` | index.js:61 | the filter keeps order and repetitions: the lines kept from `a + b` are those kept from `a` followed by those kept from `b` |
| `Server.Fields` | index.js:63 | the trimmed line without quotes, split at runs of white space, has at least one field; `CalibrationLine` states the fields of a radar line |
| `Server.EntryOf` | index.js:63-64 | the first field is the key and the second the value, `undefined` when there is none; `CalibrationLine` states it of a radar line |
| `Server.Assign` | index.js:62-66 | the reducer setting one key per entry; `AssignKeys` and `AssignLastWins` state its result |
| `Server.CalibrationOfText` | index.js:58-67 | the object assigned into the map; `CalibrationKeys` and `CalibrationLastWins` state its keys and values |
| `Server.CalibrationKeys` | index.js:58-67 | the calibration has a key exactly when some line of the text that contains `pos_` or `scale` names it |
| `Server.CalibrationLastWins` | index.js:58-67 | each key holds the value given by the last such line that names it |
| `Server.AssignKeys` | index.js:62-66 | the reduced calibration has a key exactly when some kept line sets it |
| `Server.AssignLastWins` | index.js:62-66 | a key holds the value of the last line that sets it |
| `Server.CalibrationLine` | index.js:63 | a radar line `"key" "value"` with white space around gives the key and value without quotes |
| `Server.OpenClients` | index.js:99-103 | the clients the broadcast reaches; `OpenClientsExactly` and `Broadcast` state which |
| `Server.OpenClientsExactly` | index.js:99-103 | a client is reached exactly when it is open; an all-open list is reached as it is |
| `Server.Broadcast` | index.js:99-103 | one delivery of the payload per open client, in order |
| `Server.MapNotice` | index.js:24-27 | the map notification is `{command: 'map', map}` |
| `Server.Session.constructor` | index.js:12 | no map is tracked at start |
| `Server.Session.OnConnection` | index.js:22-29 | a new socket gets the map notification exactly when a map is tracked |
| `Server.Session.OnData` | index.js:39-104 | non-Haywire lines are ignored, other errors logged, throws crash; a parsed event may replace the map and request its calibration, and is sent to every open client |
| `Server.Session.OnCalibrationRead` | index.js:53-67 | a successful read assigns the calibration into the map tracked by then; a failed one changes nothing |
| `Server.Session.OnImageChecked` | index.js:69-95 | an existing image sends the map notification to the open clients; a missing one starts `convert` |
| `Server.Session.OnConversionDone` | index.js:71-84 | a successful conversion sends the map notification to the open clients; a failed one sends nothing |
| `Entities.SliceEquals` | maps/entities.js:48 | the slice comparison, false when the slice runs past the end; `FindClosestIndexOf` states the search through it |
| `Entities.FindClosestIndexOf` | maps/entities.js:41-56 | returns the closest position past `ix` in the search direction where the pattern starts, never 0; throws `Could not find entities start index.` exactly when none exists before reaching 0 |
| `Entities.EntityLump` | maps/entities.js:16-20 | the entity text runs from the `{` closest before the first `"hammerid" "` to the `}` closest after the last; it throws when no such `{` exists |
| `Entities.InnerText` | maps/entities.js:23 | `slice(1, length - 1)` drops the outer braces |
| `Entities.ClassifyLine` | maps/entities.js:27-32 | an empty line is skipped; a non-empty line without `"\s+"` throws with that line; any other line is a property |
| `Entities.Apply` | maps/entities.js:28-33 | one line applied to the entity; `FoldKeys`, `FoldLastWins` and `FoldSkipsBlank` state its effect |
| `Entities.FoldLines` | maps/entities.js:26-34 | the `reduce` over a group's lines; `FoldFails`, `FoldKeys` and `FoldProperties` state its result |
| `Entities.ParseGroup` | maps/entities.js:24-34 | one group split at `\n` and folded; `GroupLines` and `GroupOfProperties` state its result |
| `Entities.ParseEntities` | maps/entities.js:23-35 | the lump without its outer braces, split into groups and parsed; `ParseGroupsExactly` and `LumpOfGroups` state its result |
| `Entities.FoldFails` | maps/entities.js:26-34 | a group fails exactly when one of its lines is unpaired, and with the first such line |
| `Entities.FoldKeys` | maps/entities.js:26-34 | a parsed group has a key exactly when a property line sets it, except `__proto__` |
| `Entities.FoldLastWins` | maps/entities.js:31-33 | a later line with the same key overwrites an earlier one |
| `Entities.FoldSkipsBlank` | maps/entities.js:28-30 | a blank line changes nothing |
| `Entities.PropertyLine` | maps/entities.js:27-32 | the line `"k"<gap>"v"` reads as the property `k = v` |
| `Entities.GroupLines` | maps/entities.js:25 | a group written as lines joined by `\n` is read line by line |
| `Entities.FoldProperties` | maps/entities.js:26-34 | a group of property lines parses to the keys they set, each with its last value |
| `Entities.GroupOfProperties` | maps/entities.js:24-34 | writing key/value pairs one per line and parsing gives exactly those keys with their last values |
| `Entities.ParseGroupsExactly` | maps/entities.js:23-35 | the lump parses exactly when every group does, giving one entity per group in order |
| `Entities.GroupsOfJoined` | maps/entities.js:23 | groups without `}` joined by `}\n{` split back into those groups |
| `Entities.LumpOfGroups` | maps/entities.js:23-35 | a lump written as `{group}\n{group}…` parses group by group |

## Left out

- UDP listening, the HTTP and WebSocket servers, file reads and writes, `fs.stat`, the `convert` subprocess and `async/parallel` are not modelled. Their results enter the `Session` methods as parameters, and `EntityLump` receives the file text.
- The order in which asynchronous callbacks run is not modelled. Each callback is a method that any caller may invoke in any order.
- `JSON.stringify` is not modelled. A delivery carries the value itself.
- Property insertion order of objects is not modelled. Objects are maps, so the order of keys in the serialised output is not captured.
- Values.MergeDeep: describes the merge on values. The source's in-place update of the target's nested objects and any aliasing between them are not modelled. Each parse builds fresh objects, so no aliasing can be observed.
- Server.AssignKeys: a calibration key `__proto__` would go to the prototype setter in the source. The model treats it as an ordinary key.
- Entities.FindClosestIndexOf: a forward search with no match ahead loops forever in the source. The model requires a match ahead instead of modelling non-termination.
- Entities.EntityLump: once the `{` before the first `"hammerid" "` is found, the forward search for `}` loops forever in the source when none follows the last one. The model requires such a `}` in that case instead of modelling non-termination.
- Server.Session.OnData: a throw is recorded as `Crashed` for that datagram and the session goes on accepting data, whereas an uncaught exception would normally end the whole process.
- Values.MergeDeep: a source key naming an `Object.prototype` member (`constructor`, `toString`, `__proto__`, …) with an object value finds the inherited member truthy, so no own key is created, and `__proto__` merges into the prototype. The model treats such keys as ordinary keys. The parser's fixed field names never reach this case.
- Entities.EntityLump: its result is stated through the two closest braces that bound it. It is not given as a closed formula.
- Files are read as UTF-8 text, and the model works on the decoded characters. Bytes and encoding errors are not modelled.
- The `maps/entities.js` task writes its result file at line 37. That write is not modelled, and neither is the list of maps it runs over.
- The front end (`elm-frontend/`) is not part of this model.
