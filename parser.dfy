/** The line parser of parser/index.js: the `PARSERS` table from command and version to
    an ordered list of field extractors, the seven extractors (each reads a fixed number
    of tokens from the shared iterator), and `parseLogLine`, which folds the extractors'
    fragments into `{command}` with `mergeDeep`. */
module Parser {
  import opened Wrappers
  import opened Strings
  import opened Iterator
  import opened Values

  /** A property name an extractor writes: never `command`, which the fold starts from. */
  type Key = k: string | k != "command" witness "originator"

  /** The field extractors, each made by a factory applied to a property name (for
      `entity`, to the entity's type tag). */
  datatype Extractor =
    | UserCoords(key: Key)    // userCoords(type)
    | Entity(tag: string)        // entity(type)
    | Coordinates(key: Key)   // coordinates(type)
    | HealthArmour(key: Key)  // healthArmour(type)
    | Team(key: Key)          // team(type)
    | Name(key: Key)          // name(type)
    | Int(key: Key)           // int(type)

  /** The number of tokens an extractor reads. */
  function Arity(e: Extractor): nat
  {
    match e
    case UserCoords(_) => 3
    case Entity(_) => 2
    case _ => 1
  }

  /** The number of tokens a list of extractors reads. */
  function TotalArity(es: seq<Extractor>): nat
  {
    if es == [] then 0 else Arity(es[0]) + TotalArity(es[1..])
  }

  /** The one property an extractor's fragment has. */
  function FragmentKey(e: Extractor): Key
  {
    match e
    case Entity(_) => "entity"
    case UserCoords(key) => key
    case Coordinates(key) => key
    case HealthArmour(key) => key
    case Team(key) => key
    case Name(key) => key
    case Int(key) => key
  }

  /** A command's versions: version '1' only, for every command of the table. */
  function V1(es: seq<Extractor>): map<string, seq<Extractor>>
  {
    map["1" := es]
  }

  /** `PARSERS[command]` for the table's own properties: every command has the one
      version '1'. */
  function Table(command: string): Option<map<string, seq<Extractor>>>
  {
    match VersionOne(command)
    case Some(es) => Some(V1(es))
    case None => None
  }

  /** The extractor list of version '1' of each command of `PARSERS`, in the order of the
      source. */
  function VersionOne(command: string): Option<seq<Extractor>>
  {
    match command
    case "ammo_pickup" => Some([UserCoords("originator")])
    case "bullet_impact" => Some([UserCoords("originator"), Coordinates("impact")])
    case "buytime_ended" => Some([])
    case "bomb_abortplant" => Some([UserCoords("originator")])
    case "bomb_beep" => Some([])
    case "bomb_begindefuse" => Some([UserCoords("originator")])
    case "bomb_beginplant" => Some([UserCoords("originator")])
    case "bomb_exploded" => Some([])
    case "bomb_pickup" => Some([UserCoords("originator")])
    case "bomb_planted" => Some([UserCoords("originator")])
    case "bomb_defused" => Some([UserCoords("originator")])
    case "bomb_dropped" => Some([UserCoords("originator")])
    case "cs_pre_restart" => Some([Name("map")])
    case "cs_win_panel_round" => Some([Name("map")])
    case "cs_win_panel_match" => Some([Name("map")])
    case "decoy_detonate" => Some([UserCoords("originator"), Entity("decoy")])
    case "decoy_firing" => Some([UserCoords("originator"), Entity("decoy")])
    case "decoy_started" => Some([UserCoords("originator"), Entity("decoy")])
    case "enter_bombzone" => Some([UserCoords("originator")])
    case "enter_buyzone" => Some([UserCoords("originator")])
    case "enter_rescue_zone" => Some([UserCoords("originator")])
    case "exit_bombzone" => Some([UserCoords("originator")])
    case "exit_buyzone" => Some([UserCoords("originator")])
    case "exit_rescue_zone" => Some([UserCoords("originator")])
    case "hostage_hurt" => Some([UserCoords("originator")])
    case "inferno_startburn" => Some([Entity("inferno")])
    case "inferno_expire" => Some([Entity("inferno")])
    case "flashbang_detonate" => Some([UserCoords("originator"), Entity("flashbang_detonate")])
    case "grenade_bounce" => Some([UserCoords("originator"), Entity("grenade_bounce")])
    case "grenade_thrown" => Some([UserCoords("originator")])
    case "hegrenade_detonate" => Some([UserCoords("originator"), Entity("hegrenade_detonate")])
    case "item_equip" => Some([UserCoords("originator")])
    case "item_pickup" => Some([UserCoords("originator")])
    case "item_purchase" => Some([UserCoords("originator")])
    case "item_remove" => Some([UserCoords("originator")])
    case "molotov_detonate" => Some([UserCoords("originator"), Entity("molotov_detonate")])
    case "player_activate" => Some([UserCoords("originator")])
    case "player_blind" => Some([UserCoords("originator")])
    case "player_death" => Some([UserCoords("victim"), Team("victim"), UserCoords("attacker"), Team("attacker"), Name("victim")])
    case "player_falldamage" => Some([UserCoords("originator")])
    case "player_footstep" => Some([UserCoords("originator")])
    case "player_given_c4" => Some([UserCoords("originator")])
    case "player_hurt" => Some([UserCoords("victim"), Team("victim"), UserCoords("attacker"), Team("attacker"), HealthArmour("remaining"), HealthArmour("damage"), Int("hitbox"), Name("victim")])
    case "player_jump" => Some([UserCoords("originator")])
    case "player_radio" => Some([UserCoords("originator")])
    case "player_spawned" => Some([UserCoords("originator")])
    case "round_announce_match_start" => Some([Name("map")])
    case "round_announce_warmup" => Some([Name("map")])
    case "round_end" => Some([Name("map")])
    case "round_freeze_end" => Some([Name("map")])
    case "round_poststart" => Some([Name("map")])
    case "smokegrenade_detonate" => Some([UserCoords("originator"), Entity("smokegrenade_detonate")])
    case "smokegrenade_expired" => Some([UserCoords("originator"), Entity("smokegrenade_expired")])
    case "weapon_fire" => Some([UserCoords("originator")])
    case "weapon_reload" => Some([UserCoords("originator")])
    case "weapon_zoom" => Some([UserCoords("originator")])
    case _ => None
  }

  /** The extractors of version '1' of a command of the table. */
  function ExtractorsOf(command: string): Option<seq<Extractor>>
  {
    if Table(command).Some? && "1" in Table(command).value then Some(Table(command).value["1"]) else None
  }

  /** Every command of the table has the one version "1". */
  lemma OnlyVersionOne(command: string)
    ensures Table(command).Some? ==> Table(command).value.Keys == {"1"}
  {
  }

  /** The properties every plain object inherits from `Object.prototype`; looking one of
      them up in `PARSERS` finds a function or an object, not `undefined`. */
  const PrototypeKeys: set<string> :=
    { "constructor", "hasOwnProperty", "isPrototypeOf", "propertyIsEnumerable",
      "toLocaleString", "toString", "valueOf", "__proto__", "__defineGetter__",
      "__defineSetter__", "__lookupGetter__", "__lookupSetter__" }

  /** What `PARSERS[command]` finds: a table entry, an inherited property (truthy, with
      no extractor lists), or nothing. */
  datatype Lookup = Known(versions: map<string, seq<Extractor>>) | Inherited | Unknown

  function LookupCommand(command: string): Lookup
  {
    match Table(command)
    case Some(versions) => Known(versions)
    case None => if command in PrototypeKeys then Inherited else Unknown
  }

  /** The `value` of one `next()` answer: the token, or `undefined` after done. */
  function TokenValue(step: Step): Value
  {
    if step.Yield? then Str(step.value) else Undefined
  }

  /** The `i`-th element of `token.split(',')` as array destructuring reads it:
      `undefined` past the end. */
  function Part(token: string, i: nat): Value
  {
    var parts := Split(token, ",");
    if i < |parts| then Str(parts[i]) else Undefined
  }

  /** `{x, y, z}` from "x,y,z". */
  function Position(token: string): Value
  {
    Obj(map["x" := Part(token, 0), "y" := Part(token, 1), "z" := Part(token, 2)])
  }

  /** `{ang0, ang1, ang2}` from "a,b,c". */
  function Angles(token: string): Value
  {
    Obj(map["ang0" := Part(token, 0), "ang1" := Part(token, 1), "ang2" := Part(token, 2)])
  }

  /** The fragment of `userCoords(key)`. */
  function UserCoordsFragment(key: string, clientId: Value, position: string, angles: string): Value
  {
    Obj(map[key := Obj(map["clientId" := clientId, "coordinates" := Position(position),
                           "orientation" := Angles(angles)])])
  }

  /** The fragment of `entity(tag)`: always under the fixed property `entity`. */
  function EntityFragment(tag: string, id: Value, position: string): Value
  {
    Obj(map["entity" := Obj(map["type" := Str(tag), "id" := id, "coordinates" := Position(position)])])
  }

  /** The fragment of `coordinates(key)`. */
  function CoordinatesFragment(key: string, position: string): Value
  {
    Obj(map[key := Obj(map["coordinates" := Position(position)])])
  }

  /** The fragment of `healthArmour(key)`. */
  function HealthArmourFragment(key: string, pair: string): Value
  {
    Obj(map[key := Obj(map["health" := Part(pair, 0), "armour" := Part(pair, 1)])])
  }

  /** The fragment of `team(key)`: the token wrapped as `{team}`. */
  function TeamFragment(key: string, team: Value): Value
  {
    Obj(map[key := Obj(map["team" := team])])
  }

  /** The fragment of `name(key)`: the token wrapped as `{name}`. */
  function NameFragment(key: string, name: Value): Value
  {
    Obj(map[key := Obj(map["name" := name])])
  }

  /** The fragment of `int(key)`: the bare token, not converted to a number. */
  function IntFragment(key: string, number: Value): Value
  {
    Obj(map[key := number])
  }

  /** Running one extractor on the shared iterator: its fragment and the iterator's new
      state, or the `TypeError` of calling `split` on the `undefined` value of a done
      answer. */
  datatype Extraction = Extracted(fragment: Value, next: Cursor) | SplitOfUndefined

  function RunExtractor(e: Extractor, line: string, c: Cursor): Extraction
  {
    var (s1, c1) := NextStep(line, c);
    match e
    case UserCoords(key) =>
      var (s2, c2) := NextStep(line, c1);
      if s2.Done? then SplitOfUndefined
      else
        var (s3, c3) := NextStep(line, c2);
        if s3.Done? then SplitOfUndefined
        else Extracted(UserCoordsFragment(key, TokenValue(s1), s2.value, s3.value), c3)
    case Entity(tag) =>
      var (s2, c2) := NextStep(line, c1);
      if s2.Done? then SplitOfUndefined
      else Extracted(EntityFragment(tag, TokenValue(s1), s2.value), c2)
    case Coordinates(key) =>
      if s1.Done? then SplitOfUndefined else Extracted(CoordinatesFragment(key, s1.value), c1)
    case HealthArmour(key) =>
      if s1.Done? then SplitOfUndefined else Extracted(HealthArmourFragment(key, s1.value), c1)
    case Team(key) => Extracted(TeamFragment(key, TokenValue(s1)), c1)
    case Name(key) => Extracted(NameFragment(key, TokenValue(s1)), c1)
    case Int(key) => Extracted(IntFragment(key, TokenValue(s1)), c1)
  }

  /** The error values `parseLogLine` returns as `{result: null, err}`. */
  datatype ParseError =
    | NonHaywireData(data: string)
    | ParserNotImplemented(command: string, version: Value)

  /** The `TypeError`s `parseLogLine` throws: `parser[version]` is not an extractor list,
      or an extractor splits the `undefined` of a done answer. */
  datatype Exception = NoExtractorList | SplitOfUndefinedToken

  /** What `parseLogLine(data)` does: returns `{result}`, returns `{result: null, err}`,
      or throws. */
  datatype ParseOutcome = Parsed(result: Value) | Rejected(err: ParseError) | Threw(exception: Exception)

  /** The accumulator the fold starts from: `{command}`. */
  function Seed(command: string): Value
  {
    Obj(map["command" := Str(command)])
  }

  /** `extractors.reduce((prev, fn) => mergeDeep(prev, fn(iterator)), acc)` with the
      iterator in state `c`. */
  function Fold(es: seq<Extractor>, line: string, c: Cursor, acc: Value): ParseOutcome
    decreases |es|
  {
    if es == [] then Parsed(acc)
    else
      match RunExtractor(es[0], line, c)
      case SplitOfUndefined => Threw(SplitOfUndefinedToken)
      case Extracted(fragment, c') => Fold(es[1..], line, c', MergeDeep(acc, fragment))
  }

  /** `parseLogLine(data)`. */
  function Parse(data: string): ParseOutcome
  {
    if !Contains(data, Marker) then Rejected(NonHaywireData(data))
    else
      var (s1, c1) := NextStep(data, Initial(data));
      var (s2, c2) := NextStep(data, c1);
      Dispatch(LookupCommand(s1.value), s1.value, TokenValue(s2), data, c2)
  }

  /** What `parseLogLine` does once it has the command, the version and the table's
      answer for the command: `c` is the iterator's state after the version. */
  function Dispatch(lookup: Lookup, command: string, version: Value, line: string, c: Cursor): ParseOutcome
  {
    match lookup
    case Unknown => Rejected(ParserNotImplemented(command, version))
    case Inherited => Threw(NoExtractorList)
    case Known(versions) =>
      if version.Str? && version.s in versions then Fold(versions[version.s], line, c, Seed(command))
      else Threw(NoExtractorList)
  }

  /** One extractor run on the iterator object: reads its tokens with `next()`; `None`
      is the thrown `TypeError`. */
  method Extract(e: Extractor, it: LineIterator) returns (fragment: Option<Value>)
    modifies it
    ensures var x := RunExtractor(e, it.line, old(it.State()));
            && (fragment.None? <==> x.SplitOfUndefined?)
            && (fragment.Some? ==> x == Extracted(fragment.value, it.State()))
  {
    var s1 := it.Next();
    match e {
      case UserCoords(key) =>
        var s2 := it.Next();
        if s2.Done? {
          return None;
        }
        var s3 := it.Next();
        if s3.Done? {
          return None;
        }
        return Some(UserCoordsFragment(key, TokenValue(s1), s2.value, s3.value));
      case Entity(tag) =>
        var s2 := it.Next();
        if s2.Done? {
          return None;
        }
        return Some(EntityFragment(tag, TokenValue(s1), s2.value));
      case Coordinates(key) =>
        if s1.Done? {
          return None;
        }
        return Some(CoordinatesFragment(key, s1.value));
      case HealthArmour(key) =>
        if s1.Done? {
          return None;
        }
        return Some(HealthArmourFragment(key, s1.value));
      case Team(key) =>
        return Some(TeamFragment(key, TokenValue(s1)));
      case Name(key) =>
        return Some(NameFragment(key, TokenValue(s1)));
      case Int(key) =>
        return Some(IntFragment(key, TokenValue(s1)));
    }
  }

  /** `parseLogLine(data)` as the source runs it: a fresh iterator, two `next()` calls for
      the command and the version, the table lookup, and the fold over the extractors. */
  method ParseLogLine(data: string) returns (r: ParseOutcome)
    ensures r == Parse(data)
  {
    if IndexOf(data, Marker) < 0 {
      return Rejected(NonHaywireData(data));
    }
    var it := new LineIterator(data);
    var first := it.Next();
    var second := it.Next();
    var command := first.value;
    var lookup := LookupCommand(command);
    if lookup.Unknown? {
      return Rejected(ParserNotImplemented(command, TokenValue(second)));
    }
    if lookup.Inherited? || !(second.Yield? && second.value in lookup.versions) {
      return Threw(NoExtractorList);
    }
    var extractors := lookup.versions[second.value];
    ghost var start := it.State();
    var result := Seed(command);
    var i := 0;
    while i < |extractors|
      invariant 0 <= i <= |extractors| && it.line == data
      invariant Fold(extractors[i..], data, it.State(), result) == Fold(extractors, data, start, Seed(command))
    {
      assert extractors[i..][1..] == extractors[i + 1..];
      var fragment := Extract(extractors[i], it);
      if fragment.None? {
        return Threw(SplitOfUndefinedToken);
      }
      result := MergeDeepInto(result, fragment.value);
      i := i + 1;
    }
    return Parsed(result);
  }

  // ---------------------------------------------------------------------------
  // Properties of the parser

  /** The tokens the iterator of a line hands out before done. */
  function Tokens(data: string): (ts: seq<string>)
    ensures |ts| >= 1
  {
    Pending(data, Initial(data))
  }

  /** The command: the first token. */
  function CommandToken(data: string): string
  {
    Tokens(data)[0]
  }

  /** The version: the second token, `undefined` when the line has one token only. */
  function VersionToken(data: string): Value
  {
    var ts := Tokens(data);
    if |ts| >= 2 then Str(ts[1]) else Undefined
  }

  /** The first two `next()` calls hand out the command and the version token. */
  lemma {:induction false} HeadTokens(data: string)
    ensures NextStep(data, Initial(data)).0 == Yield(CommandToken(data))
    ensures TokenValue(NextStep(data, NextStep(data, Initial(data)).1).0) == VersionToken(data)
    ensures |Tokens(data)| >= 2 ==> Pending(data, Advance(data, Initial(data), 2)) == Tokens(data)[2..]
  {
    var c0 := Initial(data);
    NextTakesPending(data, c0);
    var c1 := NextStep(data, c0).1;
    assert Advance(data, c0, 2) == Advance(data, c1, 1) == NextStep(data, c1).1;
    if !c1.isDone {
      NextTakesPending(data, c1);
    }
  }

  /** After the marker test, `parseLogLine` dispatches on the first two tokens. */
  lemma ParseDispatches(data: string)
    requires Contains(data, Marker)
    ensures Parse(data) == Dispatch(LookupCommand(CommandToken(data)), CommandToken(data), VersionToken(data),
                                    data, Advance(data, Initial(data), 2))
  {
    HeadTokens(data);
  }

  /** The fold of the extractors only returns a result or throws from an extractor. */
  lemma {:induction false} FoldOutcomes(es: seq<Extractor>, line: string, c: Cursor, acc: Value)
    ensures Fold(es, line, c, acc).Parsed? || Fold(es, line, c, acc) == Threw(SplitOfUndefinedToken)
    decreases |es|
  {
    if es != [] {
      match RunExtractor(es[0], line, c)
      case SplitOfUndefined =>
      case Extracted(fragment, c') => FoldOutcomes(es[1..], line, c', MergeDeep(acc, fragment));
    }
  }

  /** The dispatch rejects exactly the unknown commands, and throws for want of an
      extractor list exactly on an inherited property or a version the command lacks. */
  lemma DispatchOutcomes(lookup: Lookup, command: string, version: Value, line: string, c: Cursor)
    ensures Dispatch(lookup, command, version, line, c).Rejected? <==> lookup.Unknown?
    ensures lookup.Unknown? ==>
              Dispatch(lookup, command, version, line, c) == Rejected(ParserNotImplemented(command, version))
    ensures Dispatch(lookup, command, version, line, c) == Threw(NoExtractorList) <==>
              lookup.Inherited? || (lookup.Known? && !(version.Str? && version.s in lookup.versions))
  {
    if lookup.Known? && version.Str? && version.s in lookup.versions {
      FoldOutcomes(lookup.versions[version.s], line, c, Seed(command));
    }
  }

  /** A line without "HW->" is rejected as `NonHaywireData` carrying the line, and only
      such a line is rejected that way. */
  lemma RejectsNonHaywire(data: string)
    ensures !Contains(data, Marker) ==> Parse(data) == Rejected(NonHaywireData(data))
    ensures Parse(data).Rejected? && Parse(data).err.NonHaywireData? ==> !Contains(data, Marker)
  {
    if Contains(data, Marker) {
      ParseDispatches(data);
      DispatchOutcomes(LookupCommand(CommandToken(data)), CommandToken(data), VersionToken(data),
                       data, Advance(data, Initial(data), 2));
    }
  }

  /** A Haywire line is rejected exactly when its command is not in the table (nor a
      property every object inherits), and then as `ParserNotImplemented` with the command
      and version tokens. */
  lemma RejectsUnknownCommand(data: string)
    requires Contains(data, Marker)
    ensures Parse(data).Rejected? <==> LookupCommand(CommandToken(data)).Unknown?
    ensures LookupCommand(CommandToken(data)).Unknown? ==>
              Parse(data) == Rejected(ParserNotImplemented(CommandToken(data), VersionToken(data)))
  {
    ParseDispatches(data);
    DispatchOutcomes(LookupCommand(CommandToken(data)), CommandToken(data), VersionToken(data),
                     data, Advance(data, Initial(data), 2));
  }

  /** A command that names an inherited property, or a known command with a version
      other than "1", throws (`parser[version].reduce` of a non-array); nothing else
      throws that way. */
  lemma ThrowsWithoutExtractorList(data: string)
    requires Contains(data, Marker)
    ensures Parse(data) == Threw(NoExtractorList) <==>
              || LookupCommand(CommandToken(data)).Inherited?
              || (LookupCommand(CommandToken(data)).Known? && VersionToken(data) != Str("1"))
  {
    var lookup := LookupCommand(CommandToken(data));
    ParseDispatches(data);
    DispatchOutcomes(lookup, CommandToken(data), VersionToken(data), data, Advance(data, Initial(data), 2));
    OnlyVersionOne(CommandToken(data));
  }

  /** A known command with version "1" is the fold of its extractors, from `{command}`,
      on the iterator that has handed out the command and the version. */
  lemma FoldsExtractors(data: string)
    requires Contains(data, Marker) && ExtractorsOf(CommandToken(data)).Some? && VersionToken(data) == Str("1")
    ensures Parse(data) == Fold(ExtractorsOf(CommandToken(data)).value, data, Advance(data, Initial(data), 2),
                                Seed(CommandToken(data)))
  {
    ParseDispatches(data);
  }

  /** The commands that carry no fields. */
  const ZeroFieldCommands: set<string> := {"buytime_ended", "bomb_beep", "bomb_exploded"}

  /** `buytime_ended`, `bomb_beep` and `bomb_exploded` have no extractors: a line with one
      of them and version "1" parses to `{command}`. */
  lemma {:induction false} ZeroFieldCommandsYieldCommand(data: string)
    requires Contains(data, Marker) && CommandToken(data) in ZeroFieldCommands && VersionToken(data) == Str("1")
    ensures Parse(data) == Parsed(Seed(CommandToken(data)))
  {
    var command := CommandToken(data);
    assert ExtractorsOf("buytime_ended") == Some([]);
    assert ExtractorsOf("bomb_beep") == Some([]);
    assert ExtractorsOf("bomb_exploded") == Some([]);
    FoldsExtractors(data);
  }

  /** The property names the fragments of `es` write at the top level. */
  function FragmentKeys(es: seq<Extractor>): set<string>
  {
    set e | e in es :: FragmentKey(e)
  }

  /** Every fragment is an object with one property, named by the extractor. */
  lemma FragmentShape(e: Extractor, line: string, c: Cursor)
    requires RunExtractor(e, line, c).Extracted?
    ensures IsObject(RunExtractor(e, line, c).fragment)
    ensures RunExtractor(e, line, c).fragment.fields.Keys == {FragmentKey(e)}
    ensures var inner := RunExtractor(e, line, c).fragment.fields[FragmentKey(e)];
            !e.Int? ==> IsObject(inner) && inner.fields.Keys == InnerKeys(e)
  {
    match e
    case UserCoords(key) => UserCoordsShape(key, line, c);
    case Entity(tag) => EntityShape(tag, line, c);
    case Coordinates(key) =>
    case HealthArmour(key) =>
    case Team(key) =>
    case Name(key) =>
    case Int(key) =>
  }

  /** `FragmentShape` for `userCoords`, which reads three tokens. */
  lemma UserCoordsShape(key: Key, line: string, c: Cursor)
    requires RunExtractor(UserCoords(key), line, c).Extracted?
    ensures var f := RunExtractor(UserCoords(key), line, c).fragment;
            && IsObject(f) && f.fields.Keys == {key}
            && IsObject(f.fields[key]) && f.fields[key].fields.Keys == {"clientId", "coordinates", "orientation"}
  {
    var (s1, c1) := NextStep(line, c);
    var (s2, c2) := NextStep(line, c1);
    var (s3, c3) := NextStep(line, c2);
    var f := UserCoordsFragment(key, TokenValue(s1), s2.value, s3.value);
    assert f.fields.Keys == {key} && f.fields[key].fields.Keys == {"clientId", "coordinates", "orientation"};
    assert RunExtractor(UserCoords(key), line, c).fragment == f;
  }

  /** `FragmentShape` for `entity`, which reads two tokens. */
  lemma EntityShape(tag: string, line: string, c: Cursor)
    requires RunExtractor(Entity(tag), line, c).Extracted?
    ensures var f := RunExtractor(Entity(tag), line, c).fragment;
            && IsObject(f) && f.fields.Keys == {"entity"}
            && IsObject(f.fields["entity"]) && f.fields["entity"].fields.Keys == {"type", "id", "coordinates"}
  {
    var (s1, c1) := NextStep(line, c);
    var (s2, c2) := NextStep(line, c1);
    var f := EntityFragment(tag, TokenValue(s1), s2.value);
    assert f.fields.Keys == {"entity"} && f.fields["entity"].fields.Keys == {"type", "id", "coordinates"};
    assert RunExtractor(Entity(tag), line, c).fragment == f;
  }

  /** The properties of the object an extractor writes under its key (`int` writes the
      bare token instead). */
  function InnerKeys(e: Extractor): set<string>
  {
    match e
    case UserCoords(_) => {"clientId", "coordinates", "orientation"}
    case Entity(_) => {"type", "id", "coordinates"}
    case Coordinates(_) => {"coordinates"}
    case HealthArmour(_) => {"health", "armour"}
    case Team(_) => {"team"}
    case Name(_) => {"name"}
    case Int(_) => {}
  }

  /** The properties the extractors of `es` write under `key`, all together. */
  function NestedKeys(es: seq<Extractor>, key: string): set<string>
  {
    if es == [] then {}
    else (if FragmentKey(es[0]) == key then InnerKeys(es[0]) else {}) + NestedKeys(es[1..], key)
  }

  /** Nested objects combine: the object the fold leaves under `key` has every property
      any extractor for `key` wrote there, plus those it had before. */
  lemma {:induction false} FoldNestedKeys(es: seq<Extractor>, line: string, c: Cursor, acc: Value, r: Value, key: string)
    requires IsObject(acc) && Fold(es, line, c, acc) == Parsed(r)
    requires key in acc.fields ==> IsObject(acc.fields[key])
    requires forall e :: e in es && FragmentKey(e) == key ==> !e.Int?
    ensures IsObject(r) && (key in acc.fields || key in FragmentKeys(es) <==> key in r.fields)
    ensures key in r.fields ==>
              IsObject(r.fields[key])
              && r.fields[key].fields.Keys
                 == (if key in acc.fields then acc.fields[key].fields.Keys else {}) + NestedKeys(es, key)
    decreases |es|
  {
    FoldKeys(es, line, c, acc, r);
    if es != [] {
      var e := es[0];
      var x := RunExtractor(e, line, c);
      FragmentShape(e, line, c);
      var acc' := MergeDeep(acc, x.fragment);
      if FragmentKey(e) == key {
        var base := if key in acc.fields && Truthy(acc.fields[key]) then acc.fields[key] else Obj(map[]);
        assert acc'.fields[key] == MergeEntry(acc.fields, key, x.fragment.fields[key]) == MergeDeep(base, x.fragment.fields[key]);
      }
      FoldNestedKeys(es[1..], line, x.next, acc', r, key);
    }
  }

  /** The fold keeps the accumulator's properties and adds one per extractor. */
  lemma {:induction false} FoldKeys(es: seq<Extractor>, line: string, c: Cursor, acc: Value, r: Value)
    requires IsObject(acc) && Fold(es, line, c, acc) == Parsed(r)
    ensures IsObject(r) && r.fields.Keys == acc.fields.Keys + FragmentKeys(es)
    ensures forall k :: k in acc.fields && k !in FragmentKeys(es) ==> r.fields[k] == acc.fields[k]
    decreases |es|
  {
    if es != [] {
      var x := RunExtractor(es[0], line, c);
      FragmentShape(es[0], line, c);
      var acc' := MergeDeep(acc, x.fragment);
      FoldKeys(es[1..], line, x.next, acc', r);
      assert FragmentKeys(es) == {FragmentKey(es[0])} + FragmentKeys(es[1..]) by {
        assert forall e :: e in es <==> e == es[0] || e in es[1..];
      }
    }
  }

  /** A parsed line has `command` equal to its first token, plus one property per
      extractor of the command. */
  lemma ParsedKeepsCommand(data: string, r: Value)
    requires Parse(data) == Parsed(r)
    ensures IsObject(r) && Get(r, "command") == Str(CommandToken(data))
    ensures ExtractorsOf(CommandToken(data)).Some? && VersionToken(data) == Str("1")
    ensures r.fields.Keys == {"command"} + FragmentKeys(ExtractorsOf(CommandToken(data)).value)
  {
    var command := CommandToken(data);
    RejectsNonHaywire(data);
    ParseDispatches(data);
    DispatchOutcomes(LookupCommand(command), command, VersionToken(data), data, Advance(data, Initial(data), 2));
    OnlyVersionOne(command);
    FoldKeys(ExtractorsOf(command).value, data, Advance(data, Initial(data), 2), Seed(command), r);
  }

  /** When `c` is not done, which extractors throw: `userCoords` when one or two tokens
      remain, `entity` when one remains, and no other; on a done cursor `coordinates` and
      `healthArmour` throw, and so does `userCoords` on a line with a single token. */
  lemma ExtractorThrows(e: Extractor, line: string, c: Cursor)
    ensures RunExtractor(e, line, c).SplitOfUndefined? <==>
              match e
              case UserCoords(_) =>
                if c.isDone then |Pending(line, Initial(line))| == 1
                else |Pending(line, c)| == 1 || |Pending(line, c)| == 2
              case Entity(_) => !c.isDone && |Pending(line, c)| == 1
              case Coordinates(_) => c.isDone
              case HealthArmour(_) => c.isDone
              case _ => false
  {
    var c1 := NextStep(line, c).1;
    var c2 := NextStep(line, c1).1;
    if c.isDone {
      DoneAfterOne(line, c1);
    } else {
      DoneAfterOne(line, c);
      if !c1.isDone {
        DoneAfterOne(line, c1);
        NextTakesPending(line, c);
      }
    }
  }

  /** One `next()` before done makes the iterator done exactly when one token was left. */
  lemma DoneAfterOne(line: string, c: Cursor)
    requires !c.isDone
    ensures NextStep(line, c).1.isDone <==> |Pending(line, c)| == 1
  {
    NextTakesPending(line, c);
  }

  /** The fragment an extractor builds from the tokens it reads. */
  function TokenFragment(e: Extractor, ts: seq<string>): Value
    requires |ts| == Arity(e)
  {
    match e
    case UserCoords(key) => UserCoordsFragment(key, Str(ts[0]), ts[1], ts[2])
    case Entity(tag) => EntityFragment(tag, Str(ts[0]), ts[1])
    case Coordinates(key) => CoordinatesFragment(key, ts[0])
    case HealthArmour(key) => HealthArmourFragment(key, ts[0])
    case Team(key) => TeamFragment(key, Str(ts[0]))
    case Name(key) => NameFragment(key, Str(ts[0]))
    case Int(key) => IntFragment(key, Str(ts[0]))
  }

  /** With enough tokens left, an extractor consumes exactly `Arity(e)` of them and builds
      its fragment from them. */
  lemma ExtractorConsumes(e: Extractor, line: string, c: Cursor)
    requires !c.isDone && |Pending(line, c)| >= Arity(e)
    ensures var x := RunExtractor(e, line, c);
            && x.Extracted?
            && x.fragment == TokenFragment(e, Pending(line, c)[..Arity(e)])
            && Pending(line, x.next) == Pending(line, c)[Arity(e)..]
  {
    if e.UserCoords? {
      ConsumesThree(e.key, line, c);
    } else if e.Entity? {
      ConsumesTwo(e.tag, line, c);
    } else {
      NextTakesPending(line, c);
      assert Pending(line, c)[..1] == [Pending(line, c)[0]];
    }
  }

  /** `ExtractorConsumes` for `userCoords`. */
  lemma ConsumesThree(key: Key, line: string, c: Cursor)
    requires !c.isDone && |Pending(line, c)| >= 3
    ensures var x := RunExtractor(UserCoords(key), line, c);
            && x.Extracted?
            && x.fragment == UserCoordsFragment(key, Str(Pending(line, c)[0]), Pending(line, c)[1], Pending(line, c)[2])
            && Pending(line, x.next) == Pending(line, c)[3..]
  {
    var ts := Pending(line, c);
    NextTakesPending(line, c);
    var c1 := NextStep(line, c).1;
    NextTakesPending(line, c1);
    var c2 := NextStep(line, c1).1;
    NextTakesPending(line, c2);
    assert ts[3..] == ts[1..][1..][1..];
  }

  /** `ExtractorConsumes` for `entity`. */
  lemma ConsumesTwo(tag: string, line: string, c: Cursor)
    requires !c.isDone && |Pending(line, c)| >= 2
    ensures var x := RunExtractor(Entity(tag), line, c);
            && x.Extracted?
            && x.fragment == EntityFragment(tag, Str(Pending(line, c)[0]), Pending(line, c)[1])
            && Pending(line, x.next) == Pending(line, c)[2..]
  {
    var ts := Pending(line, c);
    NextTakesPending(line, c);
    var c1 := NextStep(line, c).1;
    NextTakesPending(line, c1);
    assert ts[2..] == ts[1..][1..];
  }

  /** The fold on a list of tokens: each extractor takes its tokens off the front. */
  function FoldTokens(es: seq<Extractor>, ts: seq<string>, acc: Value): Value
    requires |ts| >= TotalArity(es)
    decreases |es|
  {
    if es == [] then acc
    else
      var n := Arity(es[0]);
      FoldTokens(es[1..], ts[n..], MergeDeep(acc, TokenFragment(es[0], ts[..n])))
  }

  /** With at least as many pending tokens as the extractors read, the fold never throws
      and is `FoldTokens` on those tokens. */
  lemma {:induction false} FoldFollowsTokens(es: seq<Extractor>, line: string, c: Cursor, acc: Value)
    requires !c.isDone || es == []
    requires |Pending(line, c)| >= TotalArity(es)
    ensures Fold(es, line, c, acc) == Parsed(FoldTokens(es, Pending(line, c), acc))
    decreases |es|
  {
    if es != [] {
      var ts := Pending(line, c);
      ExtractorConsumes(es[0], line, c);
      var x := RunExtractor(es[0], line, c);
      var rest := es[1..];
      if rest != [] {
        assert TotalArity(rest) >= Arity(rest[0]) >= 1;
        assert !x.next.isDone;
      }
      FoldFollowsTokens(rest, line, x.next, MergeDeep(acc, x.fragment));
    }
  }

  /** A Haywire line whose command is known, whose version is "1" and which has enough
      tokens parses to the fold over its tokens after the command and the version. */
  lemma ParseFollowsTokens(data: string)
    requires Contains(data, Marker) && ExtractorsOf(CommandToken(data)).Some? && VersionToken(data) == Str("1")
    requires |Tokens(data)| >= 2 + TotalArity(ExtractorsOf(CommandToken(data)).value)
    ensures Parse(data) == Parsed(FoldTokens(ExtractorsOf(CommandToken(data)).value, Tokens(data)[2..],
                                             Seed(CommandToken(data))))
  {
    HeadTokens(data);
    FoldsExtractors(data);
    var es := ExtractorsOf(CommandToken(data)).value;
    var c2 := Advance(data, Initial(data), 2);
    if es != [] {
      assert TotalArity(es) >= 1;
    }
    FoldFollowsTokens(es, data, c2, Seed(CommandToken(data)));
  }

  /** The fields of the worked example: "12.5,-3.0,64.0" and "90,0,0". */
  const JumpCoordinates: string := "12.5" + "," + "-3.0" + "," + "64.0"
  const JumpAngles: string := "90" + "," + "0" + "," + "0"

  /** The tokens of the worked example's line, the last one empty as the line ends in "->". */
  const JumpTokens: seq<string> := ["player_jump", "1", "77", JumpCoordinates, JumpAngles, ""]

  /** The line of the worked example, "HW->player_jump->1->77->12.5,-3.0,64.0->90,0,0->",
      written piece by piece: a jump by client 77. */
  const JumpLine: string :=
    Marker + ("player_jump" + Delimiter + ("1" + Delimiter + ("77" + Delimiter
    + (JumpCoordinates + Delimiter + (JumpAngles + Delimiter + "")))))

  /** The worked example's line is the marker followed by its tokens joined with "->". */
  lemma JumpLineJoinsTokens()
    ensures JumpLine == "" + Marker + Join(JumpTokens, Delimiter)
  {
    var tokens := JumpTokens;
    JoinCons(tokens[4], tokens[5..], Delimiter);
    assert tokens[4..] == [tokens[4]] + tokens[5..];
    JoinCons(tokens[3], tokens[4..], Delimiter);
    assert tokens[3..] == [tokens[3]] + tokens[4..];
    JoinCons(tokens[2], tokens[3..], Delimiter);
    assert tokens[2..] == [tokens[2]] + tokens[3..];
    JoinCons(tokens[1], tokens[2..], Delimiter);
    assert tokens[1..] == [tokens[1]] + tokens[2..];
    JoinCons(tokens[0], tokens[1..], Delimiter);
    assert tokens == [tokens[0]] + tokens[1..];
  }

  /** No token of the worked example contains "->". */
  lemma JumpTokensAreFree()
    ensures forall t :: t in JumpTokens ==> !Contains(t, Delimiter)
  {
    forall t | t in JumpTokens ensures !Contains(t, Delimiter) {
      MissingCharacter(t, Delimiter, 1);
    }
  }

  /** The iterator hands out the worked example's tokens. */
  lemma JumpLineTokens()
    ensures Tokens(JumpLine) == JumpTokens
  {
    JumpLineJoinsTokens();
    JumpTokensAreFree();
    MissingCharacter("", Marker, 0);
    TokensOfJoinedLine("", JumpTokens);
  }

  /** The worked example's line is the fold of `userCoords('originator')` over its
      third to fifth tokens. */
  lemma JumpLineFolds()
    ensures Parse(JumpLine) ==
              Parsed(MergeDeep(Seed("player_jump"), UserCoordsFragment("originator", Str("77"), JumpCoordinates, JumpAngles)))
  {
    JumpLineTokens();
    assert JumpLine[..4] == Marker;
    assert MatchAt(JumpLine, Marker, 0);
    assert ExtractorsOf("player_jump") == Some([UserCoords("originator")]);
    ParseFollowsTokens(JumpLine);
    assert JumpTokens[2..][..3] == ["77", JumpCoordinates, JumpAngles];
  }

  /** The coordinates of the worked example, split at commas. */
  lemma JumpPosition()
    ensures Position(JumpCoordinates) == Obj(map["x" := Str("12.5"), "y" := Str("-3.0"), "z" := Str("64.0")])
  {
    CommaSplit("12.5", "-3.0", "64.0");
  }

  /** The angles of the worked example, split at commas. */
  lemma JumpOrientation()
    ensures Angles(JumpAngles) == Obj(map["ang0" := Str("90"), "ang1" := Str("0"), "ang2" := Str("0")])
  {
    CommaSplit("90", "0", "0");
  }

  /** The event of the worked example, as `mergeDeep` builds it from `{command}` and the
      one fragment. */
  lemma JumpEvent()
    ensures MergeDeep(Seed("player_jump"), UserCoordsFragment("originator", Str("77"), JumpCoordinates, JumpAngles))
            == Obj(map[
              "command" := Str("player_jump"),
              "originator" := Obj(map[
                "clientId" := Str("77"),
                "coordinates" := Obj(map["x" := Str("12.5"), "y" := Str("-3.0"), "z" := Str("64.0")]),
                "orientation" := Obj(map["ang0" := Str("90"), "ang1" := Str("0"), "ang2" := Str("0")])])])
  {
    JumpPosition();
    JumpOrientation();
    var fragment := UserCoordsFragment("originator", Str("77"), JumpCoordinates, JumpAngles);
    var seed := Seed("player_jump");
    MergeDisjoint(seed.fields, fragment.fields);
    assert seed.fields + fragment.fields == map["command" := Str("player_jump"), "originator" := fragment.fields["originator"]];
  }

  /** Worked example: every field is the raw text of its token, with no conversion. */
  lemma PlayerJumpExample()
    ensures Parse(JumpLine) == Parsed(Obj(map[
              "command" := Str("player_jump"),
              "originator" := Obj(map[
                "clientId" := Str("77"),
                "coordinates" := Obj(map["x" := Str("12.5"), "y" := Str("-3.0"), "z" := Str("64.0")]),
                "orientation" := Obj(map["ang0" := Str("90"), "ang1" := Str("0"), "ang2" := Str("0")])])]))
  {
    JumpLineFolds();
    JumpEvent();
  }

  /** Splitting "a,b,c" at "," when no piece holds a comma. */
  lemma CommaSplit(a: string, b: string, c: string)
    requires ',' !in a && ',' !in b && ',' !in c
    ensures Split(a + "," + b + "," + c, ",") == [a, b, c]
  {
    var parts := [a, b, c];
    JoinCons(b, [c], ",");
    assert parts[1..] == [b] + [c];
    assert Join(parts[1..], ",") == b + "," + c;
    JoinCons(a, parts[1..], ",");
    assert parts == [a] + parts[1..];
    assert Join(parts, ",") == a + "," + (b + "," + c) == a + "," + b + "," + c;
    forall p | p in parts ensures !Contains(p, ",") {
      MissingCharacter(p, ",", 0);
    }
    SplitJoin(parts, ",");
  }

  /** The extractors of `player_death`. */
  const DeathExtractors: seq<Extractor> :=
    [UserCoords("victim"), Team("victim"), UserCoords("attacker"), Team("attacker"), Name("victim")]

  lemma DeathExtractorsWriteVictim()
    ensures ExtractorsOf("player_death") == Some(DeathExtractors)
    ensures "victim" in FragmentKeys(DeathExtractors)
    ensures forall e :: e in DeathExtractors && FragmentKey(e) == "victim" ==> !e.Int?
    ensures NestedKeys(DeathExtractors, "victim") == {"clientId", "coordinates", "orientation", "team", "name"}
  {
    var es := DeathExtractors;
    assert es[0] in es;
    assert es[1..][1..][1..][1..][1..] == [];
  }

  /** `player_death` collects everything about the victim in one object: the fields of
      `userCoords('victim')`, `team('victim')` and `name('victim')` together. */
  lemma PlayerDeathVictim(data: string, r: Value)
    requires CommandToken(data) == "player_death" && Parse(data) == Parsed(r)
    ensures IsObject(Get(r, "victim"))
    ensures Get(r, "victim").fields.Keys == {"clientId", "coordinates", "orientation", "team", "name"}
  {
    DeathExtractorsWriteVictim();
    ParsedKeepsCommand(data, r);
    RejectsNonHaywire(data);
    FoldsExtractors(data);
    FoldNestedKeys(DeathExtractors, data, Advance(data, Initial(data), 2), Seed("player_death"), r, "victim");
  }
}
