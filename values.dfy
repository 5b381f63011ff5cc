/** The JavaScript values the parser builds (strings, `undefined` and plain objects)
    and `mergeDeep` of parser/index.js, which folds one object into another. */
module Values {

  /** A string, `undefined`, or a plain object (property name to value). */
  datatype Value = Str(s: string) | Undefined | Obj(fields: map<string, Value>)

  /** JavaScript truthiness: the empty string and `undefined` are falsy. */
  predicate Truthy(v: Value)
  {
    match v
    case Str(s) => s != ""
    case Undefined => false
    case Obj(_) => true
  }

  /** `isObject(item)`: a non-null, non-array object. */
  predicate IsObject(v: Value)
  {
    v.Obj?
  }

  /** `v[key]`: the property, `undefined` when `v` has none (a string has none here). */
  function Get(v: Value, key: string): (r: Value)
    ensures IsObject(v) && key in v.fields ==> r == v.fields[key]
    ensures !(IsObject(v) && key in v.fields) ==> r == Undefined
  {
    if IsObject(v) && key in v.fields then v.fields[key] else Undefined
  }

  /** What `mergeDeep` leaves under one key of the source: an object source value is
      merged into the target's value, or into a new `{}` when that is falsy; any other
      source value overwrites. */
  function MergeEntry(target: map<string, Value>, key: string, sv: Value): Value
    decreases sv, 1
  {
    if IsObject(sv) then
      var base := if key in target && Truthy(target[key]) then target[key] else Obj(map[]);
      MergeDeep(base, sv)
    else sv
  }

  /** `mergeDeep(target, source)`: when both are objects, every key of the source is
      merged into the target as `MergeEntry` says and every other key is kept; otherwise
      (the target is a string, say) nothing changes. */
  function MergeDeep(target: Value, source: Value): (r: Value)
    ensures IsObject(target) && IsObject(source) ==>
              IsObject(r) && r.fields.Keys == target.fields.Keys + source.fields.Keys
    ensures IsObject(target) && IsObject(source) ==>
              forall k :: k in target.fields && k !in source.fields ==> r.fields[k] == target.fields[k]
    ensures IsObject(target) && IsObject(source) ==>
              forall k :: k in source.fields && !IsObject(source.fields[k]) ==> r.fields[k] == source.fields[k]
    ensures !(IsObject(target) && IsObject(source)) ==> r == target
    decreases source, 0
  {
    if IsObject(target) && IsObject(source) then
      Obj(map k | k in target.fields.Keys + source.fields.Keys ::
            if k in source.fields then MergeEntry(target.fields, k, source.fields[k])
            else target.fields[k])
    else target
  }

  /** `mergeDeep` as the source runs it: a `for…in` loop over the source's keys, each
      step writing one key of the target. The keys are taken in an arbitrary order, so
      the result does not depend on the order `for…in` visits them. */
  method MergeDeepInto(target: Value, source: Value) returns (r: Value)
    ensures r == MergeDeep(target, source)
    decreases source
  {
    if !(IsObject(target) && IsObject(source)) {
      return target;
    }
    var fields := target.fields;
    var todo := source.fields.Keys;
    while todo != {}
      invariant todo <= source.fields.Keys
      invariant fields.Keys == target.fields.Keys + (source.fields.Keys - todo)
      invariant forall k :: k in fields ==>
                  fields[k] == if k in source.fields && k !in todo
                               then MergeEntry(target.fields, k, source.fields[k])
                               else target.fields[k]
      decreases todo
    {
      var key :| key in todo;
      var sv := source.fields[key];
      if IsObject(sv) {
        if !(key in fields && Truthy(fields[key])) {
          fields := fields[key := Obj(map[])];
        }
        var merged := MergeDeepInto(fields[key], sv);
        fields := fields[key := merged];
      } else {
        fields := fields[key := sv];
      }
      todo := todo - {key};
    }
    r := Obj(fields);
  }

  /** An object source value is merged with the target's object under the same key (or
      with `{}` when the target has a falsy value there): the keys combine. A truthy
      string there is kept, as `mergeDeep` into a string does nothing. */
  lemma MergeCombinesNested(target: map<string, Value>, source: map<string, Value>, k: string)
    requires k in source && IsObject(source[k])
    ensures var r := Get(MergeDeep(Obj(target), Obj(source)), k);
            if k in target && Truthy(target[k]) && !IsObject(target[k]) then r == target[k]
            else IsObject(r) && r.fields.Keys == source[k].fields.Keys
                                                 + (if k in target && IsObject(target[k]) then target[k].fields.Keys else {})
  {
  }

  /** Merging an object into `{}` copies it. */
  lemma {:induction false} MergeIntoEmpty(source: Value)
    requires IsObject(source)
    ensures MergeDeep(Obj(map[]), source) == source
    decreases source
  {
    var r := MergeDeep(Obj(map[]), source);
    forall k | k in source.fields
      ensures r.fields[k] == source.fields[k]
    {
      assert r.fields[k] == MergeEntry(map[], k, source.fields[k]);
      if IsObject(source.fields[k]) {
        MergeIntoEmpty(source.fields[k]);
      }
    }
  }

  /** Objects with disjoint keys merge to their union. */
  lemma MergeDisjoint(target: map<string, Value>, source: map<string, Value>)
    requires target.Keys !! source.Keys
    ensures MergeDeep(Obj(target), Obj(source)) == Obj(target + source)
  {
    var r := MergeDeep(Obj(target), Obj(source));
    forall k | k in source && IsObject(source[k])
      ensures r.fields[k] == source[k]
    {
      MergeIntoEmpty(source[k]);
    }
  }

  /** Merging the same source a second time changes nothing. */
  lemma {:induction false} MergeIdempotent(target: Value, source: Value)
    ensures MergeDeep(MergeDeep(target, source), source) == MergeDeep(target, source)
    decreases source
  {
    if IsObject(target) && IsObject(source) {
      var once := MergeDeep(target, source);
      var twice := MergeDeep(once, source);
      forall k | k in source.fields
        ensures twice.fields[k] == once.fields[k]
      {
        var sv := source.fields[k];
        if IsObject(sv) {
          var base := if k in target.fields && Truthy(target.fields[k]) then target.fields[k] else Obj(map[]);
          assert once.fields[k] == MergeEntry(target.fields, k, sv) == MergeDeep(base, sv);
          assert Truthy(once.fields[k]);
          assert twice.fields[k] == MergeEntry(once.fields, k, sv) == MergeDeep(once.fields[k], sv);
          MergeIdempotent(base, sv);
        }
      }
    }
  }
}
