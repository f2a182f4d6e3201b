/** The part of zod the front end's schemas use: `z.string()`, `z.number()`,
    `z.any()`, `.array()`, `z.object({...})` with `.optional()` and
    `.default(v)` fields, as validation over JSON values and as the value
    `parse` returns (unknown keys stripped, defaults filled in). */
module Zod {
  import opened Wrappers
  import opened Json

  /** How an object field may be absent: never, freely, or replaced by a
      default. */
  datatype Presence = Required | Optional | DefaultTo(value: Json)

  datatype Schema =
    | Str
    | Num
    | Anything
    | Arr(element: Schema)
    | Obj(fields: seq<Field>)

  datatype Field = Field(key: string, schema: Schema, presence: Presence)

  function Req(key: string, s: Schema): Field { Field(key, s, Required) }
  /** `.optional()`. */
  function Opt(key: string, s: Schema): Field { Field(key, s, Optional) }
  /** `.default(v)`. */
  function Def(key: string, s: Schema, v: Json): Field { Field(key, s, DefaultTo(v)) }

  predicate DistinctKeys(fields: seq<Field>) {
    forall i, j :: 0 <= i < j < |fields| ==> fields[i].key != fields[j].key
  }

  /** An object literal cannot repeat a key. */
  predicate WellFormed(s: Schema)
    decreases s
  {
    match s
    case Arr(e) => WellFormed(e)
    case Obj(fields) => DistinctKeys(fields) && forall i :: 0 <= i < |fields| ==> WellFormed(fields[i].schema)
    case _ => true
  }

  /** `safeParse(j).success`. An object accepts extra keys; JSON `null` is
      not an absent value. */
  predicate Valid(s: Schema, j: Json)
    decreases s
  {
    match s
    case Str => j.JStr?
    case Num => j.JNum?
    case Anything => true
    case Arr(e) => j.JArr? && forall i :: 0 <= i < |j.items| ==> Valid(e, j.items[i])
    case Obj(fields) => j.JObj? && forall i :: 0 <= i < |fields| ==> FieldValid(fields[i], j.fields)
  }

  /** One object field: a present value must pass the field's schema; an
      absent field is fine when it is optional, or when its default passes. */
  predicate FieldValid(f: Field, m: map<string, Json>)
    decreases f
  {
    if f.key in m then Valid(f.schema, m[f.key])
    else match f.presence
         case Required => false
         case Optional => true
         case DefaultTo(v) => Valid(f.schema, v)
  }

  /** An object passes exactly when each of its fields does. */
  lemma ObjectValid(fields: seq<Field>, j: Json)
    ensures Valid(Obj(fields), j) <==> j.JObj? && forall f :: f in fields ==> FieldValid(f, j.fields)
  {
    if j.JObj? && forall f :: f in fields ==> FieldValid(f, j.fields) {
      forall i | 0 <= i < |fields| ensures FieldValid(fields[i], j.fields) {
        assert fields[i] in fields;
      }
    }
  }

  /** Every key of `keys` holds a string. */
  predicate StringsAt(m: map<string, Json>, keys: seq<string>) {
    forall k :: k in keys ==> k in m && m[k].JStr?
  }

  /** Every key of `keys` that is present holds a string. */
  predicate OptionalStringsAt(m: map<string, Json>, keys: seq<string>) {
    forall k :: k in keys && k in m ==> m[k].JStr?
  }

  /** Every key of `keys` that is present holds a number. */
  predicate OptionalNumbersAt(m: map<string, Json>, keys: seq<string>) {
    forall k :: k in keys && k in m ==> m[k].JNum?
  }

  /** A present `k` holds an array whose every element satisfies `p`. */
  predicate OptionalArrayAt(m: map<string, Json>, k: string, p: Json -> bool) {
    k in m ==> m[k].JArr? && forall i :: 0 <= i < |m[k].items| ==> p(m[k].items[i])
  }

  /** Whether a field appears in the parsed object. */
  predicate Emitted(f: Field, m: map<string, Json>) {
    f.key in m || f.presence.DefaultTo?
  }

  /** The parsed value of a valid input. */
  function Output(s: Schema, j: Json): (r: Json)
    requires Valid(s, j)
    decreases s, if s.Obj? then |s.fields| + 1 else 0
  {
    match s
    case Arr(e) => JArr(seq(|j.items|, i requires 0 <= i < |j.items| => Output(e, j.items[i])))
    case Obj(fields) => JObj(OutputFields(s, |fields|, j.fields))
    case _ => j
  }

  /** The parsed object for the first `n` fields of `s`: each field that was
      given or has a default, with its parsed value; nothing else. */
  function OutputFields(s: Schema, n: nat, m: map<string, Json>): map<string, Json>
    requires s.Obj? && n <= |s.fields| && Valid(s, JObj(m))
    decreases s, n
  {
    if n == 0 then map[]
    else
      var f := s.fields[n - 1];
      var rest := OutputFields(s, n - 1, m);
      assert FieldValid(f, m);
      if f.key in m then rest[f.key := Output(f.schema, m[f.key])]
      else if f.presence.DefaultTo? then rest[f.key := Output(f.schema, f.presence.value)]
      else rest
  }

  /** What a field that was given or has a default parses to. */
  function FieldOutput(f: Field, m: map<string, Json>): Json
    requires FieldValid(f, m) && Emitted(f, m)
  {
    if f.key in m then Output(f.schema, m[f.key]) else Output(f.schema, f.presence.value)
  }

  /** `safeParse(j)`: the parsed value, or nothing. */
  function Parse(s: Schema, j: Json): (r: Option<Json>)
    ensures r.Some? <==> Valid(s, j)
  {
    if Valid(s, j) then Some(Output(s, j)) else None
  }

  lemma {:induction false} OutputFieldsKeys(s: Schema, n: nat, m: map<string, Json>, k: string)
    requires s.Obj? && n <= |s.fields| && Valid(s, JObj(m))
    ensures k in OutputFields(s, n, m) <==> exists i :: 0 <= i < n && s.fields[i].key == k && Emitted(s.fields[i], m)
    decreases n
  {
    if n > 0 {
      OutputFieldsKeys(s, n - 1, m, k);
      if k in OutputFields(s, n, m) && k !in OutputFields(s, n - 1, m) {
        assert s.fields[n - 1].key == k && Emitted(s.fields[n - 1], m);
      }
    }
  }

  lemma {:induction false} OutputFieldsValue(s: Schema, n: nat, m: map<string, Json>, i: nat)
    requires s.Obj? && n <= |s.fields| && DistinctKeys(s.fields) && Valid(s, JObj(m))
    requires i < n && Emitted(s.fields[i], m)
    ensures s.fields[i].key in OutputFields(s, n, m)
    ensures OutputFields(s, n, m)[s.fields[i].key] == FieldOutput(s.fields[i], m)
    decreases n
  {
    if i < n - 1 {
      OutputFieldsValue(s, n - 1, m, i);
      assert s.fields[i].key != s.fields[n - 1].key;
    }
  }

  /** An object's parsed value has a key exactly for each field that was
      given or has a default; unknown keys are dropped. */
  lemma ObjectOutputKeys(fields: seq<Field>, j: Json, k: string)
    requires Valid(Obj(fields), j)
    ensures k in Output(Obj(fields), j).fields <==>
              exists i :: 0 <= i < |fields| && fields[i].key == k && Emitted(fields[i], j.fields)
  {
    OutputFieldsKeys(Obj(fields), |fields|, j.fields, k);
  }

  /** The parsed value of a given field is the parsed value of what was
      given, and that of an absent field with a default is its default's. */
  lemma ObjectOutputField(fields: seq<Field>, j: Json, i: nat)
    requires DistinctKeys(fields) && Valid(Obj(fields), j)
    requires i < |fields| && Emitted(fields[i], j.fields)
    ensures fields[i].key in Output(Obj(fields), j).fields
    ensures Output(Obj(fields), j).fields[fields[i].key] == FieldOutput(fields[i], j.fields)
  {
    OutputFieldsValue(Obj(fields), |fields|, j.fields, i);
  }

  /** Parsing is idempotent: what `parse` returns passes the same schema
      and parses to itself. */
  lemma {:induction false} OutputIdempotent(s: Schema, j: Json)
    requires WellFormed(s) && Valid(s, j)
    ensures Valid(s, Output(s, j))
    ensures Output(s, Output(s, j)) == Output(s, j)
    decreases s
  {
    match s
    case Arr(e) =>
      var o := Output(s, j);
      forall i | 0 <= i < |o.items|
        ensures Valid(e, o.items[i]) && Output(e, o.items[i]) == o.items[i]
      {
        OutputIdempotent(e, j.items[i]);
      }
      assert Output(s, o).items == o.items;
    case Obj(fields) =>
      var o := Output(s, j);
      forall i | 0 <= i < |fields|
        ensures Emitted(fields[i], j.fields) ==>
                  fields[i].key in o.fields &&
                  Valid(fields[i].schema, o.fields[fields[i].key]) &&
                  Output(fields[i].schema, o.fields[fields[i].key]) == o.fields[fields[i].key]
        ensures !Emitted(fields[i], j.fields) ==> fields[i].key !in o.fields && fields[i].presence.Optional?
      {
        var f := fields[i];
        assert f.schema < f;
        if Emitted(f, j.fields) {
          ObjectOutputField(fields, j, i);
          if f.key in j.fields {
            OutputIdempotent(f.schema, j.fields[f.key]);
          } else {
            OutputIdempotent(f.schema, f.presence.value);
          }
        } else {
          ObjectOutputKeys(fields, j, f.key);
          forall i' | 0 <= i' < |fields| && fields[i'].key == f.key ensures i' == i {
          }
        }
      }
      assert Valid(s, o);
      var oo := Output(s, o);
      forall k ensures k in oo.fields <==> k in o.fields {
        ObjectOutputKeys(fields, o, k);
        ObjectOutputKeys(fields, j, k);
      }
      forall k | k in o.fields ensures oo.fields[k] == o.fields[k] {
        ObjectOutputKeys(fields, j, k);
        var i :| 0 <= i < |fields| && fields[i].key == k && Emitted(fields[i], j.fields);
        ObjectOutputField(fields, o, i);
      }
      assert oo.fields == o.fields;
    case _ =>
  }
}
