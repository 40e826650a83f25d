/** `collectEnvironmentVariables`: the `env_echo` lookup of a list of names in the
    environment, folded into the `variables` record. */
module Echo {
  import opened Wrappers
  import opened Environment

  /** The `variables` record: each name maps to its value, `None` standing for JSON null. */
  type Variables = map<string, Option<string>>

  /** `Array.from(new Set(keys))`: the distinct keys, each once. */
  function Unique(keys: seq<string>): (u: seq<string>)
    ensures forall k :: k in u <==> k in keys
    ensures forall i, j :: 0 <= i < j < |u| ==> u[i] != u[j]
    ensures |u| <= |keys|
  {
    if |keys| == 0 then []
    else
      var u := Unique(keys[..|keys| - 1]);
      var last := keys[|keys| - 1];
      if last in u then u else u + [last]
  }

  /** The reducer's body for one key: skip an unset key when `omitNull` holds, otherwise
      record its value or null. */
  function Step(env: Env, omitNull: bool, acc: Variables, key: string): Variables
  {
    var value := Lookup(env, key);
    if value.None? && omitNull then acc else acc[key := value]
  }

  /** `keys.reduce(reducer, acc)`: the accumulator gains exactly the keys that are set, or
      all of them when nulls are kept, each bound to what the environment holds. */
  function Reduce(env: Env, omitNull: bool, acc: Variables, keys: seq<string>): (r: Variables)
    ensures forall k :: k in r <==> k in acc || (k in keys && (!omitNull || k in env))
    ensures forall k :: k in r ==>
      r[k] == if k in keys && (!omitNull || k in env) then Lookup(env, k) else acc[k]
    decreases |keys|
  {
    if |keys| == 0 then acc
    else Reduce(env, omitNull, Step(env, omitNull, acc, keys[0]), keys[1..])
  }

  /** `collectEnvironmentVariables(keys, { omitNull })`. The record has one entry per
      distinct requested name, except that with `omitNull` the unset names are left out;
      each entry is the environment's value or null. The environment is only read. */
  function Collect(env: Env, keys: seq<string>, omitNull: bool): (vars: Variables)
    ensures forall k :: k in vars <==> k in keys && (!omitNull || k in env)
    ensures forall k :: k in vars ==> vars[k] == Lookup(env, k)
    ensures omitNull ==> forall k :: k in vars ==> vars[k].Some?
  {
    Reduce(env, omitNull, map[], Unique(keys))
  }

  /** The record depends only on the set of names requested, with or without `omitNull`:
      repeating or reordering names in the request changes nothing. */
  lemma CollectIgnoresRepeats(env: Env, keys: seq<string>, keys': seq<string>, omitNull: bool)
    requires forall k :: k in keys <==> k in keys'
    ensures Collect(env, keys, omitNull) == Collect(env, keys', omitNull)
  {
    var a, b := Collect(env, keys, omitNull), Collect(env, keys', omitNull);
    assert a.Keys == b.Keys;
  }

  // ---------------------------------------------------------------------------
  // The reducer as written assigns `acc[key]` on a plain `{}`. For the key "__proto__"
  // that assignment sets the accumulator's prototype (or is ignored, for a string) and
  // creates no entry, so a requested "__proto__" never reaches the result.
  // ---------------------------------------------------------------------------

  function StepAsWritten(env: Env, omitNull: bool, acc: Variables, key: string): Variables
  {
    var value := Lookup(env, key);
    if value.None? && omitNull then acc
    else if key == "__proto__" then acc
    else acc[key := value]
  }

  function ReduceAsWritten(env: Env, omitNull: bool, acc: Variables, keys: seq<string>): (r: Variables)
    ensures forall k :: k in r <==>
      k in acc || (k in keys && k != "__proto__" && (!omitNull || k in env))
    decreases |keys|
  {
    if |keys| == 0 then acc
    else ReduceAsWritten(env, omitNull, StepAsWritten(env, omitNull, acc, keys[0]), keys[1..])
  }

  function CollectAsWritten(env: Env, keys: seq<string>, omitNull: bool): Variables
  {
    ReduceAsWritten(env, omitNull, map[], Unique(keys))
  }

  /** As written, "__proto__" is never echoed, whatever the environment and the flag. */
  lemma ProtoNeverEchoedAsWritten(env: Env, keys: seq<string>, omitNull: bool)
    ensures "__proto__" !in CollectAsWritten(env, keys, omitNull)
  {
  }

  /** The request `{keys: ["__proto__"]}`: the code as written returns an empty record where
      the corrected fold returns one entry. */
  lemma ProtoKeyDropped(env: Env)
    ensures CollectAsWritten(env, ["__proto__"], false) == map[]
    ensures Collect(env, ["__proto__"], false) == map["__proto__" := Lookup(env, "__proto__")]
  {
    var w := CollectAsWritten(env, ["__proto__"], false);
    assert w.Keys == {};
    var c := Collect(env, ["__proto__"], false);
    assert c.Keys == {"__proto__"};
  }

  /** For every other request the code as written and the corrected fold agree. */
  lemma {:induction false} AsWrittenAgrees(env: Env, omitNull: bool, acc: Variables, keys: seq<string>)
    requires "__proto__" !in keys
    ensures ReduceAsWritten(env, omitNull, acc, keys) == Reduce(env, omitNull, acc, keys)
    decreases |keys|
  {
    if |keys| > 0 {
      assert "__proto__" !in keys[1..];
      AsWrittenAgrees(env, omitNull, Step(env, omitNull, acc, keys[0]), keys[1..]);
    }
  }
}
