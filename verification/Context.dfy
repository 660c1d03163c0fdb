/** The step context: a fixed array of slots written in place, read back through typed getters. */
module Context {
  import opened Prelude
  import opened Api

  const STEP_STOP := 0
  const NEED_REQUEUE := 1
  const REQUEUE_AFTER := 2
  const OWNER_RES := 4
  const AGGR_STATUS := 5
  const GENERATION_EQUAL := 6
  const KEY_END := 7

  /** The requeue delay, in nanoseconds. */
  const FIVE_SECONDS: int64 := 5_000_000_000

  /** A stored interface value with its dynamic type. */
  datatype Value =
    | BoolValue(b: bool)
    | Int64Value(i: int64)
    | DurationValue(d: int64)
    | StringsValue(ss: seq<string>)
    | AggrStatusValue(aggr: AggrStatus)

  /** The getters insist on the exact dynamic type and fall back to the zero value. */
  function AsBool(v: Option<Value>): bool { v.Some? && v.value.BoolValue? && v.value.b }

  function AsInt64(v: Option<Value>): int64 { if v.Some? && v.value.Int64Value? then v.value.i else 0 }

  function AsStrings(v: Option<Value>): seq<string> { if v.Some? && v.value.StringsValue? then v.value.ss else [] }

  class WrapperCtx {
    var builtin: array<Option<Value>>

    ghost predicate Valid()
      reads this
    {
      builtin.Length == KEY_END
    }

    constructor ()
      ensures Valid() && fresh(builtin)
      ensures forall k :: 0 <= k < KEY_END ==> builtin[k] == None
    {
      builtin := new Option<Value>[KEY_END](_ => None);
    }

    /** Keys outside the array are looked up in the background context, which holds nothing. */
    function Get(key: int): Option<Value>
      requires Valid()
      reads this, builtin
    {
      if 0 <= key < KEY_END then builtin[key] else None
    }
  }

  /** Over an existing wrapper the value is written into that wrapper, which is returned: whoever holds
      it sees the write, also callers that drop the result. Only over another context is a new wrapper made. */
  method WithValue(parent: WrapperCtx?, key: nat, value: Value) returns (c: WrapperCtx)
    requires parent != null ==> parent.Valid()
    requires key < KEY_END
    modifies if parent != null then {parent.builtin} else {}
    ensures c.Valid()
    ensures parent != null ==>
              && c == parent && c.builtin == old(parent.builtin)
              && c.builtin[..] == old(parent.builtin[..])[key := Some(value)]
    ensures parent == null ==>
              && fresh(c) && fresh(c.builtin)
              && forall k :: 0 <= k < KEY_END ==> c.builtin[k] == if k == key then Some(value) else None
  {
    if parent != null {
      parent.builtin[key] := Some(value);
      return parent;
    }
    c := new WrapperCtx();
    c.builtin[key] := Some(value);
  }
}
