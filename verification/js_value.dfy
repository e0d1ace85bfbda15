/** JavaScript values as immutable trees, and the two copies of `deepClone`:
    packages/common/src/index.ts (TypeScript) and common/utils/index.js (the
    older JavaScript copy). Object identity and prototypes are not modelled:
    a clone is judged by structure alone. */
module JsValue {
  import opened Wrappers

  /** Everything for which `typeof v !== "object"`: undefined, booleans,
      numbers (integers here), strings */
  datatype Primitive = Undefined | Boolean(b: bool) | Number(n: int) | Text(s: string)

  /** `Obj` is an object that is `instanceof Object`, with its own enumerable
      string-keyed properties; `NullProtoObj` is one created with a null
      prototype (`Object.create(null)`), which is not `instanceof Object` */
  datatype Value =
    | Prim(p: Primitive)
    | Null
    | Date(time: int)
    | Arr(items: seq<Value>)
    | Obj(fields: map<string, Value>)
    | NullProtoObj(fields: map<string, Value>)

  /** The key for which `clonedObj[key] = …` creates no own property: on a
      fresh `{}` the assignment runs the `__proto__` setter inherited from
      `Object.prototype` */
  const ProtoKey: string := "__proto__"

  /** The key that shadows `Object.prototype.hasOwnProperty`: an object with
      this own property has a non-callable `obj.hasOwnProperty` (no value of
      this model is a function) */
  const HasOwnKey: string := "hasOwnProperty"

  /** No object the clones walk into has `key` as an own property. Both copies
      walk into arrays and `instanceof Object` objects, never into a
      null-prototype object. */
  predicate NoOwnKey(v: Value, key: string) {
    match v
    case Arr(items) => forall i :: 0 <= i < |items| ==> NoOwnKey(items[i], key)
    case Obj(fields) => key !in fields && forall k :: k in fields ==> NoOwnKey(fields[k], key)
    case _ => true
  }

  /** `deepClone` of packages/common/src/index.ts. Primitives and null come
      back as they are, a Date as a Date with the same time value, arrays
      element by element, objects key by key, and an object outside the
      `instanceof Object` test is returned as it is. An own `__proto__`
      property does not reach the clone. */
  function DeepClone(v: Value): (r: Value)
    ensures NoOwnKey(r, ProtoKey)
    ensures r.Obj? <==> v.Obj?
  {
    match v
    case Date(t) => Date(t)
    case Arr(items) => Arr(seq(|items|, i requires 0 <= i < |items| => DeepClone(items[i])))
    case Obj(fields) => Obj(map k | k in fields && k != ProtoKey :: DeepClone(fields[k]))
    case _ => v
  }

  /** The TypeScript copy returns a structurally equal value exactly when no
      object it walks into has an own `__proto__` property */
  lemma {:induction false} DeepCloneExact(v: Value)
    ensures DeepClone(v) == v <==> NoOwnKey(v, ProtoKey)
  {
    match v
    case Arr(items) =>
      if NoOwnKey(v, ProtoKey) {
        forall i | 0 <= i < |items|
          ensures DeepClone(items[i]) == items[i]
        {
          DeepCloneExact(items[i]);
        }
        assert DeepClone(v).items == items;
      }
    case Obj(fields) =>
      if NoOwnKey(v, ProtoKey) {
        forall k | k in fields
          ensures DeepClone(fields[k]) == fields[k]
        {
          DeepCloneExact(fields[k]);
        }
        assert DeepClone(v).fields == fields;
      }
    case _ =>
  }

  /** Cloning a clone changes nothing more */
  lemma DeepCloneIdempotent(v: Value)
    ensures DeepClone(DeepClone(v)) == DeepClone(v)
  {
    DeepCloneExact(DeepClone(v));
  }

  /** No null-prototype object in what a clone keeps: `v` itself, array
      elements, and object properties other than an own `__proto__` */
  predicate NullProtoFree(v: Value) {
    match v
    case Arr(items) => forall i :: 0 <= i < |items| ==> NullProtoFree(items[i])
    case Obj(fields) => forall k :: k in fields && k != ProtoKey ==> NullProtoFree(fields[k])
    case NullProtoObj(_) => false
    case _ => true
  }

  /** `deepClone` of common/utils/index.js, `None` when it throws. It differs
      from the TypeScript copy twice: `obj.hasOwnProperty(key)` throws a
      TypeError on an object with an own `hasOwnProperty` property, before
      any of its keys is cloned, and a throw anywhere inside propagates; and
      with no final `return obj`, an object that is not `instanceof Object`
      clones to `undefined`. */
  function JsDeepClone(v: Value): (r: Option<Value>)
    ensures r.Some? ==> NullProtoFree(r.value) && NoOwnKey(r.value, ProtoKey) && NoOwnKey(r.value, HasOwnKey)
  {
    match v
    case Prim(_) => Some(v)
    case Null => Some(v)
    case Date(t) => Some(Date(t))
    case Arr(items) =>
      if exists i :: 0 <= i < |items| && JsDeepClone(items[i]).None? then None
      else Some(Arr(seq(|items|, i requires 0 <= i < |items| => JsDeepClone(items[i]).value)))
    case Obj(fields) =>
      if HasOwnKey in fields then None
      else if exists k :: k in fields && JsDeepClone(fields[k]).None? then None
      else Some(Obj(map k | k in fields && k != ProtoKey :: JsDeepClone(fields[k]).value))
    case NullProtoObj(_) => Some(Prim(Undefined))
  }

  /** The JavaScript copy throws exactly when an object it walks into has an
      own `hasOwnProperty` property */
  lemma {:induction false} JsDeepCloneThrows(v: Value)
    ensures JsDeepClone(v).None? <==> !NoOwnKey(v, HasOwnKey)
  {
    match v
    case Arr(items) =>
      forall i | 0 <= i < |items|
        ensures JsDeepClone(items[i]).None? <==> !NoOwnKey(items[i], HasOwnKey)
      {
        JsDeepCloneThrows(items[i]);
      }
    case Obj(fields) =>
      forall k | k in fields
        ensures JsDeepClone(fields[k]).None? <==> !NoOwnKey(fields[k], HasOwnKey)
      {
        JsDeepCloneThrows(fields[k]);
      }
    case _ =>
  }

  /** Where the JavaScript copy does not throw and no kept part is a
      null-prototype object, the two copies return the same clone */
  lemma {:induction false} AgreeWhereFree(v: Value)
    requires NullProtoFree(v) && NoOwnKey(v, HasOwnKey)
    ensures JsDeepClone(v) == Some(DeepClone(v))
  {
    JsDeepCloneThrows(v);
    match v
    case Arr(items) =>
      forall i | 0 <= i < |items|
        ensures JsDeepClone(items[i]) == Some(DeepClone(items[i]))
      {
        AgreeWhereFree(items[i]);
      }
      assert JsDeepClone(v).value.items == DeepClone(v).items;
    case Obj(fields) =>
      forall k | k in fields && k != ProtoKey
        ensures JsDeepClone(fields[k]) == Some(DeepClone(fields[k]))
      {
        AgreeWhereFree(fields[k]);
      }
      assert JsDeepClone(v).value.fields == DeepClone(v).fields;
    case _ =>
  }

  /** The TypeScript copy keeps every null-prototype object in a kept part */
  lemma {:induction false} DeepCloneKeepsNullProto(v: Value)
    requires !NullProtoFree(v)
    ensures !NullProtoFree(DeepClone(v))
  {
    match v
    case Arr(items) =>
      var i :| 0 <= i < |items| && !NullProtoFree(items[i]);
      DeepCloneKeepsNullProto(items[i]);
      assert DeepClone(v).items[i] == DeepClone(items[i]);
    case Obj(fields) =>
      var k :| k in fields && k != ProtoKey && !NullProtoFree(fields[k]);
      DeepCloneKeepsNullProto(fields[k]);
      assert DeepClone(v).fields[k] == DeepClone(fields[k]);
    case NullProtoObj(_) =>
  }

  /** The two copies agree exactly when the JavaScript copy does not throw
      and no kept part of the value is a null-prototype object, which the
      TypeScript copy returns as it is and the JavaScript copy turns into
      undefined */
  lemma ClonesAgree(v: Value)
    ensures JsDeepClone(v) == Some(DeepClone(v)) <==> NullProtoFree(v) && NoOwnKey(v, HasOwnKey)
  {
    JsDeepCloneThrows(v);
    if NullProtoFree(v) && NoOwnKey(v, HasOwnKey) {
      AgreeWhereFree(v);
    } else if !NullProtoFree(v) {
      DeepCloneKeepsNullProto(v);
    }
  }

  /** The JavaScript copy returns a structurally equal value exactly when it
      does not throw and meets neither a null-prototype object nor an own
      `__proto__` property */
  lemma JsDeepCloneExact(v: Value)
    ensures JsDeepClone(v) == Some(v)
            <==> NullProtoFree(v) && NoOwnKey(v, HasOwnKey) && NoOwnKey(v, ProtoKey)
  {
    ClonesAgree(v);
    DeepCloneExact(v);
  }

  /** Cloning a clone with the JavaScript copy neither throws nor changes
      anything more */
  lemma JsDeepCloneIdempotent(v: Value)
    requires JsDeepClone(v).Some?
    ensures JsDeepClone(JsDeepClone(v).value) == JsDeepClone(v)
  {
    JsDeepCloneExact(JsDeepClone(v).value);
  }
}
