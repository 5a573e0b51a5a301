/** `validateRequiredFields` (src/utils/validationHelpers.js): walks an
    object's entries and answers 400 for the first falsy value. */
module Validation {
  import opened Wrappers
  import Js
  import ResponseHelpers

  /** Texts the source logs, throws or returns, as it writes them. */
  const MissingFieldText := "Missing required field: "

  /** An object literal: its keys in insertion order and their values. */
  datatype Fields = Fields(keys: seq<string>, values: map<string, Js.Value>)

  /** What a well-formed object looks like: distinct keys, each with a value. */
  predicate WellFormed(f: Fields) {
    && (forall i, j :: 0 <= i < j < |f.keys| ==> f.keys[i] != f.keys[j])
    && (forall i :: 0 <= i < |f.keys| ==> f.keys[i] in f.values)
  }

  function MissingField(key: string): ResponseHelpers.Response {
    ResponseHelpers.Response(400, ResponseHelpers.Body(false, None, MissingFieldText + key + ".", None))
  }

  /** The first key of `order` whose value is falsy. */
  function FirstFalsy(order: seq<string>, values: map<string, Js.Value>): (r: Option<nat>)
    requires forall i :: 0 <= i < |order| ==> order[i] in values
    ensures r.Some? ==> r.value < |order| && !Js.Truthy(values[order[r.value]])
    ensures r.Some? ==> forall i :: 0 <= i < r.value ==> Js.Truthy(values[order[i]])
    ensures r.None? <==> forall i :: 0 <= i < |order| ==> Js.Truthy(values[order[i]])
  {
    if |order| == 0 then None
    else if !Js.Truthy(values[order[0]]) then Some(0)
    else
      var rest := FirstFalsy(order[1..], values);
      if rest.Some? then Some(rest.value + 1) else None
  }

  /** The result: `true` and no response, or `false` and the one 400 response written. */
  datatype Verdict = Verdict(valid: bool, response: Option<ResponseHelpers.Response>)

  /** The visiting order holds the same keys as insertion order. */
  lemma OrderHasSameKeys(keys: seq<string>)
    ensures forall i :: 0 <= i < |Js.OwnKeyOrder(keys)| ==> Js.OwnKeyOrder(keys)[i] in keys
    ensures forall i :: 0 <= i < |keys| ==> keys[i] in Js.OwnKeyOrder(keys)
  {
    var order := Js.OwnKeyOrder(keys);
    forall i | 0 <= i < |order| ensures order[i] in keys {
      assert order[i] in multiset(order);
    }
    forall i | 0 <= i < |keys| ensures keys[i] in order {
      assert keys[i] in multiset(keys);
    }
  }

  /** `validateRequiredFields(fields, res)`: entries are visited in `Object.entries` order. */
  function ValidateRequiredFields(f: Fields): (v: Verdict)
    requires WellFormed(f)
    ensures v.valid <==> v.response.None?
    ensures v.valid <==> forall i :: 0 <= i < |f.keys| ==> Js.Truthy(f.values[f.keys[i]])
    ensures !v.valid ==> exists i :: 0 <= i < |f.keys| && !Js.Truthy(f.values[f.keys[i]])
                                     && v.response == Some(MissingField(f.keys[i]))
  {
    var order := Js.OwnKeyOrder(f.keys);
    OrderHasSameKeys(f.keys);
    var first := FirstFalsy(order, f.values);
    if first.None? then
      forall i | 0 <= i < |f.keys| ensures Js.Truthy(f.values[f.keys[i]]) {
        var j :| 0 <= j < |order| && order[j] == f.keys[i];
      }
      Verdict(true, None)
    else
      var k := order[first.value];
      var i :| 0 <= i < |f.keys| && f.keys[i] == k;
      Verdict(false, Some(MissingField(k)))
  }

  /** When no key looks like an array index, the field reported is the first
      falsy one in insertion order. */
  lemma ReportsFirstInInsertionOrder(f: Fields, i: nat)
    requires WellFormed(f)
    requires forall j :: 0 <= j < |f.keys| ==> !Js.IsArrayIndex(f.keys[j])
    requires i < |f.keys| && !Js.Truthy(f.values[f.keys[i]])
    requires forall j :: 0 <= j < i ==> Js.Truthy(f.values[f.keys[j]])
    ensures ValidateRequiredFields(f) == Verdict(false, Some(MissingField(f.keys[i])))
  {
    assert Js.OwnKeyOrder(f.keys) == f.keys;
    var first := FirstFalsy(f.keys, f.values);
    assert first.Some?;
    if first.value < i {
    } else if first.value > i {
    }
  }

  /** An empty object is valid. */
  lemma EmptyIsValid()
    ensures ValidateRequiredFields(Fields([], map[])) == Verdict(true, None)
  {
  }
}
