/** The few JavaScript runtime notions the modelled code depends on: thrown
    errors, settled promises, truthiness and the enumeration order of object keys. */
module Js {
  import opened Wrappers
  import Text
  import Seqs

  /** A thrown error: its constructor name and its message. */
  datatype Error = Error(name: string, message: string)

  function PlainError(message: string): Error { Error("Error", message) }
  function TypeError(message: string): Error { Error("TypeError", message) }
  function RangeError(message: string): Error { Error("RangeError", message) }
  function ReferenceError(message: string): Error { Error("ReferenceError", message) }

  /** How a synchronous call ends: it returns a value or throws. */
  datatype Completion<T> = Normal(value: T) | Throw(error: Error)

  /** How an awaited call ends: with a value, or with a rejection. */
  datatype Settled<T> = Resolved(value: T) | Rejected(error: Error)

  /** How an awaited call ends, including never: a promise that nothing ever
      resolves, or one that waits forever for a pool connection, stays pending. */
  datatype Awaited<T> = Settles(settled: Settled<T>) | Hangs

  /** A JavaScript value, as far as the modelled code inspects it. */
  datatype Value = Undefined | Null | Bool(b: bool) | Num(n: int) | NaN | Str(s: string) | Obj

  predicate Truthy(v: Value) {
    match v
    case Undefined => false
    case Null => false
    case Bool(b) => b
    case Num(n) => n != 0
    case NaN => false
    case Str(s) => s != ""
    case Obj => true
  }

  /** A value that is a string, `undefined` or `null`: an optional argument or a nullable column. */
  datatype Nullable = Undef | Nil | Given(s: string)

  predicate IsTruthy(v: Nullable) {
    v.Given? && v.s != ""
  }

  /** How a template literal `${v}` writes the value. */
  function Render(v: Nullable): string {
    match v
    case Undef => "undefined"
    case Nil => "null"
    case Given(s) => s
  }

  /** A nullable column as the driver hands it over: SQL `NULL` is `null`. */
  function FromColumn(o: Option<string>): (v: Nullable)
    ensures v.Undef? == false
    ensures o.Some? <==> v.Given?
    ensures o.Some? ==> v.s == o.value
  {
    if o.Some? then Given(o.value) else Nil
  }

  /** Truthiness of an optional string: present and non-empty. */
  predicate Present(o: Option<string>) {
    o.Some? && o.value != ""
  }

  /** `x || null` for an optional string. */
  function OrNull(o: Option<string>): (r: Option<string>)
    ensures Present(o) ==> r == o
    ensures !Present(o) ==> r == None
  {
    if Present(o) then o else None
  }

  /** A canonical array index: the decimal form of an integer below 2^32 - 1. */
  predicate IsArrayIndex(k: string) {
    && |k| >= 1
    && Text.AllDigits(k)
    && (|k| == 1 || k[0] != '0')
    && Text.DecimalValue(k) < 0xFFFF_FFFF
  }

  predicate NotArrayIndex(k: string) {
    !IsArrayIndex(k)
  }

  function IndexKey(k: string): int {
    if IsArrayIndex(k) then Text.DecimalValue(k) else 0
  }

  /** The order in which `Object.keys`/`Object.entries` list keys inserted in
      the order `keys`: array indices ascending, then the other keys in insertion order. */
  function OwnKeyOrder(keys: seq<string>): (r: seq<string>)
    ensures multiset(r) == multiset(keys)
    ensures (forall i :: 0 <= i < |keys| ==> !IsArrayIndex(keys[i])) ==> r == keys
  {
    var indices := Seqs.Filter(keys, IsArrayIndex);
    var others := Seqs.Filter(keys, NotArrayIndex);
    Seqs.FilterSplit(keys, IsArrayIndex, NotArrayIndex);
    NoIndexFilter(keys);
    Seqs.SortBy(indices, IndexKey) + others
  }

  lemma {:induction false} NoIndexFilter(keys: seq<string>)
    ensures (forall i :: 0 <= i < |keys| ==> !IsArrayIndex(keys[i]))
            ==> Seqs.Filter(keys, NotArrayIndex) == keys && Seqs.Filter(keys, IsArrayIndex) == []
    decreases |keys|
  {
    if |keys| > 0 {
      NoIndexFilter(keys[1..]);
    }
  }
}
