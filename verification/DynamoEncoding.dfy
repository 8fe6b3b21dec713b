/** The placeholder encoding of values for DynamoDB, which stores no empty string and no plain number. */
module DynamoEncoding {

  /** Python values as they go in and come out, equal only if their types are. `Binary` is boto's wrapper around
      `Bytes`. */
  datatype Value =
    | Dict(entries: map<string, Value>)
    | Array(items: seq<Value>)
    | Str(text: string)
    | Integer(n: int)
    | Float(f: real)
    | Decimal(d: real)
    | Time(timestamp: real)
    | Boolean(b: bool)
    | Null
    | Bytes(bytes: string)
    | Binary(value: string)

  const PLACEHOLDER := "---DYNAMO-EMPTY-STRING---"

  const RESERVED := {"aws:rep:deleting", "aws:rep:updateregion", "aws:rep:updatetime"}

  /** `_data_to_dynamo_replace`. */
  function Encoded(v: Value): Value {
    match v
    case Dict(entries) => Dict(map k | k in entries && k !in RESERVED :: Encoded(entries[k]))
    case Array(items) => Array(seq(|items|, i requires 0 <= i < |items| => Encoded(items[i])))
    case Str(text) => if text == "" then Str(PLACEHOLDER) else v
    case Integer(n) => Decimal(n as real)
    case Float(f) => Decimal(f)
    case Time(t) => Decimal(t)
    case _ => v
  }

  /** `int(d)`: truncation towards zero. */
  function Truncated(d: real): int {
    if d >= 0.0 then d.Floor else -((-d).Floor)
  }

  /** `_data_from_dynamo_replace`. */
  function Decoded(v: Value): Value {
    match v
    case Dict(entries) => Dict(map k | k in entries && k !in RESERVED :: Decoded(entries[k]))
    case Array(items) => Array(seq(|items|, i requires 0 <= i < |items| => Decoded(items[i])))
    case Str(text) => if text == PLACEHOLDER then Str("") else v
    case Decimal(d) => Integer(Truncated(d))
    case Binary(value) => Bytes(value)
    case _ => v
  }

  /** No reserved key, no placeholder, and among numbers, times and binaries only integers and bytes. */
  predicate Plain(v: Value) {
    match v
    case Dict(entries) =>
      forall k :: k in entries ==>
        k !in {"aws:rep:deleting", "aws:rep:updateregion", "aws:rep:updatetime"} && Plain(entries[k])
    case Array(items) => forall i :: 0 <= i < |items| ==> Plain(items[i])
    case Str(text) => text != "---DYNAMO-EMPTY-STRING---"
    case Float(_) => false
    case Decimal(_) => false
    case Time(_) => false
    case Binary(_) => false
    case _ => true
  }

  /** `w` is what is stored of `v`. Of a dictionary all but the keys DynamoDB reserves, of a list every item, in order;
      the placeholder for an empty string; every number, and the time as its timestamp, as a decimal. */
  ghost predicate StoredAs(v: Value, w: Value) {
    match v
    case Dict(entries) =>
      && w.Dict? && w.entries.Keys == entries.Keys - {"aws:rep:deleting", "aws:rep:updateregion", "aws:rep:updatetime"}
      && forall k :: k in entries && k in w.entries ==> StoredAs(entries[k], w.entries[k])
    case Array(items) =>
      w.Array? && |w.items| == |items| && forall i :: 0 <= i < |items| ==> StoredAs(items[i], w.items[i])
    case Str(text) => w == Str(if text == "" then "---DYNAMO-EMPTY-STRING---" else text)
    case Integer(n) => w == Decimal(n as real)
    case Float(f) => w == Decimal(f)
    case Time(t) => w == Decimal(t)
    case _ => w == v
  }

  lemma {:induction false} EncodedIsStored(v: Value)
    ensures StoredAs(v, Encoded(v))
  {
    match v
    case Dict(entries) => forall k | k in entries
      ensures StoredAs(entries[k], Encoded(entries[k])) { EncodedIsStored(entries[k]); }
    case Array(items) => forall i | 0 <= i < |items|
      ensures StoredAs(items[i], Encoded(items[i])) { EncodedIsStored(items[i]); }
    case _ =>
  }

  /** `n` is `d` without what comes after the point. */
  predicate WholePart(d: real, n: int) {
    if d >= 0.0 then n as real <= d < n as real + 1.0 else n as real - 1.0 < d <= n as real
  }

  /** `w` is what comes back of `v` once stored and read: the value without reserved keys, a placeholder become the
      empty string, other numbers and times cut to integers, binaries unwrapped. */
  ghost predicate ComesBackAs(v: Value, w: Value) {
    match v
    case Dict(entries) =>
      && w.Dict? && w.entries.Keys == entries.Keys - {"aws:rep:deleting", "aws:rep:updateregion", "aws:rep:updatetime"}
      && forall k :: k in entries && k in w.entries ==> ComesBackAs(entries[k], w.entries[k])
    case Array(items) =>
      w.Array? && |w.items| == |items| && forall i :: 0 <= i < |items| ==> ComesBackAs(items[i], w.items[i])
    case Str(text) => w == Str(if text == "---DYNAMO-EMPTY-STRING---" then "" else text)
    case Float(f) => w.Integer? && WholePart(f, w.n)
    case Decimal(d) => w.Integer? && WholePart(d, w.n)
    case Time(t) => w.Integer? && WholePart(t, w.n)
    case Binary(value) => w == Bytes(value)
    case _ => w == v
  }

  /** What comes back of any value, not only of those that return unchanged. */
  lemma {:induction false} WhatComesBack(v: Value)
    ensures ComesBackAs(v, Decoded(Encoded(v)))
  {
    match v
    case Dict(entries) =>
      forall k | k in entries ensures ComesBackAs(entries[k], Decoded(Encoded(entries[k]))) {
        WhatComesBack(entries[k]);
      }
      assert Encoded(v).Dict? && Decoded(Encoded(v)).entries.Keys == Encoded(v).entries.Keys;
    case Array(items) => forall i | 0 <= i < |items|
      ensures ComesBackAs(items[i], Decoded(Encoded(items[i]))) { WhatComesBack(items[i]); }
    case _ =>
  }

  /** Decoding the encoding returns the value exactly when the value is plain. */
  lemma {:induction false} RoundTripIff(v: Value)
    ensures Decoded(Encoded(v)) == v <==> Plain(v)
  {
    match v
    case Dict(entries) =>
      var back := Decoded(Encoded(v));
      forall k | k in entries
        ensures Decoded(Encoded(entries[k])) == entries[k] <==> Plain(entries[k]) { RoundTripIff(entries[k]); }
      if Plain(v) {
        assert back.entries.Keys == entries.Keys;
        assert forall k :: k in entries ==> back.entries[k] == entries[k];
      }
      if back == v {
        forall k | k in entries ensures k !in RESERVED && Plain(entries[k]) { assert k in back.entries; }
      }
    case Array(items) =>
      var back := Decoded(Encoded(v));
      forall i | 0 <= i < |items|
        ensures Decoded(Encoded(items[i])) == items[i] <==> Plain(items[i]) { RoundTripIff(items[i]); }
      assert |back.items| == |items| && forall i :: 0 <= i < |items| ==> back.items[i] == Decoded(Encoded(items[i]));
    case _ =>
  }

  /** Decoding twice is decoding once. */
  lemma {:induction false} DecodingIsIdempotent(v: Value)
    ensures Decoded(Decoded(v)) == Decoded(v)
  {
    match v
    case Dict(entries) =>
      var once, twice := Decoded(v), Decoded(Decoded(v));
      forall k | k in once.entries ensures twice.entries[k] == once.entries[k] { DecodingIsIdempotent(entries[k]); }
      assert twice.entries.Keys == once.entries.Keys;
    case Array(items) =>
      var once, twice := Decoded(v), Decoded(Decoded(v));
      forall i | 0 <= i < |items| ensures twice.items[i] == once.items[i] { DecodingIsIdempotent(items[i]); }
      assert |twice.items| == |once.items|;
    case _ =>
  }

  /** What DynamoDB takes: no empty string, no reserved key, no number but decimals. */
  predicate Storable(v: Value) {
    match v
    case Dict(entries) =>
      forall k :: k in entries ==>
        k !in {"aws:rep:deleting", "aws:rep:updateregion", "aws:rep:updatetime"} && Storable(entries[k])
    case Array(items) => forall i :: 0 <= i < |items| ==> Storable(items[i])
    case Str(text) => text != ""
    case Integer(_) => false
    case Float(_) => false
    case Time(_) => false
    case _ => true
  }

  lemma {:induction false} EncodingIsStorable(v: Value)
    ensures Storable(Encoded(v))
  {
    match v
    case Dict(entries) => forall k | k in entries
      ensures Storable(Encoded(entries[k])) { EncodingIsStorable(entries[k]); }
    case Array(items) => forall i | 0 <= i < |items|
      ensures Storable(Encoded(items[i])) { EncodingIsStorable(items[i]); }
    case _ =>
  }
}
