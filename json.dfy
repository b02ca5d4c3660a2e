/** JSON values as the JavaScript engine holds them once a schema has been
    parsed, together with the few pieces of JavaScript semantics the
    compatibility checker relies on: truthiness, own-property lookup,
    `Object.keys`, strict equality and conversion to string. */
module JsValues {

  datatype Option<T> = None | Some(value: T)

  /** A JSON value. The members of an object are listed in the order in which
      the engine enumerates them (the order `Object.keys` returns). */
  datatype Json =
    | JNull
    | JBool(b: bool)
    | JNum(n: int)
    | JStr(s: string)
    | JArr(items: seq<Json>)
    | JObj(fields: seq<Field>)

  datatype Field = Field(key: string, value: Json)

  /** Values that are not objects in the JavaScript sense. */
  predicate IsPrimitive(v: Json) {
    v.JNull? || v.JBool? || v.JNum? || v.JStr?
  }

  function KeysOf(fs: seq<Field>): (ks: seq<string>) {
    seq(|fs|, i requires 0 <= i < |fs| => fs[i].key)
  }

  predicate DistinctKeys(fs: seq<Field>) {
    forall i, j :: 0 <= i < j < |fs| ==> fs[i].key != fs[j].key
  }

  /** Every object, at every depth, has distinct keys (as every value built by
      `JSON.parse` or a YAML loader does). */
  predicate WellFormed(v: Json)
    decreases v
  {
    match v
    case JObj(fs) =>
      DistinctKeys(fs) && forall i :: 0 <= i < |fs| ==> WellFormed(fs[i].value)
    case JArr(items) => forall i :: 0 <= i < |items| ==> WellFormed(items[i])
    case _ => true
  }

  /** A measure that member lookup never increases. */
  function Size(v: Json): (n: nat)
    decreases v, 1
  {
    match v
    case JStr(s) => 1 + |s|
    case JArr(items) => 1 + ItemsSize(v, |items|)
    case JObj(fs) => 1 + FieldsSize(v, |fs|)
    case _ => 1
  }

  function ItemsSize(v: Json, n: nat): nat
    requires v.JArr? && n <= |v.items|
    decreases v, 0, n
  {
    if n == 0 then 0 else ItemsSize(v, n - 1) + Size(v.items[n - 1])
  }

  function FieldsSize(v: Json, n: nat): nat
    requires v.JObj? && n <= |v.fields|
    decreases v, 0, n
  {
    if n == 0 then 0 else FieldsSize(v, n - 1) + Size(v.fields[n - 1].value)
  }

  lemma {:induction false} ItemsSizeBound(v: Json, n: nat, k: nat)
    requires v.JArr? && k < n <= |v.items|
    ensures Size(v.items[k]) <= ItemsSize(v, n)
  {
    if k < n - 1 { ItemsSizeBound(v, n - 1, k); }
  }

  lemma {:induction false} FieldsSizeBound(v: Json, n: nat, k: nat)
    requires v.JObj? && k < n <= |v.fields|
    ensures Size(v.fields[k].value) <= FieldsSize(v, n)
  {
    if k < n - 1 { FieldsSizeBound(v, n - 1, k); }
  }

  /** The value of key `k` in a member list, if it has one. */
  function Lookup(fs: seq<Field>, k: string): (r: Option<Json>)
    ensures r.Some? <==> exists i :: 0 <= i < |fs| && fs[i].key == k
    ensures r.Some? ==> exists i :: 0 <= i < |fs| && fs[i].key == k && fs[i].value == r.value
  {
    if fs == [] then None
    else if fs[0].key == k then Some(fs[0].value)
    else Lookup(fs[1..], k)
  }

  /** JavaScript truthiness; `None` stands for `undefined`. */
  predicate Truthy(v: Option<Json>) {
    match v
    case None => false
    case Some(JNull) => false
    case Some(JBool(b)) => b
    case Some(JNum(n)) => n != 0
    case Some(JStr(s)) => s != ""
    case Some(_) => true
  }

  /** Both `undefined` and `null`: reading a property of either throws. */
  predicate IsNullish(v: Option<Json>) {
    v.None? || v == Some(JNull)
  }

  function DigitChar(d: nat): (c: char)
    requires d < 10
    ensures '0' <= c <= '9'
  {
    "0123456789"[d]
  }

  /** Decimal notation of a natural number, as `String(n)` writes it. */
  function NatToString(n: nat): (s: string) {
    if n < 10 then [DigitChar(n)] else NatToString(n / 10) + [DigitChar(n % 10)]
  }

  /** Index names are made of decimal digits only, and are never empty. */
  lemma {:induction false} NatToStringDigits(n: nat)
    ensures |NatToString(n)| >= 1
    ensures forall i :: 0 <= i < |NatToString(n)| ==> '0' <= NatToString(n)[i] <= '9'
  {
    if n >= 10 { NatToStringDigits(n / 10); }
  }

  function IntToString(n: int): string {
    if n < 0 then "-" + NatToString(-n) else NatToString(n)
  }

  /** The property names of the indices of an array or string of length `n`. */
  function IndexNames(n: nat): (ks: seq<string>)
    ensures |ks| == n
    ensures forall i :: 0 <= i < n ==> ks[i] == NatToString(i)
  {
    if n == 0 then [] else IndexNames(n - 1) + [NatToString(n - 1)]
  }

  /** The index that property name `k` denotes in an array or string of length `n`. */
  function IndexOf(k: string, n: nat): (r: Option<nat>)
    ensures r.Some? ==> r.value < n && NatToString(r.value) == k
    ensures r.None? ==> forall i :: 0 <= i < n ==> NatToString(i) != k
  {
    if n == 0 then None
    else if NatToString(n - 1) == k then Some(n - 1)
    else IndexOf(k, n - 1)
  }

  /** A name that does not start with a digit denotes no index. */
  lemma WordIsNoIndex(k: string, n: nat)
    requires |k| > 0 && !('0' <= k[0] <= '9')
    ensures IndexOf(k, n).None?
  {
    forall i: nat | i < n ensures NatToString(i) != k {
      NatToStringDigits(i);
    }
  }

  /** `v[k]` for a value that is neither `null` nor `undefined`: the own
      properties of objects, arrays and strings (index names and `length`).
      Numbers and booleans have none. */
  function Get(v: Json, k: string): (r: Option<Json>)
    ensures r.Some? ==> Size(r.value) <= Size(v)
    ensures r.Some? && v.JObj? ==> Size(r.value) < Size(v)
  {
    match v
    case JObj(fs) =>
      var r := Lookup(fs, k);
      if r.Some? then
        var i :| 0 <= i < |fs| && fs[i].key == k && fs[i].value == r.value;
        FieldsSizeBound(v, |fs|, i);
        r
      else r
    case JArr(items) =>
      if k == "length" then Some(JNum(|items|))
      else (match IndexOf(k, |items|)
            case Some(i) => ItemsSizeBound(v, |items|, i); Some(items[i])
            case None => None)
    case JStr(s) =>
      if k == "length" then Some(JNum(|s|))
      else (match IndexOf(k, |s|)
            case Some(i) => Some(JStr([s[i]]))
            case None => None)
    case _ => None
  }

  /** `Object.keys(v)`; `None` when it throws (on `undefined` and `null`). */
  function OwnKeys(v: Option<Json>): (r: Option<seq<string>>)
    ensures r.None? <==> IsNullish(v)
  {
    match v
    case None => None
    case Some(JNull) => None
    case Some(JObj(fs)) => Some(KeysOf(fs))
    case Some(JArr(items)) => Some(IndexNames(|items|))
    case Some(JStr(s)) => Some(IndexNames(|s|))
    case Some(_) => Some([])
  }

  /** `Array.prototype.join` over the elements of array `v` from index `i`;
      it writes `null` elements as the empty string. */
  function JoinFrom(v: Json, i: nat): string
    requires v.JArr? && i <= |v.items|
    decreases v, 0, |v.items| - i
  {
    if i == |v.items| then ""
    else
      var e := if v.items[i].JNull? then "" else JsonString(v.items[i]);
      if i + 1 == |v.items| then e else e + "," + JoinFrom(v, i + 1)
  }

  function JsonString(v: Json): string
    decreases v, 1
  {
    match v
    case JNull => "null"
    case JBool(b) => if b then "true" else "false"
    case JNum(n) => IntToString(n)
    case JStr(s) => s
    case JArr(items) => JoinFrom(v, 0)
    case JObj(_) => "[object Object]"
  }

  /** `String(v)`, as a template literal `${v}` interpolates it. */
  function ToJsString(v: Option<Json>): string {
    match v
    case None => "undefined"
    case Some(j) => JsonString(j)
  }

  /** `a === b`. Arrays and objects are compared by reference: two of them are
      the same object only when `sameObjects` says the two trees are one. */
  predicate StrictEquals(a: Option<Json>, b: Option<Json>, sameObjects: bool) {
    if sameObjects then a == b
    else a == b && (a.None? || IsPrimitive(a.value))
  }

  /** `s.includes(t)`: `t` occurs in `s` as a contiguous piece. */
  predicate Contains(s: string, t: string)
    decreases |s|
  {
    t <= s || (|s| > 0 && Contains(s[1..], t))
  }
}
