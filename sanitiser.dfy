/** Removal of ignored keys from schema trees, in place.

    Both `cleanUpSchemas` in lib/index.js and `removeProperties` in
    lib/utils.js walk a tree with the same inner closure `removeProps`: for
    every own key of the current object (arrays included, whose keys are their
    indices), a key on the ignored list is deleted and any other key whose
    value is an object (`typeof v === 'object'`, which also holds for arrays
    and for `null`) is walked in turn. The closure is modelled once, as the
    method `RemoveProps`, which deletes members from a working copy of each
    object one key at a time and is proved against the value-level function
    `Strip`. */
module Sanitiser {
  import opened JsValues

  /** What `Strip` leaves of a value: `None` when the walk throws, which it
      does on reaching `null`, since `Object.keys(null)` throws. An object
      stays an object with no more members than it had; an array stays an
      array with all its elements. */
  function Strip(ignored: seq<string>, v: Json): (r: Option<Json>)
    ensures r.Some? ==> (r.value.JObj? <==> v.JObj?) && (r.value.JArr? <==> v.JArr?)
    ensures r.Some? && v.JObj? ==> |r.value.fields| <= |v.fields|
    ensures r.Some? && v.JArr? ==> |r.value.items| == |v.items|
    decreases v, 1
  {
    match v
    case JNull => None
    case JObj(fs) =>
      (match StripFields(ignored, fs, |fs|)
       case None => None
       case Some(gs) => Some(JObj(gs)))
    case JArr(items) =>
      (match StripItems(ignored, items, |items|)
       case None => None
       case Some(ws) => Some(JArr(ws)))
    case _ => Some(v)
  }

  /** The first `n` members of an object, processed in enumeration order: a
      member whose key is ignored is dropped, any other keeps its key and has
      its value stripped. */
  function StripFields(ignored: seq<string>, fs: seq<Field>, n: nat): (r: Option<seq<Field>>)
    requires n <= |fs|
    ensures r.Some? ==> |r.value| <= n
    decreases fs, 0, n
  {
    if n == 0 then Some([])
    else
      match StripFields(ignored, fs, n - 1)
      case None => None
      case Some(done) =>
        if fs[n - 1].key in ignored then Some(done)
        else
          match Strip(ignored, fs[n - 1].value)
          case None => None
          case Some(w) => Some(done + [Field(fs[n - 1].key, w)])
  }

  /** The first `n` elements of an array, each stripped in place. */
  function StripItems(ignored: seq<string>, items: seq<Json>, n: nat): (r: Option<seq<Json>>)
    requires n <= |items|
    ensures r.Some? ==> |r.value| == n
    decreases items, 0, n
  {
    if n == 0 then Some([])
    else
      match StripItems(ignored, items, n - 1)
      case None => None
      case Some(done) =>
        match Strip(ignored, items[n - 1])
        case None => None
        case Some(w) => Some(done + [w])
  }

  /** One more member of an object, as the walk visits it. */
  lemma StripFieldsStep(ignored: seq<string>, fs: seq<Field>, i: nat)
    requires i < |fs| && StripFields(ignored, fs, i).Some?
    ensures fs[i].key in ignored ==> StripFields(ignored, fs, i + 1) == StripFields(ignored, fs, i)
    ensures fs[i].key !in ignored && Strip(ignored, fs[i].value).None? ==>
              StripFields(ignored, fs, i + 1).None?
    ensures fs[i].key !in ignored && Strip(ignored, fs[i].value).Some? ==>
              StripFields(ignored, fs, i + 1) ==
              Some(StripFields(ignored, fs, i).value + [Field(fs[i].key, Strip(ignored, fs[i].value).value)])
  {
  }

  /** One more element of an array. */
  lemma StripItemsStep(ignored: seq<string>, items: seq<Json>, i: nat)
    requires i < |items| && StripItems(ignored, items, i).Some?
    ensures Strip(ignored, items[i]).None? ==> StripItems(ignored, items, i + 1).None?
    ensures Strip(ignored, items[i]).Some? ==>
              StripItems(ignored, items, i + 1) ==
              Some(StripItems(ignored, items, i).value + [Strip(ignored, items[i]).value])
  {
  }

  /** A failure on a prefix is a failure of every longer prefix. */
  lemma {:induction false} StripFieldsPrefixFails(ignored: seq<string>, fs: seq<Field>, k: nat, n: nat)
    requires k <= n <= |fs| && StripFields(ignored, fs, k).None?
    ensures StripFields(ignored, fs, n).None?
    decreases n
  {
    if k < n {
      StripFieldsPrefixFails(ignored, fs, k, n - 1);
    }
  }

  lemma {:induction false} StripItemsPrefixFails(ignored: seq<string>, items: seq<Json>, k: nat, n: nat)
    requires k <= n <= |items| && StripItems(ignored, items, k).None?
    ensures StripItems(ignored, items, n).None?
    decreases n
  {
    if k < n {
      StripItemsPrefixFails(ignored, items, k, n - 1);
    }
  }

  /** The three ways one step of the walk rewrites what is left of an
      object or array: `done` is the processed part, `s[i..]` the part still
      to visit; a member is deleted, replaced, or kept as it is. */
  lemma Advance<T>(current: seq<T>, done: seq<T>, s: seq<T>, i: nat, x: T)
    requires i < |s| && current == done + s[i..]
    ensures current[..|done|] + current[|done| + 1..] == done + s[i + 1..]
    ensures current[|done| := x] == (done + [x]) + s[i + 1..]
    ensures current == (done + [s[i]]) + s[i + 1..]
    ensures current[|done|] == s[i]
  {
    assert current[..|done|] == done;
    assert current[|done| + 1..] == s[i + 1..];
  }

  /** No key of `ignored` is the name of an array index. Deleting an index
      leaves a hole in the array, which JSON values cannot hold. */
  ghost predicate NoIndexNames(ignored: seq<string>) {
    forall n: nat :: NatToString(n) !in ignored
  }

  /** The closure `removeProps` (lib/index.js:29-37, lib/utils.js:20-28) on
      one value: `Object.keys` is taken once, then each key in turn is either
      deleted from the object or, when its value is an object (`typeof` says
      so of arrays and of `null` too), walked. `None` is the exception that
      `Object.keys(null)` throws. */
  method RemoveProps(ignored: seq<string>, v: Json) returns (r: Option<Json>)
    requires NoIndexNames(ignored)
    ensures r == Strip(ignored, v)
    decreases v, 1
  {
    match v
    case JNull =>
      r := None;
    case JObj(_) =>
      r := RemovePropsOfObject(ignored, v);
    case JArr(_) =>
      r := RemovePropsOfArray(ignored, v);
    case _ =>
      r := Some(v);
  }

  /** The walk over the own keys of an object, deleting members in place. */
  method RemovePropsOfObject(ignored: seq<string>, v: Json) returns (r: Option<Json>)
    requires v.JObj? && NoIndexNames(ignored)
    ensures r == Strip(ignored, v)
    decreases v, 0
  {
    var fs := v.fields;
    var keys := KeysOf(fs);
    var current := fs;
    var i, j := 0, 0;
    ghost var done: seq<Field> := [];
    while i < |keys|
      invariant 0 <= j <= i <= |fs| == |keys|
      invariant StripFields(ignored, fs, i) == Some(done)
      invariant current == done + fs[i..] && j == |done|
    {
      // Keys of an object are distinct, so the member named `keys[i]` is the
      // one at position `j` of what is left of the object.
      assert keys[i] == fs[i].key;
      Advance(current, done, fs, i, fs[i]);
      StripFieldsStep(ignored, fs, i);
      if keys[i] in ignored {
        current := current[..j] + current[j + 1..];
      } else if !IsPrimitive(current[j].value) || current[j].value.JNull? {
        var w := RemoveProps(ignored, fs[i].value);
        if w.None? {
          StripFieldsPrefixFails(ignored, fs, i + 1, |fs|);
          return None;
        }
        Advance(current, done, fs, i, Field(keys[i], w.value));
        current := current[j := Field(keys[i], w.value)];
        done := done + [Field(keys[i], w.value)];
        j := j + 1;
      } else {
        done := done + [fs[i]];
        j := j + 1;
      }
      i := i + 1;
    }
    assert fs[i..] == [];
    assert current == done;
    assert v == JObj(fs);
    r := Some(JObj(current));
  }

  /** The walk over the indices of an array, whose names are never ignored. */
  method RemovePropsOfArray(ignored: seq<string>, v: Json) returns (r: Option<Json>)
    requires v.JArr? && NoIndexNames(ignored)
    ensures r == Strip(ignored, v)
    decreases v, 0
  {
    var items := v.items;
    var current := items;
    var i := 0;
    ghost var done: seq<Json> := [];
    while i < |items|
      invariant 0 <= i <= |items|
      invariant StripItems(ignored, items, i) == Some(done)
      invariant current == done + items[i..] && i == |done|
    {
      Advance(current, done, items, i, items[i]);
      StripItemsStep(ignored, items, i);
      if NatToString(i) in ignored {
        assert false;
      } else if !IsPrimitive(current[i]) || current[i].JNull? {
        var w := RemoveProps(ignored, items[i]);
        if w.None? {
          StripItemsPrefixFails(ignored, items, i + 1, |items|);
          return None;
        }
        Advance(current, done, items, i, w.value);
        current := current[i := w.value];
        done := done + [w.value];
      } else {
        done := done + [items[i]];
      }
      i := i + 1;
    }
    assert items[i..] == [];
    assert current == done;
    assert v == JArr(items);
    r := Some(JArr(current));
  }

  /** `schemas.forEach((schema) => removeProps(schema))`: the schemas are
      walked in order, and the first walk that throws ends the call. `None`
      among the schemas is `undefined`, on which `Object.keys` throws. */
  function StripAll(ignored: seq<string>, schemas: seq<Option<Json>>, n: nat): (r: Option<seq<Json>>)
    requires n <= |schemas|
    ensures r.Some? ==> |r.value| == n && forall i :: 0 <= i < n ==> schemas[i].Some?
  {
    if n == 0 then Some([])
    else
      match StripAll(ignored, schemas, n - 1)
      case None => None
      case Some(done) =>
        if schemas[n - 1].None? then None
        else
          match Strip(ignored, schemas[n - 1].value)
          case None => None
          case Some(w) => Some(done + [w])
  }

  method RemoveProperties(ignored: seq<string>, schemas: seq<Option<Json>>) returns (r: Option<seq<Json>>)
    requires NoIndexNames(ignored)
    ensures r == StripAll(ignored, schemas, |schemas|)
  {
    var cleaned: seq<Json> := [];
    var i := 0;
    while i < |schemas|
      invariant 0 <= i <= |schemas|
      invariant StripAll(ignored, schemas, i) == Some(cleaned)
    {
      if schemas[i].None? {
        StripAllPrefixFails(ignored, schemas, i + 1, |schemas|);
        return None;
      }
      var w := RemoveProps(ignored, schemas[i].value);
      if w.None? {
        StripAllPrefixFails(ignored, schemas, i + 1, |schemas|);
        return None;
      }
      cleaned := cleaned + [w.value];
      i := i + 1;
    }
    r := Some(cleaned);
  }

  lemma {:induction false} StripAllPrefixFails(ignored: seq<string>, schemas: seq<Option<Json>>, k: nat, n: nat)
    requires k <= n <= |schemas| && StripAll(ignored, schemas, k).None?
    ensures StripAll(ignored, schemas, n).None?
    decreases n
  {
    if k < n {
      StripAllPrefixFails(ignored, schemas, k, n - 1);
    }
  }

  /** The list walk succeeds exactly when every schema is defined and its own
      walk succeeds, and then it yields each schema's cleaned value. */
  lemma {:induction false} StripAllPointwise(ignored: seq<string>, schemas: seq<Option<Json>>, n: nat)
    requires n <= |schemas|
    ensures StripAll(ignored, schemas, n).Some? <==>
              forall k :: 0 <= k < n ==> schemas[k].Some? && Strip(ignored, schemas[k].value).Some?
    ensures StripAll(ignored, schemas, n).Some? ==>
              |StripAll(ignored, schemas, n).value| == n &&
              forall k :: 0 <= k < n ==>
                Some(StripAll(ignored, schemas, n).value[k]) == Strip(ignored, schemas[k].value)
  {
    if n > 0 {
      StripAllPointwise(ignored, schemas, n - 1);
    }
  }

  // Properties of the walk.

  /** Reaching `null` through keys that are not ignored: exactly what makes
      the walk throw. */
  ghost predicate NullReachable(ignored: seq<string>, v: Json) {
    match v
    case JNull => true
    case JObj(fs) => exists k :: 0 <= k < |fs| && fs[k].key !in ignored && NullReachable(ignored, fs[k].value)
    case JArr(items) => exists k :: 0 <= k < |items| && NullReachable(ignored, items[k])
    case _ => false
  }

  /** No ignored key at any depth. */
  ghost predicate Clean(ignored: seq<string>, v: Json) {
    match v
    case JObj(fs) => forall k :: 0 <= k < |fs| ==> fs[k].key !in ignored && Clean(ignored, fs[k].value)
    case JArr(items) => forall k :: 0 <= k < |items| ==> Clean(ignored, items[k])
    case _ => true
  }

  lemma {:induction false} StripFailsIff(ignored: seq<string>, v: Json)
    ensures Strip(ignored, v).None? <==> NullReachable(ignored, v)
    decreases v, 1
  {
    match v
    case JObj(fs) => StripFieldsFailsIff(ignored, fs, |fs|);
    case JArr(items) => StripItemsFailsIff(ignored, items, |items|);
    case _ =>
  }

  lemma {:induction false} StripFieldsFailsIff(ignored: seq<string>, fs: seq<Field>, n: nat)
    requires n <= |fs|
    ensures StripFields(ignored, fs, n).None? <==>
              exists k :: 0 <= k < n && fs[k].key !in ignored && NullReachable(ignored, fs[k].value)
    decreases fs, 0, n
  {
    if n > 0 {
      StripFieldsFailsIff(ignored, fs, n - 1);
      StripFailsIff(ignored, fs[n - 1].value);
    }
  }

  lemma {:induction false} StripItemsFailsIff(ignored: seq<string>, items: seq<Json>, n: nat)
    requires n <= |items|
    ensures StripItems(ignored, items, n).None? <==>
              exists k :: 0 <= k < n && NullReachable(ignored, items[k])
    decreases items, 0, n
  {
    if n > 0 {
      StripItemsFailsIff(ignored, items, n - 1);
      StripFailsIff(ignored, items[n - 1]);
    }
  }

  /** What the walk leaves holds no ignored key and no reachable `null`. */
  lemma {:induction false} StripResultClean(ignored: seq<string>, v: Json)
    requires Strip(ignored, v).Some?
    ensures Clean(ignored, Strip(ignored, v).value)
    ensures !NullReachable(ignored, Strip(ignored, v).value)
    decreases v, 1
  {
    match v
    case JObj(fs) => StripFieldsResultClean(ignored, fs, |fs|);
    case JArr(items) => StripItemsResultClean(ignored, items, |items|);
    case _ =>
  }

  lemma {:induction false} StripFieldsResultClean(ignored: seq<string>, fs: seq<Field>, n: nat)
    requires n <= |fs| && StripFields(ignored, fs, n).Some?
    ensures forall k :: 0 <= k < |StripFields(ignored, fs, n).value| ==>
              var g := StripFields(ignored, fs, n).value[k];
              g.key !in ignored && Clean(ignored, g.value) && !NullReachable(ignored, g.value)
    decreases fs, 0, n
  {
    if n > 0 {
      StripFieldsResultClean(ignored, fs, n - 1);
      if fs[n - 1].key !in ignored {
        StripResultClean(ignored, fs[n - 1].value);
      }
    }
  }

  lemma {:induction false} StripItemsResultClean(ignored: seq<string>, items: seq<Json>, n: nat)
    requires n <= |items| && StripItems(ignored, items, n).Some?
    ensures forall k :: 0 <= k < |StripItems(ignored, items, n).value| ==>
              var w := StripItems(ignored, items, n).value[k];
              Clean(ignored, w) && !NullReachable(ignored, w)
    decreases items, 0, n
  {
    if n > 0 {
      StripItemsResultClean(ignored, items, n - 1);
      StripResultClean(ignored, items[n - 1]);
    }
  }

  /** A value with no ignored key and no reachable `null` is left as it is. */
  lemma {:induction false} StripKeepsClean(ignored: seq<string>, v: Json)
    requires Clean(ignored, v) && !NullReachable(ignored, v)
    ensures Strip(ignored, v) == Some(v)
    decreases v, 1
  {
    match v
    case JObj(fs) => StripFieldsKeepsClean(ignored, fs, |fs|); assert fs[..|fs|] == fs;
    case JArr(items) => StripItemsKeepsClean(ignored, items, |items|); assert items[..|items|] == items;
    case _ =>
  }

  lemma {:induction false} StripFieldsKeepsClean(ignored: seq<string>, fs: seq<Field>, n: nat)
    requires n <= |fs|
    requires forall k :: 0 <= k < |fs| ==>
               fs[k].key !in ignored && Clean(ignored, fs[k].value) && !NullReachable(ignored, fs[k].value)
    ensures StripFields(ignored, fs, n) == Some(fs[..n])
    decreases fs, 0, n
  {
    if n > 0 {
      StripFieldsKeepsClean(ignored, fs, n - 1);
      StripKeepsClean(ignored, fs[n - 1].value);
      assert fs[..n] == fs[..n - 1] + [fs[n - 1]];
    }
  }

  lemma {:induction false} StripItemsKeepsClean(ignored: seq<string>, items: seq<Json>, n: nat)
    requires n <= |items|
    requires forall k :: 0 <= k < |items| ==> Clean(ignored, items[k]) && !NullReachable(ignored, items[k])
    ensures StripItems(ignored, items, n) == Some(items[..n])
    decreases items, 0, n
  {
    if n > 0 {
      StripItemsKeepsClean(ignored, items, n - 1);
      StripKeepsClean(ignored, items[n - 1]);
      assert items[..n] == items[..n - 1] + [items[n - 1]];
    }
  }

  /** Walking a cleaned value again changes nothing. */
  lemma StripIdempotent(ignored: seq<string>, v: Json)
    requires Strip(ignored, v).Some?
    ensures Strip(ignored, Strip(ignored, v).value) == Strip(ignored, v)
  {
    StripResultClean(ignored, v);
    StripKeepsClean(ignored, Strip(ignored, v).value);
  }

  predicate HasKey(fs: seq<Field>, key: string) {
    exists k :: 0 <= k < |fs| && fs[k].key == key
  }

  /** At the top of an object, the walk removes exactly the ignored keys. */
  lemma {:induction false} StripFieldsKeys(ignored: seq<string>, fs: seq<Field>, n: nat)
    requires n <= |fs| && StripFields(ignored, fs, n).Some?
    ensures forall key :: HasKey(StripFields(ignored, fs, n).value, key) <==>
              key !in ignored && exists k :: 0 <= k < n && fs[k].key == key
    decreases n
  {
    if n > 0 {
      StripFieldsKeys(ignored, fs, n - 1);
      var done := StripFields(ignored, fs, n - 1).value;
      if fs[n - 1].key !in ignored {
        var g := Field(fs[n - 1].key, Strip(ignored, fs[n - 1].value).value);
        forall key | HasKey(done + [g], key)
          ensures HasKey(done, key) || key == g.key
        {
          var k :| 0 <= k < |done + [g]| && (done + [g])[k].key == key;
          if k < |done| { assert done[k].key == key; }
        }
        forall key | HasKey(done, key) ensures HasKey(done + [g], key) {
          var k :| 0 <= k < |done| && done[k].key == key;
          assert (done + [g])[k].key == key;
        }
        assert (done + [g])[|done|].key == g.key;
      }
    }
  }

  /** The first member of `fs + [g]` named `key`. */
  lemma {:induction false} LookupAppend(fs: seq<Field>, g: Field, key: string)
    ensures Lookup(fs + [g], key) ==
              if Lookup(fs, key).Some? then Lookup(fs, key)
              else if g.key == key then Some(g.value) else None
  {
    if fs != [] {
      assert (fs + [g])[1..] == fs[1..] + [g];
      LookupAppend(fs[1..], g, key);
    }
  }

  /** Below a key that is not ignored, the walk leaves the stripped value of
      the member that key named. */
  lemma {:induction false} StripFieldsLookup(ignored: seq<string>, fs: seq<Field>, n: nat, key: string)
    requires n <= |fs| && StripFields(ignored, fs, n).Some? && key !in ignored
    ensures Lookup(StripFields(ignored, fs, n).value, key).Some? <==> Lookup(fs[..n], key).Some?
    ensures Lookup(fs[..n], key).Some? ==>
              Strip(ignored, Lookup(fs[..n], key).value) == Lookup(StripFields(ignored, fs, n).value, key)
    decreases n
  {
    if n > 0 {
      StripFieldsLookup(ignored, fs, n - 1, key);
      var done := StripFields(ignored, fs, n - 1).value;
      assert fs[..n] == fs[..n - 1] + [fs[n - 1]];
      LookupAppend(fs[..n - 1], fs[n - 1], key);
      if fs[n - 1].key !in ignored {
        LookupAppend(done, Field(fs[n - 1].key, Strip(ignored, fs[n - 1].value).value), key);
      }
    }
  }

  /** The walk keeps the keys of every object distinct. */
  lemma {:induction false} StripWellFormed(ignored: seq<string>, v: Json)
    requires WellFormed(v) && Strip(ignored, v).Some?
    ensures WellFormed(Strip(ignored, v).value)
    decreases v, 1
  {
    match v
    case JObj(fs) => StripFieldsWellFormed(ignored, fs, |fs|);
    case JArr(items) => StripItemsWellFormed(ignored, items, |items|);
    case _ =>
  }

  lemma {:induction false} StripFieldsWellFormed(ignored: seq<string>, fs: seq<Field>, n: nat)
    requires n <= |fs| && StripFields(ignored, fs, n).Some?
    requires DistinctKeys(fs) && forall k :: 0 <= k < |fs| ==> WellFormed(fs[k].value)
    ensures var gs := StripFields(ignored, fs, n).value;
            DistinctKeys(gs) && forall k :: 0 <= k < |gs| ==> WellFormed(gs[k].value)
    decreases fs, 0, n
  {
    if n > 0 {
      StripFieldsWellFormed(ignored, fs, n - 1);
      var done := StripFields(ignored, fs, n - 1).value;
      if fs[n - 1].key !in ignored {
        StripWellFormed(ignored, fs[n - 1].value);
        StripFieldsKeys(ignored, fs, n - 1);
        var gs := done + [Field(fs[n - 1].key, Strip(ignored, fs[n - 1].value).value)];
        forall i, j | 0 <= i < j < |gs| ensures gs[i].key != gs[j].key {
          if j == |done| {
            assert gs[i] == done[i] && HasKey(done, done[i].key);
          }
        }
      }
    }
  }

  lemma {:induction false} StripItemsWellFormed(ignored: seq<string>, items: seq<Json>, n: nat)
    requires n <= |items| && StripItems(ignored, items, n).Some?
    requires forall k :: 0 <= k < |items| ==> WellFormed(items[k])
    ensures forall k :: 0 <= k < |StripItems(ignored, items, n).value| ==> WellFormed(StripItems(ignored, items, n).value[k])
    decreases items, 0, n
  {
    if n > 0 {
      StripItemsWellFormed(ignored, items, n - 1);
      StripWellFormed(ignored, items[n - 1]);
    }
  }
}
