/** Structural equality of JSON values, as comparing the output of a stable
    stringifier decides it: the stringifier writes the members of every
    object sorted by key, so two values print alike exactly when they have
    the same shape, the same keys and the same leaves, whatever order their
    members were listed in. */
module Equality {
  import opened JsValues

  function KeySet(fs: seq<Field>): set<string> {
    set i | 0 <= i < |fs| :: fs[i].key
  }

  /** `stringify(a) === stringify(b)`. */
  predicate Equiv(a: Json, b: Json)
    decreases a
  {
    match a
    case JObj(fs) =>
      b.JObj? && KeySet(fs) == KeySet(b.fields) &&
      forall i, j :: 0 <= i < |fs| && 0 <= j < |b.fields| && fs[i].key == b.fields[j].key ==>
        Equiv(fs[i].value, b.fields[j].value)
    case JArr(items) =>
      b.JArr? && |items| == |b.items| &&
      forall i :: 0 <= i < |items| ==> Equiv(items[i], b.items[i])
    case _ => a == b
  }

  /** Every well-formed value prints like itself. */
  lemma {:induction false} EquivReflexive(a: Json)
    requires WellFormed(a)
    ensures Equiv(a, a)
    decreases a
  {
    match a
    case JObj(fs) =>
      forall i, j | 0 <= i < |fs| && 0 <= j < |fs| && fs[i].key == fs[j].key
        ensures Equiv(fs[i].value, fs[j].value)
      {
        assert i == j;
        EquivReflexive(fs[i].value);
      }
    case JArr(items) =>
      forall i | 0 <= i < |items| ensures Equiv(items[i], items[i]) {
        EquivReflexive(items[i]);
      }
    case _ =>
  }

  lemma {:induction false} EquivSymmetric(a: Json, b: Json)
    requires Equiv(a, b)
    ensures Equiv(b, a)
    decreases a
  {
    match a
    case JObj(fs) =>
      var gs := b.fields;
      forall j, i | 0 <= j < |gs| && 0 <= i < |fs| && gs[j].key == fs[i].key
        ensures Equiv(gs[j].value, fs[i].value)
      {
        EquivSymmetric(fs[i].value, gs[j].value);
      }
    case JArr(items) =>
      forall i | 0 <= i < |items| ensures Equiv(b.items[i], items[i]) {
        EquivSymmetric(items[i], b.items[i]);
      }
    case _ =>
  }
}
