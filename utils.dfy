/** The stand-alone helpers of lib/utils.js. Nothing in lib/index.js calls
    them; the lemmas below relate each one to the part of the checker that
    does the same job inline. (`removeProperties` is `Sanitiser.RemoveProperties`.) */
module Utils {
  import opened JsValues
  import opened Equality
  import opened Compat
  import CompatProperties

  /** `equals(schema1, schema2)` (lib/utils.js:12): the stable stringifier
      returns `undefined` for `undefined`, and `undefined === undefined`. */
  predicate Equals(schema1: Option<Json>, schema2: Option<Json>) {
    match (schema1, schema2)
    case (None, None) => true
    case (Some(a), Some(b)) => Equiv(a, b)
    case _ => false
  }

  lemma EqualsReflexive(schema: Option<Json>)
    requires schema.Some? ==> WellFormed(schema.value)
    ensures Equals(schema, schema)
  {
    if schema.Some? {
      EquivReflexive(schema.value);
    }
  }

  lemma EqualsSymmetric(schema1: Option<Json>, schema2: Option<Json>)
    requires Equals(schema1, schema2)
    ensures Equals(schema2, schema1)
  {
    if schema1.Some? {
      EquivSymmetric(schema1.value, schema2.value);
    }
  }

  /** The order in which the members of an object are listed does not
      matter: any reordering of them is equal to the original. */
  lemma EqualsIgnoresMemberOrder(fs: seq<Field>, gs: seq<Field>)
    requires WellFormed(JObj(fs)) && multiset(fs) == multiset(gs)
    ensures Equals(Some(JObj(fs)), Some(JObj(gs)))
  {
    forall k ensures k in KeySet(fs) <==> k in KeySet(gs) {
      if k in KeySet(fs) {
        var i :| 0 <= i < |fs| && fs[i].key == k;
        assert fs[i] in multiset(gs);
        var j :| 0 <= j < |gs| && gs[j] == fs[i];
      }
      if k in KeySet(gs) {
        var j :| 0 <= j < |gs| && gs[j].key == k;
        assert gs[j] in multiset(fs);
        var i :| 0 <= i < |fs| && fs[i] == gs[j];
      }
    }
    forall i, j | 0 <= i < |fs| && 0 <= j < |gs| && fs[i].key == gs[j].key
      ensures Equiv(fs[i].value, gs[j].value)
    {
      assert gs[j] in multiset(fs);
      var m :| 0 <= m < |fs| && fs[m] == gs[j];
      assert m == i;
      EquivReflexive(fs[i].value);
    }
  }

  /** The equality short-cut of `applyChecks` (lib/index.js:189) is `equals`. */
  lemma ShortcutIsEquals(o: Json, n: Json, ctx: Context, aliased: bool)
    requires aliased ==> o == n
    requires Get(o, "type").Some? && Get(o, "type") == Get(n, "type") && HasChecker(Get(o, "type"))
    requires Truthy(Get(o, "type")) && IsPrimitive(Get(o, "type").value)
    ensures Equals(Some(o), Some(n)) ==> ApplyChecks(Some(o), Some(n), ctx, aliased) == Violations([])
  {
    ObjectIsObject(o);
    ObjectIsObject(n);
  }

  /** The `type` of `schema` is exactly `type`. */
  predicate HasType(expected: string, schema: Option<Json>) {
    Read(schema, "type") == Ok(Some(JStr(expected)))
  }

  /** `verifySchemasType` is the guard each checker of lib/index.js applies
      inline (lib/index.js:48, 55): the string checker throws its misuse
      error exactly when not both schemas have type `string`, the object
      checker exactly when not both have type `object`. */
  lemma SchemasTypeIsCheckerGuard(o: Json, n: Json, ctx: Context)
    ensures StringChecker(o, n) == Throws(StringCheckerMisused) <==>
              !(HasType("string", Some(o)) && HasType("string", Some(n)))
    ensures ObjectChecker(o, n, ctx) == Throws(ObjectCheckerMisused) <==>
              !(HasType("object", Some(o)) && HasType("object", Some(n)))
  {
    if HasType("object", Some(o)) && HasType("object", Some(n)) {
      CompatProperties.ObjectCheckerShaped(o, n, ctx);
    }
  }

  /** The error `verifySchemasType` throws for `schema`. */
  function MismatchMessage(expected: string, schema: Option<Json>): string {
    match Read(schema, "type")
    case Err(f) => Message(f)
    case Ok(t) => expected + " type checker used for " + ToJsString(t) + " type"
  }

  /** `verifySchemasType(type, ...schemas)` (lib/utils.js:36-42): `None` when
      every schema has the type, otherwise the message of the `TypeError`
      thrown for the first one that does not. */
  method VerifySchemasType(expected: string, schemas: seq<Option<Json>>) returns (r: Option<string>)
    ensures r.None? <==> forall k :: 0 <= k < |schemas| ==> HasType(expected, schemas[k])
    ensures r.Some? ==> exists k :: 0 <= k < |schemas| && !HasType(expected, schemas[k]) &&
                          (forall m :: 0 <= m < k ==> HasType(expected, schemas[m])) &&
                          r.value == MismatchMessage(expected, schemas[k])
  {
    var i := 0;
    while i < |schemas|
      invariant 0 <= i <= |schemas|
      invariant forall m :: 0 <= m < i ==> HasType(expected, schemas[m])
    {
      var t := Read(schemas[i], "type");
      if t.Err? || t.value != Some(JStr(expected)) {
        return Some(MismatchMessage(expected, schemas[i]));
      }
      i := i + 1;
    }
    r := None;
  }

  /** The `context` of `createErrorFactory`. */
  datatype ErrorContext = ErrorContext(compType: string, path: string)

  datatype ErrorRecord = ErrorRecord(message: string, compatibilityType: string, path: string)

  /** `createErrorFactory(context)(reason)` (lib/utils.js:43-47). */
  function CreateError(context: ErrorContext, reason: string): (e: ErrorRecord)
    ensures e.compatibilityType == context.compType && e.path == context.path
  {
    ErrorRecord("Not " + context.compType + " compatible, " + context.path + " " + reason,
                context.compType, context.path)
  }

  /** The reason a per-property rule gives: the first rule of each direction
      is about `required` alone, the second about a property that is there on
      one side only. */
  function RuleReason(dir: Direction, oldRequired: bool, newRequired: bool): string {
    match dir
    case Forward => if !newRequired && oldRequired then "is not required anymore" else "required field removed"
    case Backward => if newRequired && !oldRequired then "is now required" else "required field added"
  }

  /** Every violation of the per-property rules of the object checker carries
      the message the factory builds from the direction's name, the
      property's path and the rule's reason. */
  lemma PropertyRuleMessages(dir: Direction, newPath: string, oldRequired: bool, newRequired: bool,
                             oldPresent: bool, newPresent: bool)
    requires PropertyRule(dir, newPath, oldRequired, newRequired, oldPresent, newPresent).Some?
    ensures var r := PropertyRule(dir, newPath, oldRequired, newRequired, oldPresent, newPresent).value;
            var e := CreateError(ErrorContext(Name(dir), newPath), RuleReason(dir, oldRequired, newRequired));
            r.list == [] || r.list == [Violation(e.message, dir, NewPathKey, e.path)]
  {
    FactoryMessage(Name(dir), newPath, RuleReason(dir, oldRequired, newRequired));
    PrefixLiterals();
    ReasonLiterals();
  }

  lemma PrefixLiterals()
    ensures "Not " + Name(Forward) + " compatible, " == "Not FORWARD compatible, "
    ensures "Not " + Name(Backward) + " compatible, " == "Not BACKWARD compatible, "
  {
  }

  lemma ReasonLiterals()
    ensures " " + "is not required anymore" == " is not required anymore"
    ensures " " + "required field removed" == " required field removed"
    ensures " " + "is now required" == " is now required"
    ensures " " + "required field added" == " required field added"
  {
  }

  lemma FactoryMessage(name: string, path: string, reason: string)
    ensures CreateError(ErrorContext(name, path), reason).message == ("Not " + name + " compatible, ") + path + (" " + reason)
  {
  }

  /** `keyAdded(oldObject, newObject, keyName)` (lib/utils.js:48): the value
      of `!oldObject[keyName] && newObject[keyName]`. The right operand is not
      evaluated when the left one is `false`. */
  function KeyAdded(oldObject: Option<Json>, newObject: Option<Json>, keyName: string): Result<Option<Json>> {
    match Read(oldObject, keyName)
    case Err(m) => Err(m)
    case Ok(oldValue) =>
      if Truthy(oldValue) then Ok(Some(JBool(false)))
      else Read(newObject, keyName)
  }

  /** `keyRemoved(oldObject, newObject, keyName)` (lib/utils.js:49): the value
      of `oldObject[keyName] && !newObject[keyName]`. */
  function KeyRemoved(oldObject: Option<Json>, newObject: Option<Json>, keyName: string): Result<Option<Json>> {
    match Read(oldObject, keyName)
    case Err(m) => Err(m)
    case Ok(oldValue) =>
      if !Truthy(oldValue) then Ok(oldValue)
      else
        match Read(newObject, keyName)
        case Err(m) => Err(m)
        case Ok(newValue) => Ok(Some(JBool(!Truthy(newValue))))
  }

  /** On two objects, `keyAdded` is truthy exactly when the old value is falsy
      and the new one truthy, `keyRemoved` exactly in the mirror case; these
      are the tests the object checker writes inline (lib/index.js:107,110). */
  lemma KeyTests(oldObject: Json, newObject: Json, keyName: string)
    requires !IsNullish(Some(oldObject)) && !IsNullish(Some(newObject))
    ensures KeyAdded(Some(oldObject), Some(newObject), keyName).Ok?
    ensures KeyRemoved(Some(oldObject), Some(newObject), keyName).Ok?
    ensures Truthy(KeyAdded(Some(oldObject), Some(newObject), keyName).value) <==>
              !Truthy(Get(oldObject, keyName)) && Truthy(Get(newObject, keyName))
    ensures Truthy(KeyRemoved(Some(oldObject), Some(newObject), keyName).value) <==>
              Truthy(Get(oldObject, keyName)) && !Truthy(Get(newObject, keyName))
  {
  }

  /** A key is never both added and removed. */
  lemma NeverAddedAndRemoved(oldObject: Option<Json>, newObject: Option<Json>, keyName: string)
    requires KeyAdded(oldObject, newObject, keyName).Ok? && KeyRemoved(oldObject, newObject, keyName).Ok?
    ensures !(Truthy(KeyAdded(oldObject, newObject, keyName).value) &&
              Truthy(KeyRemoved(oldObject, newObject, keyName).value))
  {
  }

  /** Both throw exactly when reading the key of the old object throws, or
      when that key is falsy (resp. truthy) and reading the new object's
      throws. */
  lemma KeyTestsThrow(oldObject: Option<Json>, newObject: Option<Json>, keyName: string)
    ensures KeyAdded(oldObject, newObject, keyName).Err? <==>
              IsNullish(oldObject) || (!Truthy(Get(oldObject.value, keyName)) && IsNullish(newObject))
    ensures KeyRemoved(oldObject, newObject, keyName).Err? <==>
              IsNullish(oldObject) || (Truthy(Get(oldObject.value, keyName)) && IsNullish(newObject))
  {
  }
}
