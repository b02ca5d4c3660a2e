/** What the checker of lib/index.js promises, proved about the model in
    module `Compat`. */
module CompatProperties {
  import opened JsValues
  import opened Equality
  import opened Sanitiser
  import opened Compat

  // The walker as a whole.

  /** At most one violation, in the direction being checked and located at or
      below the current path; and no internal error: what the walker throws
      is an unknown type, or a `TypeError` of the engine. */
  predicate Shaped(r: Outcome, ctx: Context) {
    (r.Violations? ==>
       |r.list| <= 1 &&
       forall k :: 0 <= k < |r.list| ==>
         r.list[k].compatibilityType == ctx.compatibilityType && ctx.path <= r.list[k].location) &&
    (r.Throws? ==> WalkerFailure(r.failure))
  }

  predicate WalkerFailure(f: Failure) {
    f.UnknownType? || f.ReadOfUndefined? || f.ReadOfNull? || f.KeysOfNullish? || f.IncludesNotAFunction?
  }

  lemma {:induction false} ApplyChecksShaped(o: Option<Json>, n: Option<Json>, ctx: Context, aliased: bool)
    requires aliased ==> o == n
    ensures Shaped(ApplyChecks(o, n, ctx, aliased), ctx)
    decreases SizeOpt(o) + SizeOpt(n), 2
  {
    if !IsNullish(o) && !IsNullish(n) {
      var ot, nt := Get(o.value, "type"), Get(n.value, "type");
      if (Truthy(ot) || Truthy(nt)) && StrictEquals(ot, nt, aliased) && HasChecker(ot)
         && !aliased && !Equiv(o.value, n.value) {
        if ToJsString(ot) != "string" {
          ObjectCheckerShaped(o.value, n.value, ctx);
        }
      }
    }
  }

  lemma {:induction false} ObjectCheckerShaped(o: Json, n: Json, ctx: Context)
    requires Get(o, "type") == Some(JStr("object")) && Get(n, "type") == Some(JStr("object"))
    ensures Shaped(ObjectChecker(o, n, ctx), ctx)
    decreases Size(o) + Size(n), 1
  {
    ObjectCheckerHead(o, n, ctx);
    ObjectIsObject(o);
    ObjectIsObject(n);
    var op, np := Get(o, "properties"), Get(n, "properties");
    if OwnKeys(op).Some? && OwnKeys(np).Some? {
      var ks := OwnKeys(op).value + OwnKeys(np).value;
      PropertyLoopShaped(o, n, op.value, np.value, Dedup(ks, |ks|), ctx);
    }
  }

  /** The object checker up to its loop: either it has returned something
      shaped, or it hands over to the loop over all property names. */
  lemma ObjectCheckerHead(o: Json, n: Json, ctx: Context)
    requires Get(o, "type") == Some(JStr("object")) && Get(n, "type") == Some(JStr("object"))
    ensures var whole, op, np := ObjectChecker(o, n, ctx), Get(o, "properties"), Get(n, "properties");
            Shaped(whole, ctx) ||
            (OwnKeys(op).Some? && OwnKeys(np).Some? &&
             whole == PropertyLoop(o, n, op.value, np.value,
                                   Dedup(OwnKeys(op).value + OwnKeys(np).value, |OwnKeys(op).value + OwnKeys(np).value|),
                                   ctx))
  {
    var whole := ObjectChecker(o, n, ctx);
    ObjectIsObject(o);
    ObjectIsObject(n);
    var op, np := Get(o, "properties"), Get(n, "properties");
    if (ctx.compatibilityType == Forward && Truthy(op) && !Truthy(np)) ||
       (ctx.compatibilityType == Backward && !Truthy(op) && Truthy(np)) {
      assert whole.Violations? && |whole.list| == 1 && whole.list[0].location == ctx.path;
    }
  }

  lemma {:induction false} PropertyLoopShaped(o: Json, n: Json, op: Json, np: Json, names: seq<string>, ctx: Context)
    ensures Shaped(PropertyLoop(o, n, op, np, names, ctx), ctx)
    decreases Size(op) + Size(np) + 1, 0, |names|
  {
    if names != [] {
      PropertyTurnShaped(o, n, op, np, names[0], ctx);
      PropertyLoopShaped(o, n, op, np, names[1..], ctx);
      LoopShapedStep(o, n, op, np, names, ctx);
    }
  }

  /** The loop is shaped when its first turn and the rest of it are. */
  lemma LoopShapedStep(o: Json, n: Json, op: Json, np: Json, names: seq<string>, ctx: Context)
    requires names != []
    requires PropertyTurn(o, n, op, np, names[0], ctx).Some? ==> Shaped(PropertyTurn(o, n, op, np, names[0], ctx).value, ctx)
    requires Shaped(PropertyLoop(o, n, op, np, names[1..], ctx), ctx)
    ensures Shaped(PropertyLoop(o, n, op, np, names, ctx), ctx)
  {
  }

  /** A turn is shaped when what it returns is shaped and lies at or below
      `<path>.<name>`. */
  predicate TurnShaped(turn: Option<Outcome>, ctx: Context, name: string) {
    turn.Some? ==> Shaped(turn.value, ctx) &&
                   (turn.value.Violations? ==>
                      forall k :: 0 <= k < |turn.value.list| ==> ctx.path + "." + name <= turn.value.list[k].location)
  }

  lemma {:induction false} PropertyTurnShaped(o: Json, n: Json, op: Json, np: Json, name: string, ctx: Context)
    ensures TurnShaped(PropertyTurn(o, n, op, np, name, ctx), ctx, name)
    decreases Size(op) + Size(np) + 1, 0, 0
  {
    if Recurses(o, n, op, np, name, ctx) {
      ApplyChecksShaped(Get(op, name), Get(np, name), Context(ctx.compatibilityType, ctx.path + "." + name), false);
      RecursingTurnShaped(o, n, op, np, name, ctx);
    } else {
      ShallowTurnShaped(o, n, op, np, name, ctx);
    }
  }

  /** The turn gets past both `required` lookups and the `switch`, and so
      recurses into the property's subschemas. */
  predicate Recurses(o: Json, n: Json, op: Json, np: Json, name: string, ctx: Context) {
    var oldRequired := Required(Get(o, "required"), "oldSubSchema", name);
    var newRequired := Required(Get(n, "required"), "newSubSchema", name);
    oldRequired.Ok? && newRequired.Ok? &&
    PropertyRule(ctx.compatibilityType, ctx.path + "." + name, oldRequired.value, newRequired.value,
                 Truthy(Get(op, name)), Truthy(Get(np, name))).None?
  }

  /** A turn that recurses into shaped subschema checks is shaped. */
  lemma RecursingTurnShaped(o: Json, n: Json, op: Json, np: Json, name: string, ctx: Context)
    requires Recurses(o, n, op, np, name, ctx)
    requires Shaped(ApplyChecks(Get(op, name), Get(np, name), Context(ctx.compatibilityType, ctx.path + "." + name), false),
                    Context(ctx.compatibilityType, ctx.path + "." + name))
    ensures TurnShaped(PropertyTurn(o, n, op, np, name, ctx), ctx, name)
  {
    var r := ApplyChecks(Get(op, name), Get(np, name), Context(ctx.compatibilityType, ctx.path + "." + name), false);
    NestedTurnShaped(r, ctx, name);
    TurnRecurses(o, n, op, np, name, ctx);
  }

  /** A turn that recurses is what the turn makes of the recursive check. */
  lemma TurnRecurses(o: Json, n: Json, op: Json, np: Json, name: string, ctx: Context)
    requires Recurses(o, n, op, np, name, ctx)
    ensures PropertyTurn(o, n, op, np, name, ctx) ==
            NestedTurn(ApplyChecks(Get(op, name), Get(np, name), Context(ctx.compatibilityType, ctx.path + "." + name), false))
  {
  }

  /** A turn that stops at a `required` lookup or at the `switch` returns,
      and what it returns is shaped. */
  lemma ShallowTurnShaped(o: Json, n: Json, op: Json, np: Json, name: string, ctx: Context)
    requires !Recurses(o, n, op, np, name, ctx)
    ensures PropertyTurn(o, n, op, np, name, ctx).Some?
    ensures TurnShaped(PropertyTurn(o, n, op, np, name, ctx), ctx, name)
  {
    var turn := PropertyTurn(o, n, op, np, name, ctx);
    var oldRequired := Required(Get(o, "required"), "oldSubSchema", name);
    var newRequired := Required(Get(n, "required"), "newSubSchema", name);
    if oldRequired.Err? {
      RequiredFailure(Get(o, "required"), "oldSubSchema", name);
      assert turn == Some(Throws(oldRequired.failure));
    } else if newRequired.Err? {
      RequiredFailure(Get(n, "required"), "newSubSchema", name);
      assert turn == Some(Throws(newRequired.failure));
    } else {
      RuleShaped(ctx, name, oldRequired.value, newRequired.value, Truthy(Get(op, name)), Truthy(Get(np, name)));
    }
  }

  /** A recursive check shaped one level down makes a shaped turn. */
  lemma NestedTurnShaped(r: Outcome, ctx: Context, name: string)
    requires Shaped(r, Context(ctx.compatibilityType, ctx.path + "." + name))
    ensures TurnShaped(NestedTurn(r), ctx, name)
  {
    NestedShaped(r, ctx, name);
  }

  lemma RequiredFailure(required: Option<Json>, owner: string, name: string)
    requires Required(required, owner, name).Err?
    ensures Required(required, owner, name).failure.IncludesNotAFunction?
  {
  }

  /** What is shaped one level below the path is shaped at the path. */
  lemma NestedShaped(r: Outcome, ctx: Context, name: string)
    requires Shaped(r, Context(ctx.compatibilityType, ctx.path + "." + name))
    ensures Shaped(r, ctx)
  {
    if r.Violations? {
      forall k | 0 <= k < |r.list|
        ensures ctx.path <= r.list[k].location
      {
        assert ctx.path <= ctx.path + "." + name;
      }
    }
  }

  /** The violations of the per-property rules lie one level below the path. */
  lemma RuleShaped(ctx: Context, name: string, oldRequired: bool, newRequired: bool, oldPresent: bool, newPresent: bool)
    ensures var r := PropertyRule(ctx.compatibilityType, ctx.path + "." + name, oldRequired, newRequired, oldPresent, newPresent);
            r.Some? ==> Shaped(r.value, ctx) &&
                        forall k :: 0 <= k < |r.value.list| ==> r.value.list[k].location == ctx.path + "." + name
  {
  }

  /** What `check` returns is shaped the same way, at the root path `$`. */
  lemma CheckShaped(oldSchema: Option<Json>, newSchema: Option<Json>, compatibilityType: Option<Json>, aliased: bool)
    requires aliased ==> oldSchema == newSchema
    ensures var r := CheckSpec(oldSchema, newSchema, compatibilityType, aliased);
            (r.Violations? ==> |r.list| <= 1 && forall k :: 0 <= k < |r.list| ==> "$" <= r.list[k].location) &&
            (r.Throws? ==> WalkerFailure(r.failure) || r.failure.InvalidParameter? || r.failure.InvalidCompatibilityType?)
    decreases if WithDefault(compatibilityType) == Some(JNum(FULL)) then 1 else 0
  {
    var ct := WithDefault(compatibilityType);
    if ValidateParams(oldSchema, newSchema, ct).None? {
      if ct == Some(JNum(FULL)) {
        CheckShaped(oldSchema, newSchema, Some(JNum(BACKWARD)), aliased);
        CheckShaped(Some(Cleaned(oldSchema.value)), Some(Cleaned(newSchema.value)), Some(JNum(FORWARD)), aliased);
      } else {
        var dir := if ct == Some(JNum(BACKWARD)) then Backward else Forward;
        ApplyChecksShaped(Some(Cleaned(oldSchema.value)), Some(Cleaned(newSchema.value)), Context(dir, "$"), aliased);
      }
    }
  }

  // The entry point.

  /** The keys `check` deletes are neither `type` nor `constructor`. */
  lemma IgnoredKeys()
    ensures "type" !in IGNORED_PROPERTIES && "constructor" !in IGNORED_PROPERTIES
    ensures "properties" !in IGNORED_PROPERTIES && "required" !in IGNORED_PROPERTIES
  {
  }

  /** Cleaning keeps a plain object plain, its keys distinct and the value of
      every key it does not delete, stripped in turn. */
  lemma CleanedKeeps(schema: Json, key: string)
    requires Strip(IGNORED_PROPERTIES, schema).Some? && schema.JObj? && key !in IGNORED_PROPERTIES
    ensures Cleaned(schema).JObj?
    ensures Get(Cleaned(schema), key).Some? <==> Get(schema, key).Some?
    ensures Get(schema, key).Some? ==> Strip(IGNORED_PROPERTIES, Get(schema, key).value) == Get(Cleaned(schema), key)
  {
    var fs := schema.fields;
    StripFieldsLookup(IGNORED_PROPERTIES, fs, |fs|, key);
    assert fs[..|fs|] == fs;
  }

  lemma CleanedPlain(schema: Option<Json>)
    requires IsPlainObject(schema) && Strip(IGNORED_PROPERTIES, schema.value).Some?
    ensures IsPlainObject(Some(Cleaned(schema.value)))
    ensures Strip(IGNORED_PROPERTIES, Cleaned(schema.value)).Some?
    ensures Cleaned(Cleaned(schema.value)) == Cleaned(schema.value)
  {
    IgnoredKeys();
    CleanedKeeps(schema.value, "constructor");
    StripIdempotent(IGNORED_PROPERTIES, schema.value);
  }

  /** FULL runs BACKWARD, and then FORWARD whenever BACKWARD returned an
      array, empty or not: what BACKWARD found is then dropped, and FULL is
      not the conjunction of the two. */
  lemma FullIsBackwardThenForward(oldSchema: Option<Json>, newSchema: Option<Json>, aliased: bool)
    requires aliased ==> oldSchema == newSchema
    ensures var backward := CheckSpec(oldSchema, newSchema, Some(JNum(BACKWARD)), aliased);
            CheckSpec(oldSchema, newSchema, Some(JNum(FULL)), aliased) ==
              if backward.Violations? then CheckSpec(oldSchema, newSchema, Some(JNum(FORWARD)), aliased)
              else backward
  {
    var backward := CheckSpec(oldSchema, newSchema, Some(JNum(BACKWARD)), aliased);
    if ValidateParams(oldSchema, newSchema, Some(JNum(FULL))).None? && backward.Violations? {
      CleanedPlain(oldSchema);
      CleanedPlain(newSchema);
    }
  }

  /** The keys `check` deletes never affect its verdict: two old schemas
      that differ only in `description` and `$comment` members, at any depth,
      get the same result against two new schemas that differ only so. */
  lemma IgnoredKeysNeverMatter(old1: Json, old2: Json, new1: Json, new2: Json, compatibilityType: Option<Json>)
    requires Strip(IGNORED_PROPERTIES, old1).Some? && Strip(IGNORED_PROPERTIES, old1) == Strip(IGNORED_PROPERTIES, old2)
    requires Strip(IGNORED_PROPERTIES, new1).Some? && Strip(IGNORED_PROPERTIES, new1) == Strip(IGNORED_PROPERTIES, new2)
    ensures CheckSpec(Some(old1), Some(new1), compatibilityType, false) ==
            CheckSpec(Some(old2), Some(new2), compatibilityType, false)
    decreases if WithDefault(compatibilityType) == Some(JNum(FULL)) then 1 else 0
  {
    SameCleaning(old1, old2);
    SameCleaning(new1, new2);
    var ct := WithDefault(compatibilityType);
    assert ValidateParams(Some(old1), Some(new1), ct) == ValidateParams(Some(old2), Some(new2), ct);
    if ct == Some(JNum(FULL)) {
      FullIsBackwardThenForward(Some(old1), Some(new1), false);
      FullIsBackwardThenForward(Some(old2), Some(new2), false);
      IgnoredKeysNeverMatter(old1, old2, new1, new2, Some(JNum(BACKWARD)));
      IgnoredKeysNeverMatter(old1, old2, new1, new2, Some(JNum(FORWARD)));
    }
  }

  /** Two schemas that clean alike are cleaned to the same value and are
      both plain objects or neither. */
  lemma SameCleaning(v1: Json, v2: Json)
    requires Strip(IGNORED_PROPERTIES, v1).Some? && Strip(IGNORED_PROPERTIES, v1) == Strip(IGNORED_PROPERTIES, v2)
    ensures Cleaned(v1) == Cleaned(v2)
    ensures IsPlainObject(Some(v1)) <==> IsPlainObject(Some(v2))
  {
    IgnoredKeys();
    if v1.JObj? && v2.JObj? {
      CleanedKeeps(v1, "constructor");
      CleanedKeeps(v2, "constructor");
      assert Get(v1, "constructor") == Lookup(v1.fields, "constructor");
      assert Get(v2, "constructor") == Lookup(v2.fields, "constructor");
    }
  }

  /** A null anywhere below keys that are not deleted makes the cleaning, and
      so `check`, throw. */
  lemma NullMakesCheckThrow(oldSchema: Option<Json>, newSchema: Option<Json>, compatibilityType: Option<Json>, aliased: bool)
    requires aliased ==> oldSchema == newSchema
    requires ValidateParams(oldSchema, newSchema, WithDefault(compatibilityType)).None?
    requires NullReachable(IGNORED_PROPERTIES, oldSchema.value) || NullReachable(IGNORED_PROPERTIES, newSchema.value)
    ensures CheckSpec(oldSchema, newSchema, compatibilityType, aliased) == Throws(KeysOfNullish)
  {
    StripFailsIff(IGNORED_PROPERTIES, oldSchema.value);
    StripFailsIff(IGNORED_PROPERTIES, newSchema.value);
  }

  /** A schema is compatible with itself, or with a copy of itself, in every
      direction, when its root `type` is `string` or `object`: the cleaned
      copies print alike. */
  lemma SameSchemaCompatible(schema: Json, compatibilityType: Option<Json>, aliased: bool)
    requires IsPlainObject(Some(schema)) && WellFormed(schema) && !NullReachable(IGNORED_PROPERTIES, schema)
    requires Get(schema, "type") == Some(JStr("string")) || Get(schema, "type") == Some(JStr("object"))
    requires WithDefault(compatibilityType) in {Some(JNum(BACKWARD)), Some(JNum(FORWARD)), Some(JNum(FULL))}
    ensures CheckSpec(Some(schema), Some(schema), compatibilityType, aliased) == Violations([])
    decreases if WithDefault(compatibilityType) == Some(JNum(FULL)) then 1 else 0
  {
    StripFailsIff(IGNORED_PROPERTIES, schema);
    var cleaned := Cleaned(schema);
    if WithDefault(compatibilityType) == Some(JNum(FULL)) {
      SameSchemaCompatible(schema, Some(JNum(BACKWARD)), aliased);
      CleanedPlain(Some(schema));
      StripResultClean(IGNORED_PROPERTIES, schema);
      StripWellFormed(IGNORED_PROPERTIES, schema);
      IgnoredKeys();
      CleanedKeeps(schema, "type");
      SameSchemaCompatible(cleaned, Some(JNum(FORWARD)), aliased);
    } else {
      IgnoredKeys();
      CleanedKeeps(schema, "type");
      StripWellFormed(IGNORED_PROPERTIES, schema);
      EquivReflexive(cleaned);
    }
  }

  // The walker.

  /** The `type` rules of `applyChecks`: no type on either side means no
      violation; a type that is not strictly the same (one side without a type
      included) means exactly one violation, at the current path, and no
      descent; the same type with no checker throws, whatever the rest of the
      two subschemas. */
  lemma TypeRules(o: Json, n: Json, ctx: Context, aliased: bool)
    requires aliased ==> o == n
    requires !IsNullish(Some(o)) && !IsNullish(Some(n))
    ensures var ot, nt, r := Get(o, "type"), Get(n, "type"), ApplyChecks(Some(o), Some(n), ctx, aliased);
            (!Truthy(ot) && !Truthy(nt) ==> r == Violations([])) &&
            ((Truthy(ot) || Truthy(nt)) && !StrictEquals(ot, nt, aliased) ==>
               r.Violations? && |r.list| == 1 && r.list[0].location == ctx.path &&
               r.list[0].locationKey == PathKey && r.list[0].compatibilityType == ctx.compatibilityType) &&
            (Truthy(ot) && StrictEquals(ot, nt, aliased) && !HasChecker(ot) ==> r == Throws(UnknownType(ToJsString(ot))))
  {
  }

  /** The string type has no rules: two `string`-typed subschemas are
      compatible whatever else they declare. */
  lemma StringsHaveNoRules(o: Json, n: Json, ctx: Context)
    requires Get(o, "type") == Some(JStr("string")) && Get(n, "type") == Some(JStr("string"))
    ensures ApplyChecks(Some(o), Some(n), ctx, false) == Violations([])
  {
    ObjectIsObject(o);
    ObjectIsObject(n);
  }

  /** Two copies of one schema whose type is `number`, `integer`, `boolean`,
      `null` or `array` make `applyChecks` throw: the type lookup comes before
      the equality short-cut. */
  lemma IdenticalUnknownTypeThrows(schema: Json, typeName: string, ctx: Context, aliased: bool)
    requires typeName in ["number", "integer", "boolean", "null", "array"]
    requires Get(schema, "type") == Some(JStr(typeName))
    ensures ApplyChecks(Some(schema), Some(schema), ctx, aliased) == Throws(UnknownType(typeName))
  {
    ObjectIsObject(schema);
  }

  /** A `type` given as an array is an object to `!==`: two copies of one
      schema with an array `type` are reported as a type change, though
      nothing changed; the same object is not. */
  lemma ArrayTypeCopiesDiffer(schema: Json, ctx: Context)
    requires Get(schema, "type").Some? && Get(schema, "type").value.JArr?
    ensures var r := ApplyChecks(Some(schema), Some(schema), ctx, false);
            r.Violations? && |r.list| == 1 && r.list[0].location == ctx.path
  {
    ObjectIsObject(schema);
  }

  /** Equal members at equal keys: what two objects that print alike share. */
  lemma EquivGet(a: Json, b: Json, key: string)
    requires a.JObj? && Equiv(a, b)
    ensures Get(a, key).Some? <==> Get(b, key).Some?
    ensures Get(a, key).Some? ==> Equiv(Get(a, key).value, Get(b, key).value)
  {
    assert Get(a, key) == Lookup(a.fields, key) && Get(b, key) == Lookup(b.fields, key);
    EquivLookup(a.fields, b.fields, key);
  }

  lemma EquivLookup(fs: seq<Field>, gs: seq<Field>, key: string)
    requires Equiv(JObj(fs), JObj(gs))
    ensures Lookup(fs, key).Some? <==> Lookup(gs, key).Some?
    ensures Lookup(fs, key).Some? ==> Equiv(Lookup(fs, key).value, Lookup(gs, key).value)
  {
    LookupKeySet(fs, key);
    LookupKeySet(gs, key);
    if Lookup(fs, key).Some? {
      var i :| 0 <= i < |fs| && fs[i].key == key && fs[i].value == Lookup(fs, key).value;
      var j :| 0 <= j < |gs| && gs[j].key == key && gs[j].value == Lookup(gs, key).value;
    }
  }

  lemma LookupKeySet(fs: seq<Field>, key: string)
    ensures Lookup(fs, key).Some? <==> key in KeySet(fs)
  {
    if key in KeySet(fs) {
      var i :| 0 <= i < |fs| && fs[i].key == key;
    }
  }

  /** Two `string` or `object` subschemas that print alike (members in any
      order) give no violation, without a look at their contents. */
  lemma EquivSubschemasCompatible(o: Json, n: Json, ctx: Context, aliased: bool)
    requires aliased ==> o == n
    requires Get(o, "type") == Some(JStr("string")) || Get(o, "type") == Some(JStr("object"))
    requires Equiv(o, n)
    ensures ApplyChecks(Some(o), Some(n), ctx, aliased) == Violations([])
  {
    ObjectIsObject(o);
    EquivGet(o, n, "type");
  }

  // The object checker.

  /** The `properties` rules (lib/index.js:60-88): under FORWARD, `properties`
      dropped; under BACKWARD, `properties` introduced; each is one violation at
      the path. Neither side with `properties` is no violation; otherwise a
      side whose `properties` is `undefined` or `null` makes `Object.keys`
      throw. */
  lemma PropertiesRules(o: Json, n: Json, ctx: Context)
    requires Get(o, "type") == Some(JStr("object")) && Get(n, "type") == Some(JStr("object"))
    ensures var op, np, r := Get(o, "properties"), Get(n, "properties"), ObjectChecker(o, n, ctx);
            var dropped := ctx.compatibilityType == Forward && Truthy(op) && !Truthy(np);
            var introduced := ctx.compatibilityType == Backward && !Truthy(op) && Truthy(np);
            ((dropped || introduced) ==>
               r.Violations? && |r.list| == 1 && r.list[0].location == ctx.path && r.list[0].locationKey == PathKey) &&
            (!Truthy(op) && !Truthy(np) ==> r == Violations([])) &&
            (!dropped && !introduced && (Truthy(op) || Truthy(np)) && (IsNullish(op) || IsNullish(np)) ==>
               r == Throws(KeysOfNullish))
  {
    ObjectIsObject(o);
    ObjectIsObject(n);
  }

  /** The decision table of the per-property rules (lib/index.js:97-149).
      FORWARD reports a name required before and not now, whether or not the
      property is there, and a removed property only if the new `required`
      still lists it; an added property ends the check with no violation.
      BACKWARD is the mirror image. */
  lemma PropertyRuleTable(dir: Direction, newPath: string, oldRequired: bool, newRequired: bool,
                          oldPresent: bool, newPresent: bool)
    ensures var r := PropertyRule(dir, newPath, oldRequired, newRequired, oldPresent, newPresent);
            var reported := match dir
              case Forward => oldRequired && (!newRequired || (oldPresent && !newPresent))
              case Backward => newRequired && (!oldRequired || (!oldPresent && newPresent));
            (reported <==> r.Some? && |r.value.list| == 1) &&
            (r == Some(Violations([])) <==> !reported && oldPresent != newPresent) &&
            (r.Some? && |r.value.list| == 1 ==>
               r.value.list[0].location == newPath && r.value.list[0].locationKey == NewPathKey &&
               r.value.list[0].compatibilityType == dir)
  {
  }

  // The loop over the property names.

  predicate Distinct(names: seq<string>) {
    forall i, j :: 0 <= i < j < |names| ==> names[i] != names[j]
  }

  lemma {:induction false} DedupMembers(names: seq<string>, n: nat)
    requires n <= |names|
    ensures forall x :: x in Dedup(names, n) <==> x in names[..n]
  {
    if n > 0 {
      DedupMembers(names, n - 1);
      assert names[..n] == names[..n - 1] + [names[n - 1]];
    }
  }

  lemma {:induction false} DedupDistinct(names: seq<string>, n: nat)
    requires n <= |names|
    ensures Distinct(Dedup(names, n))
  {
    if n > 0 {
      DedupDistinct(names, n - 1);
      DedupMembers(names, n - 1);
    }
  }

  lemma {:induction false} DedupExtends(names: seq<string>, m: nat, n: nat)
    requires m <= n <= |names|
    ensures Dedup(names, m) <= Dedup(names, n)
  {
    if m < n {
      DedupExtends(names, m, n - 1);
    }
  }

  lemma {:induction false} DedupOfDistinct(names: seq<string>, n: nat)
    requires n <= |names| && Distinct(names[..n])
    ensures Dedup(names, n) == names[..n]
  {
    if n > 0 {
      assert names[..n - 1] == names[..n][..n - 1];
      DedupOfDistinct(names, n - 1);
      assert names[n - 1] !in names[..n - 1] by {
        forall i | 0 <= i < n - 1 ensures names[i] != names[n - 1] {
          assert names[..n][i] == names[i] && names[..n][n - 1] == names[n - 1];
        }
      }
      assert names[..n] == names[..n - 1] + [names[n - 1]];
    }
  }

  /** The names the object checker visits (lib/index.js:86-88): the old
      schema's property names in their order, then the new schema's names that
      the old one does not have, each once. */
  lemma AllParamsOrder(oldKeys: seq<string>, newKeys: seq<string>)
    requires Distinct(oldKeys)
    ensures var all := Dedup(oldKeys + newKeys, |oldKeys + newKeys|);
            oldKeys <= all && Distinct(all) &&
            forall x :: x in all <==> x in oldKeys || x in newKeys
  {
    var ks := oldKeys + newKeys;
    assert ks[..|oldKeys|] == oldKeys;
    DedupOfDistinct(ks, |oldKeys|);
    DedupExtends(ks, |oldKeys|, |ks|);
    DedupDistinct(ks, |ks|);
    DedupMembers(ks, |ks|);
    assert ks[..|ks|] == ks;
  }

  /** A property that lets the loop go on: both `required` lookups succeed,
      no per-property rule applies and the recursive check finds nothing. */
  lemma PassesIff(o: Json, n: Json, op: Json, np: Json, name: string, ctx: Context)
    ensures var oldRequired := Required(Get(o, "required"), "oldSubSchema", name);
            var newRequired := Required(Get(n, "required"), "newSubSchema", name);
            var newPath := ctx.path + "." + name;
            PropertyTurn(o, n, op, np, name, ctx).None? <==>
              oldRequired.Ok? && newRequired.Ok? &&
              PropertyRule(ctx.compatibilityType, newPath, oldRequired.value, newRequired.value,
                           Truthy(Get(op, name)), Truthy(Get(np, name))).None? &&
              ApplyChecks(Get(op, name), Get(np, name), Context(ctx.compatibilityType, newPath), false) == Violations([])
  {
    if Recurses(o, n, op, np, name, ctx) {
      TurnRecurses(o, n, op, np, name, ctx);
    } else {
      ShallowTurnShaped(o, n, op, np, name, ctx);
    }
  }

  predicate Passes(o: Json, n: Json, op: Json, np: Json, name: string, ctx: Context) {
    PropertyTurn(o, n, op, np, name, ctx).None?
  }

  /** The loop returns `undefined`, the value of a function that runs off its
      end, exactly when every property passes. */
  lemma {:induction false} PropertyLoopUndefined(o: Json, n: Json, op: Json, np: Json, names: seq<string>, ctx: Context)
    ensures PropertyLoop(o, n, op, np, names, ctx) == Undefined <==>
              forall k :: 0 <= k < |names| ==> Passes(o, n, op, np, names[k], ctx)
    decreases |names|
  {
    if names != [] {
      PropertyLoopUndefined(o, n, op, np, names[1..], ctx);
      LoopUndefinedStep(o, n, op, np, names, ctx);
      AllPassSplit(o, n, op, np, names, ctx);
    }
  }

  /** The loop runs to its end exactly when its first name passes and the
      rest of the loop runs to its end. */
  lemma LoopUndefinedStep(o: Json, n: Json, op: Json, np: Json, names: seq<string>, ctx: Context)
    requires names != []
    ensures PropertyLoop(o, n, op, np, names, ctx) == Undefined <==>
              Passes(o, n, op, np, names[0], ctx) && PropertyLoop(o, n, op, np, names[1..], ctx) == Undefined
  {
    if Passes(o, n, op, np, names[0], ctx) {
      LoopGoesOn(o, n, op, np, names, ctx);
    } else {
      LoopStops(o, n, op, np, names, ctx);
    }
  }

  /** Every name passes exactly when the first one and all the rest do. */
  lemma AllPassSplit(o: Json, n: Json, op: Json, np: Json, names: seq<string>, ctx: Context)
    requires names != []
    ensures (forall k :: 0 <= k < |names| ==> Passes(o, n, op, np, names[k], ctx)) <==>
            Passes(o, n, op, np, names[0], ctx) &&
            forall k :: 0 <= k < |names[1..]| ==> Passes(o, n, op, np, names[1..][k], ctx)
  {
    var rest := names[1..];
    assert forall k :: 0 <= k < |rest| ==> rest[k] == names[k + 1];
    assert forall k :: 0 < k < |names| ==> names[k] == rest[k - 1];
  }

  /** The first property that does not pass decides the result alone: the
      names after it are never looked at. */
  lemma {:induction false} FirstFailureDecides(o: Json, n: Json, op: Json, np: Json, names: seq<string>, k: nat, ctx: Context)
    requires k < |names| && !Passes(o, n, op, np, names[k], ctx)
    requires forall m :: 0 <= m < k ==> Passes(o, n, op, np, names[m], ctx)
    ensures PropertyLoop(o, n, op, np, names, ctx) == PropertyTurn(o, n, op, np, names[k], ctx).value
    decreases k
  {
    if k > 0 {
      LoopGoesOn(o, n, op, np, names, ctx);
      PassingPrefixShifts(o, n, op, np, names, k, ctx);
      FirstFailureDecides(o, n, op, np, names[1..], k - 1, ctx);
    }
  }

  /** Dropping the first name keeps the rest of a passing prefix passing. */
  lemma PassingPrefixShifts(o: Json, n: Json, op: Json, np: Json, names: seq<string>, k: nat, ctx: Context)
    requires 0 < k <= |names|
    requires forall m :: 0 <= m < k ==> Passes(o, n, op, np, names[m], ctx)
    ensures forall m :: 0 <= m < k - 1 ==> Passes(o, n, op, np, names[1..][m], ctx)
  {
    forall m | 0 <= m < k - 1 ensures Passes(o, n, op, np, names[1..][m], ctx) {
      assert names[1..][m] == names[m + 1];
    }
  }

  /** A name that does not pass ends the loop with what its turn returns. */
  lemma LoopStops(o: Json, n: Json, op: Json, np: Json, names: seq<string>, ctx: Context)
    requires names != [] && !Passes(o, n, op, np, names[0], ctx)
    ensures PropertyLoop(o, n, op, np, names, ctx) == PropertyTurn(o, n, op, np, names[0], ctx).value
  {
  }

  /** A name that passes hands over to the rest of the list. */
  lemma LoopGoesOn(o: Json, n: Json, op: Json, np: Json, names: seq<string>, ctx: Context)
    requires names != [] && Passes(o, n, op, np, names[0], ctx)
    ensures PropertyLoop(o, n, op, np, names, ctx) == PropertyLoop(o, n, op, np, names[1..], ctx)
  {
  }

  /** A nested object whose own loop runs to its end yields `undefined`, and
      reading `length` of that throws (lib/index.js:155). */
  lemma NestedUndefinedThrows(o: Json, n: Json, op: Json, np: Json, name: string, ctx: Context)
    requires var oldRequired := Required(Get(o, "required"), "oldSubSchema", name);
             var newRequired := Required(Get(n, "required"), "newSubSchema", name);
             oldRequired.Ok? && newRequired.Ok? &&
             PropertyRule(ctx.compatibilityType, ctx.path + "." + name, oldRequired.value, newRequired.value,
                          Truthy(Get(op, name)), Truthy(Get(np, name))).None? &&
             ApplyChecks(Get(op, name), Get(np, name), Context(ctx.compatibilityType, ctx.path + "." + name), false)
               == Undefined
    ensures PropertyTurn(o, n, op, np, name, ctx) == Some(Throws(ReadOfUndefined("length")))
  {
  }

  // The arguments.

  /** `check` rejects a schema that is missing or not a plain object, and a
      compatibility type other than 1, 2 or 3; an omitted type is FORWARD. */
  lemma ArgumentChecks(oldSchema: Option<Json>, newSchema: Option<Json>, compatibilityType: Option<Json>, aliased: bool)
    requires aliased ==> oldSchema == newSchema
    ensures !IsPlainObject(oldSchema) ==>
              CheckSpec(oldSchema, newSchema, compatibilityType, aliased) == Throws(InvalidParameter("oldSchema"))
    ensures IsPlainObject(oldSchema) && !IsPlainObject(newSchema) ==>
              CheckSpec(oldSchema, newSchema, compatibilityType, aliased) == Throws(InvalidParameter("newSchema"))
    ensures IsPlainObject(oldSchema) && IsPlainObject(newSchema) ==>
              (CheckSpec(oldSchema, newSchema, compatibilityType, aliased) == Throws(InvalidCompatibilityType) <==>
               WithDefault(compatibilityType) !in {Some(JNum(BACKWARD)), Some(JNum(FORWARD)), Some(JNum(FULL))})
    ensures CheckSpec(oldSchema, newSchema, None, aliased) == CheckSpec(oldSchema, newSchema, Some(JNum(FORWARD)), aliased)
  {
    var ct := WithDefault(compatibilityType);
    if IsPlainObject(oldSchema) && IsPlainObject(newSchema) && ct in {Some(JNum(BACKWARD)), Some(JNum(FORWARD)), Some(JNum(FULL))} {
      CheckNeverInvalidType(oldSchema, newSchema, compatibilityType, aliased);
    }
  }

  /** Once the arguments are accepted, no later step throws the argument
      errors. */
  lemma CheckNeverInvalidType(oldSchema: Option<Json>, newSchema: Option<Json>, compatibilityType: Option<Json>, aliased: bool)
    requires aliased ==> oldSchema == newSchema
    requires ValidateParams(oldSchema, newSchema, WithDefault(compatibilityType)).None?
    ensures var r := CheckSpec(oldSchema, newSchema, compatibilityType, aliased);
            r.Throws? ==> WalkerFailure(r.failure)
    decreases if WithDefault(compatibilityType) == Some(JNum(FULL)) then 1 else 0
  {
    if WithDefault(compatibilityType) == Some(JNum(FULL)) {
      CheckNeverInvalidType(oldSchema, newSchema, Some(JNum(BACKWARD)), aliased);
      var backward := CheckSpec(oldSchema, newSchema, Some(JNum(BACKWARD)), aliased);
      if backward.Violations? {
        CleanedPlain(oldSchema);
        CleanedPlain(newSchema);
        CheckNeverInvalidType(Some(Cleaned(oldSchema.value)), Some(Cleaned(newSchema.value)), Some(JNum(FORWARD)), aliased);
      }
    } else {
      var dir := if WithDefault(compatibilityType) == Some(JNum(BACKWARD)) then Backward else Forward;
      if Strip(IGNORED_PROPERTIES, oldSchema.value).Some? && Strip(IGNORED_PROPERTIES, newSchema.value).Some? {
        ApplyChecksShaped(Some(Cleaned(oldSchema.value)), Some(Cleaned(newSchema.value)), Context(dir, "$"), aliased);
      }
    }
  }

  /** The values `check` accepts as a compatibility type are those of the
      exported table. */
  lemma AcceptedTypesAreTable(compatibilityType: Option<Json>)
    ensures compatibilityType in {Some(JNum(BACKWARD)), Some(JNum(FORWARD)), Some(JNum(FULL))} <==>
              exists name :: name in COMPATIBILITY_TYPES && compatibilityType == Some(JNum(COMPATIBILITY_TYPES[name]))
  {
    if compatibilityType == Some(JNum(FULL)) {
      assert COMPATIBILITY_TYPES["FULL"] == FULL;
    } else if compatibilityType == Some(JNum(FORWARD)) {
      assert COMPATIBILITY_TYPES["FORWARD"] == FORWARD;
    } else if compatibilityType == Some(JNum(BACKWARD)) {
      assert COMPATIBILITY_TYPES["BACKWARD"] == BACKWARD;
    }
  }
}
