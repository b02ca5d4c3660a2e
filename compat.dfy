/** The schema compatibility checker of lib/index.js.

    `check(oldSchema, newSchema, compatibilityType)` validates its arguments,
    deletes every `description` and `$comment` key from both schemas, and
    walks the two trees side by side. The result is what the JavaScript
    function returns: an array of violations, `undefined` (which the source
    returns by accident, see `PropertyLoop`), or an exception. Only the
    `type`, `properties` and `required` keywords are looked at, and only the
    types `string` and `object` have a checker. */
module Compat {
  import opened JsValues
  import opened Equality
  import opened Sanitiser

  /** BACKWARD and FORWARD; FULL is not a direction of its own but the two
      run one after the other. */
  datatype Direction = Backward | Forward

  function Name(d: Direction): string {
    match d
    case Backward => "BACKWARD"
    case Forward => "FORWARD"
  }

  const BACKWARD: int := 1
  const FORWARD: int := 2
  /** `BACKWARD | FORWARD`. */
  const FULL: int := 3

  /** The exported table `COMPATIBILITY_TYPES`. */
  const COMPATIBILITY_TYPES: map<string, int> := map["BACKWARD" := BACKWARD, "FORWARD" := FORWARD, "FULL" := FULL]

  /** The property of a violation that holds its location: the walker and
      the `properties` rules write `path`, the per-property rules write
      `newPath`. */
  datatype LocationKey = PathKey | NewPathKey

  datatype Violation = Violation(message: string, compatibilityType: Direction, locationKey: LocationKey, location: string)

  /** The `TypeError`s the checker throws, its own and the engine's. */
  datatype Failure =
    | InvalidParameter(paramName: string)
    | InvalidCompatibilityType
    | UnknownType(typeName: string)
    | StringCheckerMisused
    | ObjectCheckerMisused
    | ReadOfUndefined(key: string)
    | ReadOfNull(key: string)
    | KeysOfNullish
    | IncludesNotAFunction(owner: string)

  /** The message each error carries. */
  function Message(f: Failure): string {
    match f
    case InvalidParameter(p) => "Invalid parameter " + p + ", must be an object"
    case InvalidCompatibilityType => "Invalid compatibilityType, must be one of COMPATIBILITY_TYPES"
    case UnknownType(t) => "Unknown type " + t
    case StringCheckerMisused => "Internal error. String type checker used for non-string type"
    case ObjectCheckerMisused => "Internal error. Object type checker used for non-object type"
    case ReadOfUndefined(k) => "Cannot read properties of undefined (reading '" + k + "')"
    case ReadOfNull(k) => "Cannot read properties of null (reading '" + k + "')"
    case KeysOfNullish => "Cannot convert undefined or null to object"
    case IncludesNotAFunction(owner) => owner + ".required.includes is not a function"
  }

  /** What a call returns: an array of violations, `undefined`, or a thrown
      `TypeError`. */
  datatype Outcome = Violations(list: seq<Violation>) | Undefined | Throws(failure: Failure)

  datatype Context = Context(compatibilityType: Direction, path: string)

  /** The result of an expression that may throw. */
  datatype Result<T> = Ok(value: T) | Err(failure: Failure)

  /** `v.key`, which throws when `v` is `undefined` or `null`. */
  function Read(v: Option<Json>, key: string): (r: Result<Option<Json>>)
    ensures r.Err? <==> IsNullish(v)
  {
    match v
    case None => Err(ReadOfUndefined(key))
    case Some(JNull) => Err(ReadOfNull(key))
    case Some(j) => Ok(Get(j, key))
  }

  /** `schema.required && schema.required.includes(name)`, reduced to its
      truthiness. Arrays look for the name among their elements, strings for
      it as a substring; any other truthy value has no `includes` method. */
  function Required(required: Option<Json>, owner: string, name: string): (r: Result<bool>)
    ensures !Truthy(required) ==> r == Ok(false)
    ensures required.Some? && required.value.JArr? ==> r == Ok(JStr(name) in required.value.items)
  {
    if !Truthy(required) then Ok(false)
    else
      match required.value
      case JArr(items) => Ok(JStr(name) in items)
      case JStr(s) => Ok(Contains(s, name))
      case _ => Err(IncludesNotAFunction(owner))
  }

  /** `self.filter((value, index, self) => self.indexOf(value) === index)`
      over the first `n` names: each name is kept at its first occurrence. */
  function Dedup(names: seq<string>, n: nat): (r: seq<string>)
    requires n <= |names|
    ensures |r| <= n
    ensures forall i :: 0 <= i < |r| ==> r[i] in names[..n]
  {
    if n == 0 then []
    else
      assert names[..n] == names[..n - 1] + [names[n - 1]];
      if names[n - 1] in names[..n - 1] then Dedup(names, n - 1)
      else Dedup(names, n - 1) + [names[n - 1]]
  }

  /** Whether `typeCheckers[t]` finds a checker: the lookup turns the type
      into a property name, and only `string` and `object` are defined. A
      primitive type that finds one is that very string: numbers print as
      digits, booleans as `true` or `false`. */
  function HasChecker(t: Option<Json>): (r: bool)
    ensures r ==> t.Some? && (IsPrimitive(t.value) ==> t.value == JStr(ToJsString(t)))
    ensures t.Some? && IsPrimitive(t.value) ==> (r <==> t.value == JStr("string") || t.value == JStr("object"))
  {
    NumberNamesNoChecker(t);
    ToJsString(t) == "string" || ToJsString(t) == "object"
  }

  lemma NumberNamesNoChecker(t: Option<Json>)
    ensures t.Some? && t.value.JNum? ==> ToJsString(t)[0] != 's' && ToJsString(t)[0] != 'o'
  {
    if t.Some? && t.value.JNum? {
      var m: nat := if t.value.n < 0 then -t.value.n else t.value.n;
      NatToStringDigits(m);
    }
  }

  function SizeOpt(v: Option<Json>): nat {
    if v.Some? then Size(v.value) else 0
  }

  /** `typeCheckers.string` (lib/index.js:47-53). */
  function StringChecker(o: Json, n: Json): (r: Outcome)
    ensures !r.Throws? ==> r == Violations([])
    ensures r.Throws? <==> Get(o, "type") != Some(JStr("string")) || Get(n, "type") != Some(JStr("string"))
  {
    if Get(o, "type") != Some(JStr("string")) || Get(n, "type") != Some(JStr("string")) then
      Throws(StringCheckerMisused)
    else Violations([])
  }

  /** `applyChecks` (lib/index.js:168-194). `aliased` says that the two
      subschemas are one and the same object, as they are below two schema
      arguments that are one object: `!==` on a `type` that is an array or an
      object compares references, and one object stringifies like itself.
      Reading `type` of `undefined` or `null` throws; one object is never
      incompatible with itself; every violation is in the direction checked. */
  function ApplyChecks(o: Option<Json>, n: Option<Json>, ctx: Context, aliased: bool): (r: Outcome)
    requires aliased ==> o == n
    ensures IsNullish(o) || IsNullish(n) ==> r.Throws?
    ensures aliased ==> r.Throws? || r == Violations([])
    ensures r.Violations? ==> forall k :: 0 <= k < |r.list| ==> r.list[k].compatibilityType == ctx.compatibilityType
    decreases SizeOpt(o) + SizeOpt(n), 2
  {
    match Read(o, "type")
    case Err(m) => Throws(m)
    case Ok(ot) =>
      match Read(n, "type")
      case Err(m) => Throws(m)
      case Ok(nt) =>
        if !Truthy(ot) && !Truthy(nt) then Violations([])
        else if !StrictEquals(ot, nt, aliased) then
          Violations([Violation("Type at " + ctx.path + " changed from " + ToJsString(ot) + " to " + ToJsString(nt),
                                ctx.compatibilityType, PathKey, ctx.path)])
        else if !HasChecker(ot) then Throws(UnknownType(ToJsString(ot)))
        else if aliased || Equiv(o.value, n.value) then Violations([])
        else if ToJsString(ot) == "string" then StringChecker(o.value, n.value)
        else ObjectChecker(o.value, n.value, ctx)
  }

  /** `typeCheckers.object` (lib/index.js:54-159) up to its loop. It is only
      reached for two distinct objects: one object passes the equality
      short-cut first. Every violation is in the direction checked. */
  function ObjectChecker(o: Json, n: Json, ctx: Context): (r: Outcome)
    ensures r.Violations? ==> forall k :: 0 <= k < |r.list| ==> r.list[k].compatibilityType == ctx.compatibilityType
    decreases Size(o) + Size(n), 1
  {
    if Get(o, "type") != Some(JStr("object")) || Get(n, "type") != Some(JStr("object")) then
      Throws(ObjectCheckerMisused)
    else
      ObjectIsObject(o);
      ObjectIsObject(n);
      var op := Get(o, "properties");
      var np := Get(n, "properties");
      if ctx.compatibilityType == Forward && Truthy(op) && !Truthy(np) then
        Violations([Violation("Not FORWARD compatible, " + ctx.path + ".properties not specified",
                              Forward, PathKey, ctx.path)])
      else if ctx.compatibilityType == Backward && !Truthy(op) && Truthy(np) then
        Violations([Violation("Not BACKWARD compatible, " + ctx.path + ".properties now specified",
                              Backward, PathKey, ctx.path)])
      else if !Truthy(op) && !Truthy(np) then Violations([])
      else
        match OwnKeys(op)
        case None => Throws(KeysOfNullish)
        case Some(oldKeys) =>
          match OwnKeys(np)
          case None => Throws(KeysOfNullish)
          case Some(newKeys) =>
            var allParams := Dedup(oldKeys + newKeys, |oldKeys + newKeys|);
            PropertyLoop(o, n, op.value, np.value, allParams, ctx)
  }

  /** A value with a `type` property is an object: arrays and strings have no
      property of that name. */
  lemma ObjectIsObject(v: Json)
    requires Get(v, "type").Some?
    ensures v.JObj?
  {
    var len := if v.JArr? then |v.items| else if v.JStr? then |v.s| else 0;
    WordIsNoIndex("type", len);
  }

  /** The `for` loop over `allParams` (lib/index.js:91-158). Every turn
      either returns from the whole checker or goes on to the next name; a
      loop that runs to the end falls off the arrow function and yields
      `undefined`. */
  function PropertyLoop(o: Json, n: Json, op: Json, np: Json, names: seq<string>, ctx: Context): (r: Outcome)
    ensures r.Violations? ==> forall k :: 0 <= k < |r.list| ==> r.list[k].compatibilityType == ctx.compatibilityType
    decreases Size(op) + Size(np) + 1, 0, |names|
  {
    if names == [] then Undefined
    else
      match PropertyTurn(o, n, op, np, names[0], ctx)
      case Some(returned) => returned
      case None => PropertyLoop(o, n, op, np, names[1..], ctx)
  }

  /** One turn of the loop, for property `name`: `Some` of what the checker
      returns, or `None` when the recursive check finds nothing and the loop
      goes on. */
  function PropertyTurn(o: Json, n: Json, op: Json, np: Json, name: string, ctx: Context): (r: Option<Outcome>)
    ensures r.Some? ==> !r.value.Undefined?
    ensures r.Some? && r.value.Violations? ==>
              forall k :: 0 <= k < |r.value.list| ==> r.value.list[k].compatibilityType == ctx.compatibilityType
    decreases Size(op) + Size(np) + 1, 0, 0
  {
    var newPath := ctx.path + "." + name;
    match Required(Get(o, "required"), "oldSubSchema", name)
    case Err(m) => Some(Throws(m))
    case Ok(oldRequired) =>
      match Required(Get(n, "required"), "newSubSchema", name)
      case Err(m) => Some(Throws(m))
      case Ok(newRequired) =>
        var oldProperty := Get(op, name);
        var newProperty := Get(np, name);
        match PropertyRule(ctx.compatibilityType, newPath, oldRequired, newRequired, Truthy(oldProperty), Truthy(newProperty))
        case Some(verdict) => Some(verdict)
        case None => NestedTurn(ApplyChecks(oldProperty, newProperty, Context(ctx.compatibilityType, newPath), false))
  }

  /** What the turn makes of the recursive check of the property
      (lib/index.js:150-157): a throw propagates, `undefined` throws at
      `errors.length`, violations end the loop, and `[]` lets it go on. */
  function NestedTurn(r: Outcome): (t: Option<Outcome>)
    ensures t.None? <==> r == Violations([])
    ensures t.Some? ==> !t.value.Undefined?
    ensures t.Some? && t.value.Violations? ==> r == t.value
  {
    match r
    case Throws(m) => Some(Throws(m))
    case Undefined => Some(Throws(ReadOfUndefined("length")))
    case Violations(errors) => if |errors| > 0 then Some(Violations(errors)) else None
  }

  /** The `switch` at the head of each iteration (lib/index.js:97-149):
      `Some` of what the checker returns, or `None` to go on to the
      recursive check. */
  function PropertyRule(dir: Direction, newPath: string, oldRequired: bool, newRequired: bool,
                        oldPresent: bool, newPresent: bool): (r: Option<Outcome>)
    ensures r.Some? ==> r.value.Violations? && |r.value.list| <= 1
    ensures r.Some? ==> forall k :: 0 <= k < |r.value.list| ==> r.value.list[k].compatibilityType == dir
    ensures r.None? <==> oldPresent == newPresent && (dir == Forward ==> newRequired || !oldRequired)
                                                  && (dir == Backward ==> oldRequired || !newRequired)
  {
    match dir
    case Forward =>
      if !newRequired && oldRequired then
        Some(Violations([Violation("Not FORWARD compatible, " + newPath + " is not required anymore",
                                   Forward, NewPathKey, newPath)]))
      else if !oldPresent && newPresent then Some(Violations([]))
      else if oldPresent && !newPresent then
        if oldRequired then
          Some(Violations([Violation("Not FORWARD compatible, " + newPath + " required field removed",
                                     Forward, NewPathKey, newPath)]))
        else Some(Violations([]))
      else None
    case Backward =>
      if newRequired && !oldRequired then
        Some(Violations([Violation("Not BACKWARD compatible, " + newPath + " is now required",
                                   Backward, NewPathKey, newPath)]))
      else if oldPresent && !newPresent then Some(Violations([]))
      else if !oldPresent && newPresent then
        if newRequired then
          Some(Violations([Violation("Not BACKWARD compatible, " + newPath + " required field added",
                                     Backward, NewPathKey, newPath)]))
        else Some(Violations([]))
      else None
  }

  /** `value && value.constructor === Object`: an object (not an array, not a
      primitive) whose `constructor` comes from `Object.prototype`. */
  predicate IsPlainObject(v: Option<Json>) {
    v.Some? && v.value.JObj? && Lookup(v.value.fields, "constructor").None?
  }

  /** `validateParams` (lib/index.js:202-215): `None` when the arguments are
      accepted, otherwise the `TypeError` thrown. */
  function ValidateParams(oldSchema: Option<Json>, newSchema: Option<Json>, compatibilityType: Option<Json>): (r: Option<Failure>)
    ensures r.None? <==> IsPlainObject(oldSchema) && IsPlainObject(newSchema) &&
                         compatibilityType in {Some(JNum(BACKWARD)), Some(JNum(FORWARD)), Some(JNum(FULL))}
  {
    if !IsPlainObject(oldSchema) then Some(InvalidParameter("oldSchema"))
    else if !IsPlainObject(newSchema) then Some(InvalidParameter("newSchema"))
    else if compatibilityType != Some(JNum(BACKWARD)) && compatibilityType != Some(JNum(FORWARD))
         && compatibilityType != Some(JNum(FULL)) then
      Some(InvalidCompatibilityType)
    else None
  }

  /** The keys `cleanUpSchemas` deletes (lib/index.js:28). */
  const IGNORED_PROPERTIES: seq<string> := ["description", "$comment"]

  lemma IgnoredAreNotIndexNames()
    ensures NoIndexNames(IGNORED_PROPERTIES)
  {
    forall n: nat ensures NatToString(n) !in IGNORED_PROPERTIES {
      NatToStringDigits(n);
      assert NatToString(n)[0] != "description"[0] && NatToString(n)[0] != "$comment"[0];
    }
  }

  /** A schema after `cleanUpSchemas`; left as it is if the walk throws. */
  function Cleaned(v: Json): Json {
    match Strip(IGNORED_PROPERTIES, v)
    case Some(w) => w
    case None => v
  }

  /** `compatibilityType = FORWARD`: the default applies to `undefined`. */
  function WithDefault(compatibilityType: Option<Json>): Option<Json> {
    if compatibilityType.None? then Some(JNum(FORWARD)) else compatibilityType
  }

  /** What `check` returns (lib/index.js:225-235). Under FULL, the FORWARD run
      sees the schemas as the BACKWARD run left them, cleaned in place. */
  function CheckSpec(oldSchema: Option<Json>, newSchema: Option<Json>, compatibilityType: Option<Json>, aliased: bool): (r: Outcome)
    requires aliased ==> oldSchema == newSchema
    decreases if WithDefault(compatibilityType) == Some(JNum(FULL)) then 1 else 0
  {
    var ct := WithDefault(compatibilityType);
    match ValidateParams(oldSchema, newSchema, ct)
    case Some(m) => Throws(m)
    case None =>
      if ct == Some(JNum(FULL)) then
        match CheckSpec(oldSchema, newSchema, Some(JNum(BACKWARD)), aliased)
        case Violations(_) =>
          CheckSpec(Some(Cleaned(oldSchema.value)), Some(Cleaned(newSchema.value)), Some(JNum(FORWARD)), aliased)
        case other => other
      else
        var dir := if ct == Some(JNum(BACKWARD)) then Backward else Forward;
        if Strip(IGNORED_PROPERTIES, oldSchema.value).None? || Strip(IGNORED_PROPERTIES, newSchema.value).None? then
          Throws(KeysOfNullish)
        else
          ApplyChecks(Some(Cleaned(oldSchema.value)), Some(Cleaned(newSchema.value)), Context(dir, "$"), aliased)
  }

  /** `cleanUpSchemas(oldSchema, newSchema)` (lib/index.js:27-39): the two
      schemas as the walk leaves them, or `None` if it throws. */
  method CleanUpSchemas(oldSchema: Json, newSchema: Json) returns (r: Option<(Json, Json)>)
    ensures r.Some? <==> Strip(IGNORED_PROPERTIES, oldSchema).Some? && Strip(IGNORED_PROPERTIES, newSchema).Some?
    ensures r.Some? ==> r.value == (Cleaned(oldSchema), Cleaned(newSchema))
  {
    IgnoredAreNotIndexNames();
    var cleaned := RemoveProperties(IGNORED_PROPERTIES, [Some(oldSchema), Some(newSchema)]);
    StripAllPointwise(IGNORED_PROPERTIES, [Some(oldSchema), Some(newSchema)], 2);
    if cleaned.None? {
      return None;
    }
    r := Some((cleaned.value[0], cleaned.value[1]));
  }

  /** `check` (lib/index.js:225-235). Besides the result, it returns the two
      schemas as the caller sees them afterwards: cleaned in place whenever
      the arguments were accepted and the cleaning did not throw. */
  method Check(oldSchema: Option<Json>, newSchema: Option<Json>, compatibilityType: Option<Json>, aliased: bool)
    returns (r: Outcome, oldAfter: Option<Json>, newAfter: Option<Json>)
    requires aliased ==> oldSchema == newSchema
    ensures r == CheckSpec(oldSchema, newSchema, compatibilityType, aliased)
    ensures ValidateParams(oldSchema, newSchema, WithDefault(compatibilityType)).Some? ==>
              oldAfter == oldSchema && newAfter == newSchema
    ensures r.Violations? || r.Undefined? ==>
              oldAfter == Some(Cleaned(oldSchema.value)) && newAfter == Some(Cleaned(newSchema.value))
    ensures ValidateParams(oldSchema, newSchema, WithDefault(compatibilityType)).None? &&
            Strip(IGNORED_PROPERTIES, oldSchema.value).Some? && Strip(IGNORED_PROPERTIES, newSchema.value).Some? ==>
              oldAfter == Some(Cleaned(oldSchema.value)) && newAfter == Some(Cleaned(newSchema.value))
    decreases if WithDefault(compatibilityType) == Some(JNum(FULL)) then 1 else 0
  {
    var ct := if compatibilityType.None? then Some(JNum(FORWARD)) else compatibilityType;
    var invalid := ValidateParams(oldSchema, newSchema, ct);
    oldAfter, newAfter := oldSchema, newSchema;
    if invalid.Some? {
      return Throws(invalid.value), oldAfter, newAfter;
    }
    if ct == Some(JNum(FULL)) {
      var backward, oldBackward, newBackward := Check(oldSchema, newSchema, Some(JNum(BACKWARD)), aliased);
      if !backward.Violations? {
        return backward, oldBackward, newBackward;
      }
      r, oldAfter, newAfter := Check(oldBackward, newBackward, Some(JNum(FORWARD)), aliased);
      CleanedTwice(oldSchema.value);
      CleanedTwice(newSchema.value);
      return;
    }
    var dir := if ct == Some(JNum(BACKWARD)) then Backward else Forward;
    var cleaned := CleanUpSchemas(oldSchema.value, newSchema.value);
    if cleaned.None? {
      return Throws(KeysOfNullish), oldAfter, newAfter;
    }
    oldAfter, newAfter := Some(cleaned.value.0), Some(cleaned.value.1);
    r := ApplyChecks(oldAfter, newAfter, Context(dir, "$"), aliased);
  }

  /** Cleaning a cleaned schema again changes nothing. */
  lemma CleanedTwice(v: Json)
    ensures Cleaned(Cleaned(v)) == Cleaned(v)
    ensures Strip(IGNORED_PROPERTIES, v).Some? ==> Strip(IGNORED_PROPERTIES, Cleaned(v)) == Some(Cleaned(v))
  {
    if Strip(IGNORED_PROPERTIES, v).Some? {
      StripIdempotent(IGNORED_PROPERTIES, v);
    }
  }
}
