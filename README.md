# jsonschema-compatibility in Dafny

A model of the JSON-schema compatibility checker of `lib/index.js` and of
the helpers in `lib/utils.js`, with proofs of what the checker promises and
of the accidents it has.

`check(oldSchema, newSchema, compatibilityType)` checks its arguments. It
deletes every `description` and `$comment` key from both schemas, in place.
Then it walks the two trees side by side and returns one of three things:
an array of violations, `undefined`, or a thrown `TypeError`. It reads only
the keywords `type`, `properties` and `required`, and only the types
`string` and `object` have a checker. The compatibility types are BACKWARD
(1), FORWARD (2) and FULL (3). FULL runs BACKWARD and then FORWARD.

Files:

- `json.dfy` (module `JsValues`): JSON values as the engine holds them, and
  the bits of JavaScript the checker relies on:
  - truthiness;
  - own-property lookup on objects, arrays and strings;
  - `Object.keys`;
  - `===`;
  - the conversion done by template literals.
- `equality.dfy` (module `Equality`): `Equiv`, the structural equality that
  comparing two stable stringifications decides (member order ignored).
- `sanitiser.dfy` (module `Sanitiser`): the in-place deletion walk that
  `cleanUpSchemas` and `removeProperties` share. It is a loop method proved
  against the value-level function `Strip`, with the walk's properties.
- `compat.dfy` (module `Compat`): the checker itself: `applyChecks`, the
  two type checkers, `validateParams`, `check` and `COMPATIBILITY_TYPES`.
- `compat_props.dfy` (module `CompatProperties`): what the checker promises,
  and its quirks, as lemmas.
- `utils.dfy` (module `Utils`): `equals`, `verifySchemasType`,
  `createErrorFactory`, `keyAdded` and `keyRemoved`, each related to the
  part of the checker that does the same job inline: the equality
  short-cut, the type guard at the head of each type checker, the messages
  of the per-property rules, and the `required`/presence tests of those
  rules. (`lib/index.js` does not import `lib/utils.js`.)

How the model represents things:

- A JavaScript `undefined` is `None`.
- An object is a list of members in the order `Object.keys` returns them.
  So the order in which the checker visits properties is explicit: the old
  schema's names, then the new schema's names that the old one lacks.
- The checker's result is `Outcome = Violations(list) | Undefined | Throws(failure)`.
- Every `TypeError` is a `Failure` value; `Message` gives its text.
- A violation records in `locationKey` whether its location is stored under
  `path` (written by the walker and by the `properties` rules) or under
  `newPath` (written by the per-property rules).
- The flag `aliased` says whether the two schema arguments are one and the
  same object; it may only be set when the two are equal values. It matters
  in two places:
  - `===` on an array- or object-valued `type`;
  - the stringify short-cut, which one object always passes.

## Model

| member | source | states |
|---|---|---|
| Sanitiser.Strip | lib/index.js:29-37 | What the walk leaves of a value: an object stays an object with no more members than it had, and an array stays an array with every element. |
| Sanitiser.StripAll | lib/utils.js:29 | Walking several schemas in turn succeeds only when none of them is `undefined`, and then gives one result per schema. |
| Sanitiser.RemoveProps | lib/index.js:29-37 | The walk of one value gives exactly `Strip(ignored, v)`: the value with every ignored key deleted at every depth, or `None` when it throws on a `null`. |
| Sanitiser.RemovePropsOfObject | lib/index.js:30-36 | Walking the keys of an object, deleting the ignored ones and descending into object-typed values, leaves `Strip` of that object. |
| Sanitiser.RemovePropsOfArray | lib/index.js:30-36 | Walking the index keys of an array, descending into every object-typed element, leaves `Strip` of that array; no index name is ever ignored. |
| Sanitiser.RemoveProperties | lib/utils.js:19-30 | Walking every schema passed in turn gives `StripAll`; it throws as soon as one schema's walk throws. |
| Sanitiser.StripAllPointwise | lib/utils.js:29 | The walk over several schemas succeeds exactly when each schema's walk succeeds, and then each result is that schema stripped on its own. |
| Sanitiser.StripFailsIff | lib/index.js:33-34 | The walk throws exactly when a `null` is reachable through keys that are not deleted (`typeof null === 'object'` and `Object.keys(null)` throws). |
| Sanitiser.StripResultClean | lib/index.js:31-34 | What the walk leaves holds no ignored key at any depth, inside `properties` and inside arrays included, and no reachable `null`. |
| Sanitiser.StripFieldsKeys | lib/index.js:30-32 | At the top of an object, a key survives exactly when it is not ignored. |
| Sanitiser.StripFieldsLookup | lib/index.js:30-35 | Every key that is not ignored keeps its value, stripped in turn. |
| Sanitiser.StripKeepsClean | lib/index.js:30-36 | A value with no ignored key and no reachable `null` is left exactly as it is. |
| Sanitiser.StripIdempotent | lib/index.js:27-39 | A second walk over a walked value changes nothing. |
| Sanitiser.StripWellFormed | lib/index.js:30-36 | The walk keeps the keys of every object distinct. |
| Compat.CleanUpSchemas | lib/index.js:27-39 | Cleaning two schemas succeeds exactly when both walks succeed, and then leaves both schemas cleaned. |
| Compat.IgnoredAreNotIndexNames | lib/index.js:29 | Neither `description` nor `$comment` is an array index name, so the cleaning walk never deletes an array element. |
| CompatProperties.CleanedKeeps | lib/index.js:30-36 | Cleaning keeps an object an object, keeps exactly the keys that are not ignored, and strips their values in turn. |
| CompatProperties.CleanedPlain | lib/index.js:27-39 | A cleaned plain schema is still a plain object, can be cleaned again without throwing, and stays the same when it is. |
| Compat.CleanedTwice | lib/index.js:227-230 | Cleaning a cleaned schema again, as FULL's second run does, changes nothing. |
| Compat.Read | lib/index.js:48 | Reading a property throws exactly when the object is `undefined` or `null`. |
| Compat.Required | lib/index.js:93-94 | A falsy `required` gives `false`; an array `required` gives whether it lists the name. |
| Compat.ApplyChecks | lib/index.js:168-194 | Reading `type` of an `undefined` or `null` subschema throws. One object compared with itself is never incompatible: the result is `[]` or an error. Every violation is in the direction being checked. |
| Compat.ObjectChecker | lib/index.js:54-88 | Every violation the object checker returns, from its own rules or from nested properties, is in the direction being checked. |
| Compat.PropertyLoop | lib/index.js:91-159 | Every violation the loop over the property names returns is in the direction being checked. |
| Compat.Dedup | lib/index.js:88 | The filter keeps at most as many names as it is given, and only names it is given. |
| Compat.HasChecker | lib/index.js:185 | A type that finds a checker is defined. A primitive type finds one exactly when it is the string `'string'` or `'object'`, since numbers, booleans and `null` never print as those names. |
| Compat.StringChecker | lib/index.js:47-53 | The string checker throws exactly when either side's `type` is not `'string'`, and otherwise returns `[]`. |
| CompatProperties.StringsHaveNoRules | lib/index.js:47-53 | Two `string`-typed subschemas give `[]`, whatever else they declare. |
| Compat.PropertyRule | lib/index.js:97-149 | A per-property rule yields at most one violation, in its own direction. No rule applies exactly when the property is on both sides or on neither, and the direction's `required` rule does not fire. |
| Compat.PropertyTurn | lib/index.js:92-157 | One turn of the property loop never returns `undefined`, and every violation it returns is in the direction being checked. |
| Compat.ValidateParams | lib/index.js:202-215 | The arguments are accepted exactly when both schemas are plain objects and the type is 1, 2 or 3. |
| Compat.Check | lib/index.js:225-235 | `check` returns `CheckSpec`. Rejected arguments are left untouched. Once the arguments are accepted and both walks succeed, both schemas are left cleaned, whatever the result, an error of the walker included; whenever it returns an array or `undefined`, the cleaning has succeeded. |
| CompatProperties.IgnoredKeysNeverMatter | lib/index.js:27-39 | Two old schemas that differ only in `description` and `$comment` members, at any depth, get the same result against two new schemas that differ only so, in every compatibility type, provided the cleaning of each schema does not throw (no `null` reachable outside ignored keys). When it does throw, `check` throws for both pairs alike; see NullMakesCheckThrow. |
| CompatProperties.SameCleaning | lib/index.js:204 | Two schemas that clean alike are cleaned to the same value and are both plain objects or neither. |
| CompatProperties.ArgumentChecks | lib/index.js:202-215 | A missing or non-plain old schema throws for `oldSchema`; then a bad new schema throws for `newSchema`; then a type other than 1, 2 or 3 throws the compatibility-type error. An omitted type is FORWARD. |
| CompatProperties.CheckNeverInvalidType | lib/index.js:225-234 | Once the arguments are accepted, only the walker's own errors can be thrown. |
| CompatProperties.AcceptedTypesAreTable | lib/index.js:237-240 | The types `check` accepts are exactly the values of `COMPATIBILITY_TYPES`. |
| CompatProperties.FullIsBackwardThenForward | lib/index.js:227-229 | FULL returns FORWARD's result whenever BACKWARD returned an array, empty or not; otherwise it returns BACKWARD's `undefined` or error. So it is not the conjunction of the two. |
| CompatProperties.NullMakesCheckThrow | lib/index.js:230 | A reachable `null` in either accepted schema makes `check` throw. |
| CompatProperties.SameSchemaCompatible | lib/index.js:189-191 | A plain schema with distinct keys, whose root type is `string` or `object` and with no `null` reachable outside ignored keys, is compatible with itself, or with a copy of itself, in every direction. |
| CompatProperties.CheckShaped | lib/index.js:225-235 | `check` returns at most one violation, located at or below `$`. It never throws an internal checker-misuse error. |
| CompatProperties.ApplyChecksShaped | lib/index.js:168-194 | The walker returns at most one violation, in the current direction and at or below the current path. It throws only unknown-type errors and the engine's own errors. |
| CompatProperties.ObjectCheckerShaped | lib/index.js:54-159 | The same for the object checker, when both types are `'object'`. |
| CompatProperties.ObjectCheckerHead | lib/index.js:55-88 | Up to its loop, the object checker either returns such a result or hands over to the loop over all property names. |
| CompatProperties.PropertyLoopShaped | lib/index.js:91-159 | The same for the property loop. |
| CompatProperties.PropertyTurnShaped | lib/index.js:92-157 | The same for one turn of the loop; moreover every violation of the turn lies at or below `<path>.<name>`. |
| CompatProperties.TypeRules | lib/index.js:170-187 | No type on either side gives no violation. A type that is not strictly the same, or missing on one side only, gives exactly one violation at the current path, with no descent. The same type with no checker throws `Unknown type`. |
| CompatProperties.IdenticalUnknownTypeThrows | lib/index.js:185-191 | Two copies of a `number`, `integer`, `boolean`, `null` or `array` schema throw `Unknown type`, because the lookup comes before the equality short-cut. |
| CompatProperties.ArrayTypeCopiesDiffer | lib/index.js:177-183 | Two separate copies of a schema whose `type` is an array, of any length, are reported as one type change at the current path. |
| CompatProperties.EquivGet | lib/index.js:189 | Two objects that print alike have members at the same keys, and those members print alike. |
| CompatProperties.EquivSubschemasCompatible | lib/index.js:189-191 | Two `string` or `object` subschemas that print alike, with members in any order, give no violation. |
| CompatProperties.PropertiesRules | lib/index.js:60-88 | FORWARD with `properties` dropped, or BACKWARD with `properties` introduced, gives one violation at the path under `path`. Neither side with `properties` gives none. Otherwise, an `undefined` or `null` side throws in `Object.keys`. |
| CompatProperties.PropertyRuleTable | lib/index.js:97-149 | The per-property decision table in both directions. FORWARD reports a name that is no longer required whether or not the property is there. FORWARD reports a removed property only if both sides require it; an added one ends the check clean. BACKWARD is the mirror image. A violation sits at `newPath` under `newPath`. |
| CompatProperties.AllParamsOrder | lib/index.js:86-88 | The loop visits the old names in their order, then the new-only names, each exactly once. |
| CompatProperties.DedupMembers | lib/index.js:88 | The filter keeps exactly the names it is given. |
| CompatProperties.DedupDistinct | lib/index.js:88 | The filter keeps no name twice. |
| CompatProperties.DedupOfDistinct | lib/index.js:88 | The filter leaves a list without repeats unchanged. |
| CompatProperties.DedupExtends | lib/index.js:88 | Filtering a longer prefix only appends names. |
| CompatProperties.PassesIff | lib/index.js:93-157 | The loop goes on after a property exactly when both `required` reads succeed, no rule applies, and the recursive check at `<path>.<name>` in the same direction returns `[]`. |
| CompatProperties.PropertyLoopUndefined | lib/index.js:91-159 | The loop over the property names returns `undefined` exactly when every name lets the loop go on. |
| CompatProperties.FirstFailureDecides | lib/index.js:91-158 | The first property that ends the loop decides the result alone; later properties are never looked at. |
| CompatProperties.NestedUndefinedThrows | lib/index.js:151-156 | A nested object checker that returns `undefined` makes `errors.length` throw. |
| CompatProperties.ShallowTurnShaped | lib/index.js:93-149 | When a `required` read throws or a rule applies, the turn returns. What it returns is at most one violation, at or below `<path>.<name>`, or a throw of a kind the walker can raise. |
| Equality.EquivReflexive | lib/index.js:189 | A value with distinct keys prints like itself. |
| Equality.EquivSymmetric | lib/index.js:189 | Printing alike is symmetric. |
| Utils.EqualsReflexive | lib/utils.js:12 | `equals(s, s)` holds for every schema and for `undefined`. |
| Utils.EqualsSymmetric | lib/utils.js:12 | `equals` is symmetric. |
| Utils.EqualsIgnoresMemberOrder | lib/utils.js:12 | Any reordering of the members of an object with distinct keys is `equals` to the original. |
| Utils.ShortcutIsEquals | lib/index.js:189-191 | The walker's short-cut is `equals`: equal subschemas with a checker type give `[]`. |
| Utils.SchemasTypeIsCheckerGuard | lib/index.js:47-56 | The string checker throws its misuse error exactly when `verifySchemasType('string', ...)` would reject the two schemas, and the object checker exactly when `verifySchemasType('object', ...)` would. |
| Utils.VerifySchemasType | lib/utils.js:36-42 | It throws exactly when some schema's `type` is not the expected one, and then with the message for the first such schema. |
| Utils.CreateError | lib/utils.js:43-47 | The error carries the context's compatibility type and path. |
| Utils.PropertyRuleMessages | lib/utils.js:43-47 | Every violation of a per-property rule is the one the error factory builds from the direction's name, the property's path and the rule's reason. |
| Utils.KeyTests | lib/utils.js:48-49 | On two objects, `keyAdded` is truthy exactly when the old value is falsy and the new one truthy, and `keyRemoved` exactly in the mirror case. |
| Utils.NeverAddedAndRemoved | lib/utils.js:48-49 | No key is both added and removed. |
| Utils.KeyTestsThrow | lib/utils.js:48-49 | Both throw exactly when the old object is nullish, or when the new one is nullish and the second operand gets evaluated. |

## Left out

- In-place mutation and sharing:
  - The deletion walk works on a copy of each value and returns the
    result. It does not update the caller's objects in place.
  - Sharing is modelled only for the two schema arguments as a whole
    (`aliased`). Subtrees shared inside one schema, or between the two, are
    not modelled.
  - The walk is idempotent (`StripIdempotent`), so cleaning one object twice
    when both arguments are the same object changes nothing further.
- Partial state after a throw: when the deletion walk throws on a `null`,
  the keys it already deleted stay deleted in JavaScript. The model keeps
  the schemas as they were (`Check` promises nothing about them then).
  When the walk succeeds and the walker throws afterwards, `Check` does
  promise that both schemas are left cleaned.
- Prototype-chain hits:
  - Member lookups see own properties only.
  - A `type` named after a member of `Object.prototype` (such as
    `constructor` or `toString`) would find a "checker" in `typeCheckers`;
    the model treats it as an unknown type.
  - A property named `constructor` inside `properties` would read the
    inherited function.
- Sanitiser.RemoveProps: requires that no ignored key is an array index
  name. With `description` and `$comment` this always holds
  (`IgnoredAreNotIndexNames`). Deleting an array index would leave a hole,
  which `Json` cannot represent.
- Sanitiser.RemovePropsOfObject: the same restriction, for the object half of the walk.
- Sanitiser.RemovePropsOfArray: the same restriction, for the array half of the walk.
- Sanitiser.RemoveProperties: the same restriction, which here shuts out
  lists that the caller of `removeProperties` may pass. A list naming an
  index such as `'0'` would delete array elements and leave holes. Under
  strict mode it would throw on a string-valued member, whose index
  properties cannot be deleted. Neither is modelled.
- Strings are sequences of Unicode characters. JavaScript counts UTF-16
  code units for a string's `length` and index names, so `Get` and
  `OwnKeys` on a string-valued `properties` differ from the engine for
  characters outside the Basic Multilingual Plane.
- Sharing below the root: when the two schemas are distinct objects, the
  walker treats every pair of subschemas as distinct objects too
  (`aliased` is `false` below the root).
- Numbers are integers. The checker only compares them, and converts them
  to strings in messages; floating point is not modelled.
- The internals of `fast-json-stable-stringify` are not modelled. Comparing
  two stringifications is modelled as `Equiv`, structural equality that
  ignores member order.
- Utils.CreateError: `createErrorFactory` returns a closure; the model takes
  the context and the reason together.
- lib/testing.js is not part of this model: it reads files, parses YAML and
  prints.
- test/index.js is a test harness. The argument cases it asserts are proved
  in `ArgumentChecks`.
