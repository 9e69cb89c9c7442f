# A verified model of the OpenAPI client generator's code-generation helpers

The generator turns an OpenAPI document into a TypeScript client. Its
helpers in `src/utils.ts` do two pure jobs, and this project models both
in Dafny:

- **Identifier synthesis.** `capitalize` upper-cases the first character.
  `pathToTypeName` splits a path template on `/`, drops empty segments and
  `{param}` segments, capitalises the rest and concatenates them.
  `generateMethodName` returns a truthy `operationId` verbatim. Otherwise it
  returns the lower-cased HTTP verb followed by the same concatenation.
- **Schema translation.** `schemaToTypeScript` maps an OpenAPI schema node
  to TypeScript type text. It works by structural recursion over `items`
  and property sub-schemas.

Files:

- `js_string.dfy` (module `JsString`) models the JavaScript string
  built-ins the helpers use: `split` on one character, `join`,
  `startsWith`, the last piece of a split, and ASCII `toUpperCase` /
  `toLowerCase`. It proves the split/join round trips.
- `types.dfy` (module `Types`) holds the `Schema` node, shaped on
  `src/types.ts:54-63`. Every field is optional, and `properties` is an
  ordered list of key/schema pairs.
- `utils.dfy` (module `Utils`) holds the four helpers and the lemmas
  about each of them.
- `utils_properties.dfy` (module `UtilsProperties`) holds properties that
  relate several calls. It reads the enum union back and shows that
  documentation fields never matter. It also proves worked examples.

JavaScript truthiness is modelled explicitly:

- An empty `$ref` is falsy, so the node falls through to the `type`
  switch.
- An empty `operationId` is falsy, so the name is derived from the path.
- An empty `enum` array is truthy and yields the empty union `""`.
- An empty `properties` object is truthy and yields `"{\n\n}"`.

The model follows the code as written, including where a reader might
expect otherwise:

- Enum literals are not escaped (`UtilsProperties.EnumLiteralsNotEscaped`).
- `enum` is only consulted under `type: 'string'`.
- No collision avoidance is done for method names
  (`UtilsProperties.MethodNameCollision`).
- A node that sets several fields is translated by field priority: `$ref`
  first, then `type`.

## Model

| member | source | states |
|---|---|---|
| JsString.Split | src/utils.ts:9 | `split('/')` always yields at least one piece, and no piece contains the separator |
| JsString.JoinSplit | src/utils.ts:8-12 | `Join` undoes `Split`: joining the pieces of a split with the same separator gives back the original string |
| JsString.SplitJoin | src/utils.ts:8-12 | `Split` undoes `Join`: splitting a join of a non-empty list of separator-free pieces gives back exactly those pieces (the empty list joins to `""`, which splits to `[""]`) |
| JsString.JoinConcat | src/utils.ts:12 | `join('')` distributes over concatenation of the piece lists |
| JsString.LastPiece | src/utils.ts:27 | `Last`, the popped last piece of a split is separator-free, is a suffix of the string, and is either the whole string or preceded by the separator |
| JsString.ToLowerCase | src/utils.ts:76 | lower-casing keeps the length, maps each character on its own and leaves no upper-case ASCII letter |
| JsString.SplitFramed | src/utils.ts:54-55 | reads back the `{`, newline-joined lines, `}` framing built there: when the body is non-empty and no piece (the first, the last or any body piece) contains the separator, splitting the first piece, the joined body and the last piece on the separator gives back the framed pieces (a helper for `Utils.ObjectRecordLines`) |
| Utils.Capitalize | src/utils.ts:18-20 | capitalising keeps the length, upper-cases the first character only, and leaves `""` unchanged |
| JsString.CaseRoundTrip | src/utils.ts:19 | `ToUpperChar` leaves no lower-case ASCII letter, and lower-casing undoes it on every character that is not already upper-case |
| Utils.NamedSegments | src/utils.ts:10 | every kept segment is non-empty and does not start with `{` |
| Utils.NamedSegmentTest | src/utils.ts:10 | `IsNamedSegment` (truthiness plus `StartsWith(seg, "{")`) holds exactly for a non-empty segment whose first character is not `{` |
| Utils.NamedSegmentsMembers | src/utils.ts:10 | a segment is kept exactly when it occurs in the path and passes the filter |
| Utils.CapitalizeAllAppend | src/utils.ts:11 | mapping `capitalize` over two concatenated segment lists is the concatenation of the two mapped lists |
| Utils.TypeNameHasNoSlash | src/utils.ts:7-13 | `PathToTypeName` never yields text containing `/` |
| Utils.TypeNameOfSegments | src/utils.ts:7-13 | `PathToTypeName` of a path written from `/`-free segments is the concatenation of its capitalised named segments |
| Utils.PathParameterIgnored | src/utils.ts:10 | inserting a `{param}` segment anywhere in a path leaves its `PathToTypeName` unchanged |
| Utils.TypeNameConcat | src/utils.ts:7-13 | the type name of two `/`-joined path parts is the type name of the first followed by that of the second |
| Utils.MethodNameOfSegments | src/utils.ts:71-76 | without `operationId`, `GenerateMethodName` of a segment path is the lower-cased verb followed by the capitalised named segments |
| Utils.MethodNameCases | src/utils.ts:66-77 | `GenerateMethodName`: a truthy (present, non-empty) `operationId` is returned verbatim; otherwise the name is the lower-cased verb followed by `pathToTypeName` of the path |
| Utils.DistinctVerbsDistinctNames | src/utils.ts:71-76 | two HTTP verbs (in any letter case) that differ after lower-casing never produce the same derived name, whatever the paths |
| UtilsProperties.EnumUnionCons | src/utils.ts:34 | `EnumUnion` is the first value in single quotes, followed, when more values remain, by ` \| ` and the union of the rest |
| Utils.SchemaToTypeScript | src/utils.ts:25-61 | a truthy `$ref` never yields text containing `/`; the result is empty exactly for a non-reference string node with an empty `enum` |
| Utils.ObjectText | src/utils.ts:48-55 | an object with `properties` (possibly nested records) yields `{\n`, its record lines joined by newlines, then `\n}` |
| Utils.ObjectLineText | src/utils.ts:50-53 | each record line (`PropertyLine` with `OptionalMark`) is two spaces, the key, `?` exactly when `required` is absent or does not list the key, `: `, the property's type and `;` |
| Utils.RefYieldsLastSegment | src/utils.ts:26-29 | a truthy (present, non-empty) `$ref` yields the text after the pointer's last `/`, or `any` when the pointer ends in `/` |
| Utils.RefIgnoresOtherFields | src/utils.ts:26-29 | the translation of a reference depends only on the pointer, not on the node's other fields or on `name` |
| Utils.NameHasNoEffect | src/utils.ts:25 | the `name` argument never changes the result |
| Utils.EnumIgnoredUnlessString | src/utils.ts:31-36 | `enum` changes nothing unless `type` is `string` |
| Utils.PrimitiveTypes | src/utils.ts:31-59 | `number` and `integer` yield `number`, `boolean` yields `boolean`, a string without `enum` yields `string`, and an absent or unknown `type` yields `any` (the default case), whatever else the node holds short of a truthy `$ref` (which takes priority) |
| Utils.ArrayWrapsItems | src/utils.ts:42-46 | an array yields `Array<` + the items' type + `>`, or `any[]` without `items` |
| Utils.ObjectRecordLines | src/utils.ts:47-57 | an object without `properties` yields `Record<string, any>` and an empty one yields `{\n\n}`; otherwise, when keys and property types are single-line, the newline-split text is `{`, one line per property in declared order with `?` exactly when the key is not required, then `}` |
| Utils.RecordLinesSingleLine | src/utils.ts:50-53 | a record line is single-line when its key and its property type are |
| UtilsProperties.EnumUnionRoundTrip | src/utils.ts:33-35 | `EnumUnion`: the enum union of quote-free values can be read back into exactly those values, in order |
| UtilsProperties.StringEnumRoundTrip | src/utils.ts:32-36 | the text for a string node with a quote-free `enum` reads back as its `enum` values |
| UtilsProperties.EnumLiteralsNotEscaped | src/utils.ts:34 | the value `a' \| 'b` produces the same union as the two values `a` and `b` |
| UtilsProperties.DocumentationIgnored | src/utils.ts:25-61 | clearing `format` and `description` everywhere in the tree leaves the translation unchanged |
| UtilsProperties.MethodNameExample | src/utils.ts:66-77 | `GET /a/{id}/b` is named `getAB` without an `operationId` or with an empty one, and `listB` with `operationId` `listB` |
| UtilsProperties.MethodNameNestedExample | src/utils.ts:71-76 | `GET /users/{id}/orders` is named `getUsersOrders` |
| UtilsProperties.MethodNameCollision | src/utils.ts:71-76 | for every verb and every named `/`-free segment `x`, `/x` is named by the lower-cased verb followed by `Capitalize(x)`, and `/x/{id}` gets the same name (so `GET /users` and `GET /users/{id}` are both `getUsers`) |
| UtilsProperties.CollectionItemTypeNames | src/utils.ts:7-13 | for every `/`-free `x`, `/x` and `/x/{id}` have the same type name |
| UtilsProperties.ObjectExample | src/utils.ts:47-57 | an object with a required string `x` and an optional number `y` yields `{\n  x: string;\n  y?: number;\n}` |
| UtilsProperties.ComponentPointerName | src/utils.ts:26-28 | `$ref: '#/components/schemas/User'` yields `User` |
| UtilsProperties.ArrayOfRefExample | src/utils.ts:42-46 | an array of `$ref: '#/components/schemas/User'` yields `Array<User>` |

## Left out

- `ensureDir` (src/utils.ts:82-85) is left out because it is a file-system side effect done through `fs-extra`.
- `getRelativePath` (src/utils.ts:90-93) is left out because it wraps Node's `path.relative`, whose behaviour is not part of this model.
- src/generate.ts is command-line plumbing: directory and JSON reads, console output and `process.exit`. It is not part of this model.
- The `ApiGenerator` that extracts endpoints and emits the client is not part of this model.
- generated/src/http-client.ts forwards every call to axios. It is not part of this model.
- `JsString.ToLowerCase` and `JsString.ToUpperChar` map ASCII letters only. Full Unicode case mapping can change a string's length.
- Enum values are taken as already-stringified text, so the `${val}` conversion of numbers and other values is not modelled.
- `properties` is an ordered list in which `Object.entries` order is assumed to be already applied. JavaScript lists integer-like keys first, and that reordering is not modelled. Duplicate keys are not excluded.
- A `type` or `$ref` that is not a string is not modelled.
- Utils.ObjectRecordLines: describes the newline-split lines only when every key and every property type is single-line. A key containing a newline falls outside it, and so does every property whose type is itself multi-line: an object with `properties`, or an array of one (`Array<{...}>`). For those, `Utils.ObjectText` and `Utils.ObjectLineText` state the output in general.
