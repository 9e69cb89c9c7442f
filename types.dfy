/** The OpenAPI schema node the generator translates (src/types.ts:54-63).
    Every field is optional, as in the source interface: a node is not
    forced to be exactly one of reference, primitive, array or object, and
    the translator decides by field priority. */
module Types {

  datatype Option<+T> = None | Some(value: T)

  /** One entry of `properties`, kept in `Object.entries` order. */
  datatype Property = Property(key: string, schema: Schema)

  /** The optional `properties` record. It has its own datatype rather than
      `Option<seq<Property>>` so that a property's schema is visibly smaller
      than the node holding it. */
  datatype Properties = NoProperties | Properties(entries: seq<Property>)

  datatype Schema = Schema(
    schemaType: Option<string>,        // `type`
    format: Option<string>,
    items: Option<Schema>,
    properties: Properties,
    required: Option<seq<string>>,
    refPointer: Option<string>,        // `$ref`
    enumValues: Option<seq<string>>,   // `enum`, each value already stringified
    description: Option<string>)

  /** A node with no field set, to build examples from. */
  function Empty(): Schema
  {
    Schema(None, None, None, NoProperties, None, None, None, None)
  }

  /** A node with only `type` set. */
  function OfType(t: string): Schema
  {
    Empty().(schemaType := Some(t))
  }

  /** A node with only `$ref` set. */
  function RefTo(pointer: string): Schema
  {
    Empty().(refPointer := Some(pointer))
  }
}
