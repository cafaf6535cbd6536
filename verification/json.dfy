/** The part of Jackson's JsonNode tree the services touch: navigation by
    field name (`path`), by index (`get`), the `isArray` and `isMissingNode`
    tests and the `asText` rendering. */
module JsonNode {
  import opened Common

  /** A JSON tree node. `Missing` is Jackson's MissingNode, the answer to a
      navigation step that found nothing; `Null` is an explicit JSON null.
      A number node carries the text Jackson renders it as. */
  datatype Json =
    | Missing
    | Null
    | Bool(b: bool)
    | Num(rendering: string)
    | Str(text: string)
    | Arr(elems: seq<Json>)
    | Obj(fields: map<string, Json>)

  /** `node.path(key)`: the field of an object, or MissingNode for an absent
      field and for every node that is not an object. */
  function Path(node: Json, key: string): Json {
    if node.Obj? && key in node.fields then node.fields[key] else Missing
  }

  /** `node.get(i)`: an array element, or Java null (None) when the node is
      not an array or the index is out of range. */
  function Get(node: Json, i: nat): Option<Json> {
    if node.Arr? && i < |node.elems| then Some(node.elems[i]) else None
  }

  predicate IsArray(node: Json) {
    node.Arr?
  }

  predicate IsMissingNode(node: Json) {
    node.Missing?
  }

  /** `node.asText()`: the text of a string node, the rendering of a scalar,
      and the empty string for containers and MissingNode. */
  function AsText(node: Json): string {
    match node
    case Missing => ""
    case Null => "null"
    case Bool(b) => if b then "true" else "false"
    case Num(rendering) => rendering
    case Str(text) => text
    case Arr(_) => ""
    case Obj(_) => ""
  }
}
