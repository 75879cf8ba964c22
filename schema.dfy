/** The already-parsed JSON schema the generator walks: every node is a
    dictionary, and the model keeps the keys the core reads. */
module Schema {
  import opened Exceptions

  /** One schema dictionary. `ref` is the `'$ref'` key, `typ` the `'type'`
      key; `properties` holds the nested ordered mapping and is meaningful
      only when `hasProperties` says the `'properties'` key is present;
      `minimum`, `maximum` and `default` are the scalar keys, the default
      kept as the text `str()` gives for it. */
  datatype Node = Node(
    ref: Option<string>,
    typ: Option<string>,
    hasProperties: bool,
    properties: seq<Entry>,
    minimum: Option<int>,
    maximum: Option<int>,
    default: Option<string>)

  /** One `name: subschema` pair of an ordered mapping; a mapping is a
      sequence of entries in insertion order. */
  datatype Entry = Entry(name: string, node: Node)

  /** The empty dictionary `{}`. */
  const EmptyNode := Node(None, None, false, [], None, None, None)

  /** A node that holds only the given integer bounds. */
  function Bounds(minimum: Option<int>, maximum: Option<int>): (n: Node)
    ensures n.minimum == minimum && n.maximum == maximum && n.default.None?
  {
    EmptyNode.(minimum := minimum, maximum := maximum)
  }

  /** The keys of an ordered mapping, in insertion order. */
  function Names(schema: seq<Entry>): (ns: seq<string>)
    ensures |ns| == |schema| && forall i :: 0 <= i < |schema| ==> ns[i] == schema[i].name
  {
    if schema == [] then [] else [schema[0].name] + Names(schema[1..])
  }
}
