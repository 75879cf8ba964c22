/** configen/generate.py: the walk over the schema tree, recorded as the
    sequence of generator callbacks it makes. */
module Generate {
  import opened Exceptions
  import opened Schema

  /** One generator callback, with the arguments the walk passes to it:
      `start` and `end` get the namespace, the others the entry's name and
      subschema. */
  datatype Event =
    | Begin(namespace: seq<string>)
    | Reference(name: string, node: Node)
    | ObjectStart(name: string, node: Node)
    | ObjectEnd(name: string, node: Node)
    | Variable(name: string, node: Node)
    | Finish(namespace: seq<string>)

  // ---------------------------------------------------------------------
  // convert_schema
  // ---------------------------------------------------------------------

  /** `convert_schema(state, schema, generators)`: the callbacks made for the
      entries in insertion order, or the KeyError that stops the walk. */
  function Walk(schema: seq<Entry>): (r: Result<seq<Event>>)
    ensures r.Err? ==> r.error == KeyError("type") || r.error == KeyError("properties")
    decreases schema
  {
    if schema == [] then Ok([])
    else
      var first :- WalkEntry(schema[0]);
      var rest :- Walk(schema[1..]);
      Ok(first + rest)
  }

  /** One iteration of the loop: a `'$ref'` entry is a reference and is not
      looked into; otherwise `'type'` is read, an object brackets the walk of
      its `'properties'`, and every other type is a variable. */
  function WalkEntry(e: Entry): (r: Result<seq<Event>>)
    ensures r.Err? ==> r.error == KeyError("type") || r.error == KeyError("properties")
    ensures r.Ok? ==> r.value != []
    decreases e
  {
    var node := e.node;
    if node.ref.Some? then Ok([Reference(e.name, node)])
    else if node.typ.None? then Err(KeyError("type"))
    else if node.typ.value == "object" then
      if !node.hasProperties then Err(KeyError("properties"))
      else
        var inner :- Walk(node.properties);
        Ok([ObjectStart(e.name, node)] + inner + [ObjectEnd(e.name, node)])
    else Ok([Variable(e.name, node)])
  }

  /** A schema the walk gets through: every entry reached without crossing a
      `'$ref'` has a `'type'`, and every object among them has
      `'properties'`. */
  predicate WellFormed(schema: seq<Entry>)
    decreases schema
  {
    forall i :: 0 <= i < |schema| ==> EntryWellFormed(schema[i])
  }

  predicate EntryWellFormed(e: Entry)
    decreases e
  {
    e.node.ref.Some?
    || (e.node.typ.Some?
        && (e.node.typ.value == "object" ==> e.node.hasProperties && WellFormed(e.node.properties)))
  }

  /** The walk fails exactly on a schema that is not well formed. */
  lemma {:induction false} WalkOk(schema: seq<Entry>)
    ensures Walk(schema).Ok? <==> WellFormed(schema)
    decreases schema
  {
    if schema != [] {
      WalkEntryOk(schema[0]);
      WalkOk(schema[1..]);
      assert forall i :: 1 <= i < |schema| ==> schema[i] == schema[1..][i - 1];
    }
  }

  lemma {:induction false} WalkEntryOk(e: Entry)
    ensures WalkEntry(e).Ok? <==> EntryWellFormed(e)
    decreases e
  {
    if e.node.ref.None? && e.node.typ.Some? && e.node.typ.value == "object" && e.node.hasProperties {
      WalkOk(e.node.properties);
    }
  }

  // ---------------------------------------------------------------------
  // Counting
  // ---------------------------------------------------------------------

  /** The objects reached without crossing a `'$ref'`. */
  function Objects(schema: seq<Entry>): nat
    decreases schema
  {
    if schema == [] then 0 else EntryObjects(schema[0]) + Objects(schema[1..])
  }

  function EntryObjects(e: Entry): nat
    decreases e
  {
    if e.node.ref.None? && e.node.typ == Some("object") then 1 + Objects(e.node.properties) else 0
  }

  /** The references and variables reached without crossing a `'$ref'`. */
  function Leaves(schema: seq<Entry>): nat
    decreases schema
  {
    if schema == [] then 0 else EntryLeaves(schema[0]) + Leaves(schema[1..])
  }

  function EntryLeaves(e: Entry): nat
    decreases e
  {
    if e.node.ref.None? && e.node.typ == Some("object") then Leaves(e.node.properties) else 1
  }

  /** Two callbacks per object, one per reference or variable. */
  lemma {:induction false} WalkLength(schema: seq<Entry>)
    requires Walk(schema).Ok?
    ensures |Walk(schema).value| == 2 * Objects(schema) + Leaves(schema)
    decreases schema
  {
    if schema != [] {
      WalkEntryLength(schema[0]);
      WalkLength(schema[1..]);
    }
  }

  lemma {:induction false} WalkEntryLength(e: Entry)
    requires WalkEntry(e).Ok?
    ensures |WalkEntry(e).value| == 2 * EntryObjects(e) + EntryLeaves(e)
    decreases e
  {
    if e.node.ref.None? && e.node.typ == Some("object") {
      WalkLength(e.node.properties);
    }
  }

  /** A `'$ref'` entry gives exactly one reference callback, whatever else the
      subschema holds. */
  lemma ReferenceEntry(e: Entry)
    requires e.node.ref.Some?
    ensures WalkEntry(e) == Ok([Reference(e.name, e.node)])
  {
  }

  /** Any type other than `'object'`, `'array'` and `'bool'` included, gives
      exactly one variable callback. */
  lemma VariableEntry(e: Entry)
    requires e.node.ref.None? && e.node.typ.Some? && e.node.typ.value != "object"
    ensures WalkEntry(e) == Ok([Variable(e.name, e.node)])
  {
  }

  // ---------------------------------------------------------------------
  // Nesting
  // ---------------------------------------------------------------------

  /** The open objects after `trace`, starting from `stack`: a start pushes
      its name, an end must close the innermost open object of the same
      name. None when an end does not match. */
  function Scan(trace: seq<Event>, stack: seq<string>): Option<seq<string>>
    decreases |trace|
  {
    if trace == [] then Some(stack)
    else
      match trace[0]
      case ObjectStart(n, _) => Scan(trace[1..], stack + [n])
      case ObjectEnd(n, _) =>
        if stack != [] && stack[|stack| - 1] == n then Scan(trace[1..], stack[..|stack| - 1]) else None
      case _ => Scan(trace[1..], stack)
  }

  /** Scanning a concatenation scans the first part, then the second from
      where the first left off. */
  lemma {:induction false} ScanAppend(a: seq<Event>, b: seq<Event>, stack: seq<string>)
    ensures Scan(a + b, stack) == if Scan(a, stack).None? then None else Scan(b, Scan(a, stack).value)
    decreases |a|
  {
    if a != [] {
      assert (a + b)[0] == a[0] && (a + b)[1..] == a[1..] + b;
      match a[0]
      case ObjectStart(n, _) => ScanAppend(a[1..], b, stack + [n]);
      case ObjectEnd(n, _) =>
        if stack != [] && stack[|stack| - 1] == n {
          ScanAppend(a[1..], b, stack[..|stack| - 1]);
        }
      case _ => ScanAppend(a[1..], b, stack);
    } else {
      assert a + b == b;
    }
  }

  /** The callbacks of a walk are properly nested: every object end closes
      the object start of the same name, and the walk leaves the open objects
      as it found them. */
  lemma {:induction false} WalkBalanced(schema: seq<Entry>, stack: seq<string>)
    requires Walk(schema).Ok?
    ensures Scan(Walk(schema).value, stack) == Some(stack)
    decreases schema
  {
    if schema != [] {
      var first := WalkEntry(schema[0]).value;
      var rest := Walk(schema[1..]).value;
      WalkEntryBalanced(schema[0], stack);
      WalkBalanced(schema[1..], stack);
      ScanAppend(first, rest, stack);
    }
  }

  lemma {:induction false} WalkEntryBalanced(e: Entry, stack: seq<string>)
    requires WalkEntry(e).Ok?
    ensures Scan(WalkEntry(e).value, stack) == Some(stack)
    decreases e
  {
    var node := e.node;
    if node.ref.None? && node.typ.value == "object" {
      var inner := Walk(node.properties).value;
      var open := stack + [e.name];
      WalkBalanced(node.properties, open);
      ScanAppend([ObjectStart(e.name, node)] + inner, [ObjectEnd(e.name, node)], stack);
      ScanAppend([ObjectStart(e.name, node)], inner, stack);
      assert Scan([ObjectStart(e.name, node)], stack) == Some(open);
      assert Scan([ObjectEnd(e.name, node)], open) == Some(stack) by {
        assert open[..|open| - 1] == stack;
      }
    }
  }

  // ---------------------------------------------------------------------
  // Top-level dispatch
  // ---------------------------------------------------------------------

  /** The names of the callbacks made directly for the entries of the
      mapping being walked, `depth` objects deep into `trace`: a reference,
      variable or object start at depth 0. */
  function Dispatched(trace: seq<Event>, depth: nat): seq<string>
    decreases |trace|
  {
    if trace == [] then []
    else
      match trace[0]
      case Reference(n, _) => (if depth == 0 then [n] else []) + Dispatched(trace[1..], depth)
      case Variable(n, _) => (if depth == 0 then [n] else []) + Dispatched(trace[1..], depth)
      case ObjectStart(n, _) => (if depth == 0 then [n] else []) + Dispatched(trace[1..], depth + 1)
      case ObjectEnd(_, _) => Dispatched(trace[1..], if depth == 0 then 0 else depth - 1)
      case _ => Dispatched(trace[1..], depth)
  }

  /** The depth after `trace`, starting at `depth`. */
  function DepthAfter(trace: seq<Event>, depth: nat): nat
    decreases |trace|
  {
    if trace == [] then depth
    else
      match trace[0]
      case ObjectStart(_, _) => DepthAfter(trace[1..], depth + 1)
      case ObjectEnd(_, _) => DepthAfter(trace[1..], if depth == 0 then 0 else depth - 1)
      case _ => DepthAfter(trace[1..], depth)
  }

  lemma {:induction false} DispatchedAppend(a: seq<Event>, b: seq<Event>, depth: nat)
    ensures Dispatched(a + b, depth) == Dispatched(a, depth) + Dispatched(b, DepthAfter(a, depth))
    ensures DepthAfter(a + b, depth) == DepthAfter(b, DepthAfter(a, depth))
    decreases |a|
  {
    if a == [] {
      assert a + b == b;
    } else {
      assert (a + b)[0] == a[0] && (a + b)[1..] == a[1..] + b;
      match a[0]
      case ObjectStart(_, _) => DispatchedAppend(a[1..], b, depth + 1);
      case ObjectEnd(_, _) => DispatchedAppend(a[1..], b, if depth == 0 then 0 else depth - 1);
      case _ => DispatchedAppend(a[1..], b, depth);
    }
  }

  /** The walk makes exactly one top-level callback per entry, in insertion
      order, and none for entries nested deeper; it ends at the depth it
      started from. */
  lemma {:induction false} WalkDispatched(schema: seq<Entry>, depth: nat)
    requires Walk(schema).Ok?
    ensures Dispatched(Walk(schema).value, depth) == if depth == 0 then Names(schema) else []
    ensures DepthAfter(Walk(schema).value, depth) == depth
    decreases schema
  {
    if schema != [] {
      var first := WalkEntry(schema[0]).value;
      var rest := Walk(schema[1..]).value;
      WalkEntryDispatched(schema[0], depth);
      WalkDispatched(schema[1..], depth);
      DispatchedAppend(first, rest, depth);
    }
  }

  lemma {:induction false} WalkEntryDispatched(e: Entry, depth: nat)
    requires WalkEntry(e).Ok?
    ensures Dispatched(WalkEntry(e).value, depth) == if depth == 0 then [e.name] else []
    ensures DepthAfter(WalkEntry(e).value, depth) == depth
    decreases e
  {
    var node := e.node;
    if node.ref.None? && node.typ.value == "object" {
      var inner := Walk(node.properties).value;
      var start := [ObjectStart(e.name, node)];
      var end := [ObjectEnd(e.name, node)];
      WalkDispatched(node.properties, depth + 1);
      DispatchedAppend(start + inner, end, depth);
      DispatchedAppend(start, inner, depth);
      assert Dispatched(start, depth) == (if depth == 0 then [e.name] else []);
      assert DepthAfter(start, depth) == depth + 1;
      assert Dispatched(end, depth + 1) == [] && DepthAfter(end, depth + 1) == depth;
    }
  }

  // ---------------------------------------------------------------------
  // convert_schema_to_language
  // ---------------------------------------------------------------------

  /** `_LANGUAGE_GENERATORS_DICT`: the only language with generators. */
  const Cpp := "c++"

  /** `convert_schema_to_language(schema, namespace, language)`: the `start`
      callback, the walk, then the `end` callback, the state of each step
      handed to the next; an unknown language is a KeyError before any
      callback. */
  function ConvertSchemaToLanguage(schema: seq<Entry>, namespace: seq<string>, language: string)
    : (r: Result<seq<Event>>)
    ensures language != Cpp ==> r == Err(KeyError(language))
    ensures r.Err? ==> r.error in {KeyError(language), KeyError("type"), KeyError("properties")}
    ensures r.Ok? ==>
              |r.value| >= 2 && r.value[0] == Begin(namespace) && r.value[|r.value| - 1] == Finish(namespace)
              && Walk(schema).Ok? && r.value[1..|r.value| - 1] == Walk(schema).value
  {
    if language != Cpp then Err(KeyError(language))
    else
      var walk :- Walk(schema);
      Ok([Begin(namespace)] + walk + [Finish(namespace)])
  }

  /** The conversion succeeds exactly for C++ on a well-formed schema, and
      then starts and ends at top level with every object closed. */
  lemma ConvertSchemaToLanguageOk(schema: seq<Entry>, namespace: seq<string>, language: string)
    ensures ConvertSchemaToLanguage(schema, namespace, language).Ok?
            <==> language == Cpp && WellFormed(schema)
    ensures ConvertSchemaToLanguage(schema, namespace, language).Ok? ==>
              Scan(ConvertSchemaToLanguage(schema, namespace, language).value, []) == Some([])
  {
    WalkOk(schema);
    if language == Cpp && WellFormed(schema) {
      var walk := Walk(schema).value;
      WalkBalanced(schema, []);
      ScanAppend([Begin(namespace)] + walk, [Finish(namespace)], []);
      ScanAppend([Begin(namespace)], walk, []);
    }
  }
}
