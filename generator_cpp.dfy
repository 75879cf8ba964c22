/** configen/generator_cpp.py: the `CppGenerator` object, which turns the
    walk's callbacks into the lines of a C++ header and source file. */
module GeneratorCpp {
  import opened Exceptions
  import opened Text
  import opened Utils
  import opened Schema
  import opened PartsCpp
  import opened Generate

  /** One entry `[type_, name]` of a members list: the qualified type of a
      member and its variable name. */
  datatype Member = Member(typeName: seq<string>, name: string)

  /** The code-fragment helpers `CppGenerator` calls on its `cpp` module that
      the model does not define (`indent`, `class_begin`, `include`, ...).
      They are left uninterpreted; a helper whose result is one line gives a
      one-line list. The `Option` arguments are the optional `prefix`,
      `location` and `members` arguments. */
  datatype CppParts = CppParts(
    indent: (seq<string>, int) -> seq<string>,
    headerGuardFront: seq<string> -> seq<string>,
    headerGuardBack: seq<string> -> seq<string>,
    includeFile: (string, Option<string>) -> seq<string>,
    namespaceBegin: seq<string> -> seq<string>,
    namespaceEnd: seq<string> -> seq<string>,
    initDeclaration: (seq<string>, Option<string>) -> string,
    validateDeclaration: (seq<string>, Option<string>) -> string,
    initDefinition: (seq<string>, Node, Option<seq<Member>>) -> seq<string>,
    validateDefinition: (seq<string>, Node, Option<seq<Member>>) -> seq<string>,
    classDefinition: (string, seq<string>) -> seq<string>,
    classBegin: string -> seq<string>,
    classEnd: string -> seq<string>,
    constructorDeclaration: seq<string> -> seq<string>,
    isvalidDeclaration: seq<string> -> seq<string>)

  /** What a generator fixes when it is built: the helpers, the output file
      name and location, the extra includes and the header guard. */
  datatype Config = Config(
    cpp: CppParts,
    filename: string,
    location: Option<string>,
    includes: seq<string>,
    guard: seq<string>)

  /** The fields a generator updates: `files['header']`, `files['src']`,
      `namespace`, the `class_space` stack, the three line buffers,
      `current_indent` and the `members_lists` stack. */
  datatype GeneratorState = GeneratorState(
    filesHeader: seq<string>,
    filesSrc: seq<string>,
    namespace: seq<string>,
    classSpace: seq<string>,
    forwardDefinitions: seq<string>,
    header: seq<string>,
    src: seq<string>,
    currentIndent: int,
    membersLists: seq<seq<Member>>)
  {
    /** One open class per indentation level and per members list. */
    predicate Valid() {
      currentIndent == |classSpace| && |membersLists| == |classSpace|
    }
  }

  /** The state `__init__` leaves. */
  const Initial := GeneratorState([], [], [], [], [], [], [], 0, [])

  /** The state a callback leaves, and the exception it raised, if any. */
  datatype Outcome = Outcome(state: GeneratorState, error: Option<Error>)

  // ---------------------------------------------------------------------
  // Line routing
  // ---------------------------------------------------------------------

  /** `_to_header`: the lines, indented to the current depth, go to the end
      of `header`. */
  function WithHeader(cfg: Config, s: GeneratorState, lines: seq<string>): (r: GeneratorState)
    ensures r == s.(header := r.header)
    ensures r.header == s.header + cfg.cpp.indent(lines, s.currentIndent)
  {
    s.(header := s.header + cfg.cpp.indent(lines, s.currentIndent))
  }

  /** `_to_src`: the lines go unindented to the end of `src`. */
  function WithSrc(s: GeneratorState, lines: seq<string>): (r: GeneratorState)
    ensures r == s.(src := r.src)
    ensures r.src == s.src + lines
  {
    s.(src := s.src + lines)
  }

  /** `_to_forward_definitions`: the lines, indented to the current depth, go
      to the end of `forward_definitions`. */
  function WithForward(cfg: Config, s: GeneratorState, lines: seq<string>): (r: GeneratorState)
    ensures r == s.(forwardDefinitions := r.forwardDefinitions)
    ensures r.forwardDefinitions == s.forwardDefinitions + cfg.cpp.indent(lines, s.currentIndent)
  {
    s.(forwardDefinitions := s.forwardDefinitions + cfg.cpp.indent(lines, s.currentIndent))
  }

  /** The members lists after `added` is appended to the innermost one; with
      no list open nothing is recorded. */
  function Pushed(lists: seq<seq<Member>>, added: seq<Member>): (r: seq<seq<Member>>)
    ensures |r| == |lists|
    ensures lists != [] ==> r[..|r| - 1] == lists[..|lists| - 1] && r[|r| - 1] == lists[|lists| - 1] + added
  {
    if lists == [] then [] else lists[..|lists| - 1] + [lists[|lists| - 1] + added]
  }

  lemma PushedTwice(lists: seq<seq<Member>>, a: seq<Member>, b: seq<Member>)
    ensures Pushed(Pushed(lists, a), b) == Pushed(lists, a + b)
  {
    if lists != [] {
      assert lists[|lists| - 1] + a + b == lists[|lists| - 1] + (a + b);
    }
  }

  /** `_to_members(type_, name)`: a no-op when no members list is open,
      otherwise `[type_, name]` is appended to the innermost list only. */
  function WithMember(s: GeneratorState, typeName: seq<string>, name: string): (r: GeneratorState)
    ensures r == s.(membersLists := r.membersLists)
    ensures s.membersLists == [] ==> r.membersLists == []
    ensures s.membersLists != [] ==>
              |r.membersLists| == |s.membersLists|
              && r.membersLists[..|r.membersLists| - 1] == s.membersLists[..|s.membersLists| - 1]
              && r.membersLists[|r.membersLists| - 1]
                 == s.membersLists[|s.membersLists| - 1] + [Member(typeName, name)]
  {
    s.(membersLists := Pushed(s.membersLists, [Member(typeName, name)]))
  }

  /** The declaration a class holds for a member of class type. */
  function MemberDeclaration(name: string): (r: Result<string>)
    ensures r.Ok? <==> ToCamelCase(name).Ok?
    ensures r.Ok? ==> r.value == ToCamelCase(name).value + " " + name + ";"
  {
    var typeName :- ToCamelCase(name);
    Ok(typeName + " " + name + ";")
  }

  // ---------------------------------------------------------------------
  // start and stop
  // ---------------------------------------------------------------------

  /** The `#include` lines for the extra includes, in order. */
  function IncludeLines(cpp: CppParts, includes: seq<string>): (r: seq<string>)
    ensures includes == [] ==> r == []
    decreases |includes|
  {
    if includes == [] then []
    else IncludeLines(cpp, includes[..|includes| - 1]) + cpp.includeFile(includes[|includes| - 1], None)
  }

  /** The include lines of two lists of includes, one after the other: one
      `include` block per file, in the order given. */
  lemma {:induction false} IncludeLinesAppend(cpp: CppParts, a: seq<string>, b: seq<string>)
    ensures IncludeLines(cpp, a + b) == IncludeLines(cpp, a) + IncludeLines(cpp, b)
    decreases |b|
  {
    if b == [] {
      assert a + b == a;
    } else {
      var n := |b| - 1;
      assert (a + b)[..|a + b| - 1] == a + b[..n];
      assert (a + b)[|a + b| - 1] == b[n];
      IncludeLinesAppend(cpp, a, b[..n]);
    }
  }

  /** `start`: the namespace is kept; the header file gets the guard, the
      includes and the namespace opening, the source file the include of the
      own header and the namespace opening. Nothing else changes. */
  function StartSpec(cfg: Config, s: GeneratorState, namespace: seq<string>): (r: GeneratorState)
    ensures r == s.(namespace := namespace, filesHeader := r.filesHeader, filesSrc := r.filesSrc)
    ensures r.filesHeader == s.filesHeader + cfg.cpp.headerGuardFront(cfg.guard)
                             + IncludeLines(cfg.cpp, cfg.includes) + cfg.cpp.namespaceBegin(namespace)
    ensures r.filesSrc == s.filesSrc + cfg.cpp.includeFile(cfg.filename + ".h", cfg.location)
                          + cfg.cpp.namespaceBegin(namespace)
  {
    s.(namespace := namespace,
       filesHeader := s.filesHeader + cfg.cpp.headerGuardFront(cfg.guard)
                      + IncludeLines(cfg.cpp, cfg.includes) + cfg.cpp.namespaceBegin(namespace),
       filesSrc := s.filesSrc + cfg.cpp.includeFile(cfg.filename + ".h", cfg.location)
                   + cfg.cpp.namespaceBegin(namespace))
  }

  /** `stop`: the header file gets the forward definitions, then the header
      body, then the closing of the namespace kept by `start` and the guard;
      the source file gets `src` and the namespace closing. */
  function StopSpec(cfg: Config, s: GeneratorState): (r: GeneratorState)
    ensures r == s.(filesHeader := r.filesHeader, filesSrc := r.filesSrc)
    ensures r.filesHeader == s.filesHeader + s.forwardDefinitions + s.header
                             + cfg.cpp.namespaceEnd(s.namespace) + cfg.cpp.headerGuardBack(cfg.guard)
    ensures r.filesSrc == s.filesSrc + s.src + cfg.cpp.namespaceEnd(s.namespace)
  {
    s.(filesHeader := s.filesHeader + s.forwardDefinitions + s.header
                      + cfg.cpp.namespaceEnd(s.namespace) + cfg.cpp.headerGuardBack(cfg.guard),
       filesSrc := s.filesSrc + s.src + cfg.cpp.namespaceEnd(s.namespace))
  }

  // ---------------------------------------------------------------------
  // Callbacks
  // ---------------------------------------------------------------------

  /** `add_reference`: `[ref.split('.'), name]` is recorded in the innermost
      members list and no line is written; a schema without `'$ref'` is a
      KeyError. */
  function AddReferenceSpec(s: GeneratorState, name: string, node: Node): (r: Outcome)
    ensures r.error.Some? <==> node.ref.None?
    ensures r.error.Some? ==> r.error.value == KeyError("$ref") && r.state == s
    ensures r.error.None? ==>
              r.state == s.(membersLists := Pushed(s.membersLists, [Member(Split(node.ref.value, '.'), name)]))
  {
    if node.ref.None? then Outcome(s, Some(KeyError("$ref")))
    else Outcome(WithMember(s, Split(node.ref.value, '.'), name), None)
  }

  /** The init and validate declarations of `name` in the header, after a
      blank line, and their definitions under the qualified name in `src`:
      the tail of `add_variable`. */
  function VariableFunctions(cfg: Config, s: GeneratorState, name: string, node: Node, prefix: Option<string>)
    : (r: GeneratorState)
    ensures r == s.(header := r.header, src := r.src)
    ensures r.src == s.src + cfg.cpp.initDefinition(s.classSpace + [name], node, None)
                     + cfg.cpp.validateDefinition(s.classSpace + [name], node, None)
    ensures r.header == s.header + cfg.cpp.indent([""], s.currentIndent)
                       + cfg.cpp.indent([cfg.cpp.initDeclaration([name], prefix) + ";"], s.currentIndent)
                       + cfg.cpp.indent([cfg.cpp.validateDeclaration([name], prefix) + ";"], s.currentIndent)
  {
    var s1 := WithHeader(cfg, s, [""]);
    var s2 := WithHeader(cfg, s1, [cfg.cpp.initDeclaration([name], prefix) + ";"]);
    var s3 := WithHeader(cfg, s2, [cfg.cpp.validateDeclaration([name], prefix) + ";"]);
    var s4 := WithSrc(s3, cfg.cpp.initDefinition(s.classSpace + [name], node, None));
    WithSrc(s4, cfg.cpp.validateDefinition(s.classSpace + [name], node, None))
  }

  /** `add_variable`. At top level the typedef goes to the forward
      definitions and no member is recorded; inside a class the typedef and
      the member declaration go to the header and `[class_space + [name],
      name]` is recorded. A missing or unknown type raises before anything is
      written; a name that cannot be camel-cased raises after the typedef is
      written. The stacks and the files never change. */
  function AddVariableSpec(cfg: Config, s: GeneratorState, name: string, node: Node): (r: Outcome)
    ensures r.state.classSpace == s.classSpace && r.state.currentIndent == s.currentIndent
    ensures r.state.filesHeader == s.filesHeader && r.state.filesSrc == s.filesSrc
    ensures r.state.namespace == s.namespace
    ensures r.error.None? <==>
              node.typ.Some? && MakeTypedef(node.typ.value, [name], node).Ok?
              && (s.classSpace != [] ==> ToCamelCase(name).Ok?)
    ensures r.error.None? ==>
              r.state.membersLists
              == if s.classSpace == [] then s.membersLists
                 else Pushed(s.membersLists, [Member(s.classSpace + [name], name)])
  {
    if node.typ.None? then Outcome(s, Some(KeyError("type")))
    else
      match MakeTypedef(node.typ.value, [name], node)
      case Err(e) => Outcome(s, Some(e))
      case Ok(typedef) =>
        if s.classSpace == [] then
          Outcome(VariableFunctions(cfg, WithForward(cfg, s, [typedef]), name, node, None), None)
        else
          var s1 := WithHeader(cfg, s, [typedef]);
          match MemberDeclaration(name)
          case Err(e) => Outcome(s1, Some(e))
          case Ok(declaration) =>
            var s2 := WithMember(WithHeader(cfg, s1, [declaration]), s.classSpace + [name], name);
            Outcome(VariableFunctions(cfg, s2, name, node, Some("static")), None)
  }

  /** Where `add_variable` sends its lines: the typedef to the forward
      definitions at top level, to the header inside a class (the forward
      definitions then untouched); the init and validate definitions of the
      qualified name to `src`, in that order. */
  lemma AddVariableRouting(cfg: Config, s: GeneratorState, name: string, node: Node)
    requires AddVariableSpec(cfg, s, name, node).error.None?
    ensures node.typ.Some? && MakeTypedef(node.typ.value, [name], node).Ok?
    ensures var r := AddVariableSpec(cfg, s, name, node).state;
            var typedef := cfg.cpp.indent([MakeTypedef(node.typ.value, [name], node).value], s.currentIndent);
            r.src == s.src + cfg.cpp.initDefinition(s.classSpace + [name], node, None)
                     + cfg.cpp.validateDefinition(s.classSpace + [name], node, None)
            && (s.classSpace == [] ==>
                  r.forwardDefinitions == s.forwardDefinitions + typedef
                  && |r.header| >= |s.header| && r.header[..|s.header|] == s.header)
            && (s.classSpace != [] ==>
                  var declaration := cfg.cpp.indent([MemberDeclaration(name).value], s.currentIndent);
                  r.forwardDefinitions == s.forwardDefinitions
                  && |r.header| >= |s.header + typedef + declaration|
                  && r.header[..|s.header + typedef + declaration|] == s.header + typedef + declaration)
  {
    var typedef := MakeTypedef(node.typ.value, [name], node).value;
    if s.classSpace != [] {
      var s1 := WithHeader(cfg, s, [typedef]);
      var s2 := WithMember(WithHeader(cfg, s1, [MemberDeclaration(name).value]), s.classSpace + [name], name);
      var r := VariableFunctions(cfg, s2, name, node, Some("static"));
      assert r.header[..|s2.header|] == s2.header;
    }
  }

  /** `start_object`. A nested object is recorded as a member of the
      enclosing one; the init and validate declarations and the class
      opening go to the header, the class's forward definition to the
      forward definitions; then the class is entered: one more indentation
      level, its name on `class_space` and an empty members list on
      `members_lists`. */
  function StartObjectSpec(cfg: Config, s: GeneratorState, name: string): (r: GeneratorState)
    ensures r.classSpace == s.classSpace + [name]
    ensures r.currentIndent == s.currentIndent + 1
    ensures r.membersLists
            == (if s.classSpace == [] then s.membersLists
                else Pushed(s.membersLists, [Member(s.classSpace + [name], name)])) + [[]]
    ensures r.forwardDefinitions
            == s.forwardDefinitions + cfg.cpp.indent(cfg.cpp.classDefinition(name, s.classSpace), s.currentIndent)
    ensures var prefix := if s.classSpace == [] then None else Some("static");
            r.header == s.header + cfg.cpp.indent([""], s.currentIndent)
                        + cfg.cpp.indent([cfg.cpp.initDeclaration([name], prefix) + ";"], s.currentIndent)
                        + cfg.cpp.indent([cfg.cpp.validateDeclaration([name], prefix) + ";"], s.currentIndent)
                        + cfg.cpp.indent([""], s.currentIndent)
                        + cfg.cpp.indent(cfg.cpp.classBegin(name), s.currentIndent)
    ensures r.src == s.src && r.filesHeader == s.filesHeader && r.filesSrc == s.filesSrc
    ensures r.namespace == s.namespace
  {
    var s0 := if s.classSpace == [] then s else WithMember(s, s.classSpace + [name], name);
    var prefix := if s.classSpace == [] then None else Some("static");
    var s1 := WithHeader(cfg, s0, [""]);
    var s2 := WithHeader(cfg, s1, [cfg.cpp.initDeclaration([name], prefix) + ";"]);
    var s3 := WithHeader(cfg, s2, [cfg.cpp.validateDeclaration([name], prefix) + ";"]);
    var s4 := WithForward(cfg, s3, cfg.cpp.classDefinition(name, s.classSpace));
    var s5 := WithHeader(cfg, s4, [""]);
    var s6 := WithHeader(cfg, s5, cfg.cpp.classBegin(name));
    s6.(currentIndent := s6.currentIndent + 1,
        classSpace := s6.classSpace + [name],
        membersLists := s6.membersLists + [[]])
  }

  /** The init and validate definitions of the class at `classSpace`, built
      from its members in the order they were recorded. */
  function ClassDefinitions(cfg: Config, classSpace: seq<string>, members: seq<Member>): (r: seq<string>)
    ensures var init := cfg.cpp.initDefinition(classSpace, EmptyNode, Some(members));
            |init| <= |r| && r[..|init|] == init
            && r[|init|..] == cfg.cpp.validateDefinition(classSpace, EmptyNode, Some(members))
  {
    cfg.cpp.initDefinition(classSpace, EmptyNode, Some(members))
    + cfg.cpp.validateDefinition(classSpace, EmptyNode, Some(members))
  }

  /** `end_object`. The constructor and `IsValid` declarations go to the
      header; with no members list open, reading the innermost one raises
      IndexError there. Otherwise the class's init and validate definitions,
      built from that list, go to `src`; the class is left (popping an empty
      `class_space` raises IndexError), one indentation level less, closed in
      the header, and its members list popped; a class still open gets a
      declaration of the closed one as a member, which raises when the name
      cannot be camel-cased. */
  function EndObjectSpec(cfg: Config, s: GeneratorState, name: string): (r: Outcome)
    ensures r.state.filesHeader == s.filesHeader && r.state.filesSrc == s.filesSrc
    ensures r.state.namespace == s.namespace && r.state.forwardDefinitions == s.forwardDefinitions
    ensures s.membersLists == [] ==>
              r.error == Some(IndexError) && r.state == s.(header := r.state.header)
    ensures s.membersLists != [] ==>
              r.state.src == s.src + ClassDefinitions(cfg, s.classSpace, s.membersLists[|s.membersLists| - 1])
    ensures s.membersLists != [] && s.classSpace == [] ==>
              r.error == Some(IndexError) && r.state.membersLists == s.membersLists
    ensures s.membersLists != [] && s.classSpace != [] ==>
              r.state.classSpace == s.classSpace[..|s.classSpace| - 1]
              && r.state.currentIndent == s.currentIndent - 1
              && r.state.membersLists == s.membersLists[..|s.membersLists| - 1]
              && (r.error.Some? <==> |s.classSpace| > 1 && MemberDeclaration(name).Err?)
    ensures var begun := s.header + cfg.cpp.indent([""], s.currentIndent)
                          + cfg.cpp.indent(cfg.cpp.constructorDeclaration([name]), s.currentIndent)
                          + cfg.cpp.indent(cfg.cpp.isvalidDeclaration([name]), s.currentIndent);
            var closed := begun + cfg.cpp.indent(cfg.cpp.classEnd(name), s.currentIndent - 1);
            if s.membersLists == [] || s.classSpace == [] then r.state.header == begun
            else if |s.classSpace| == 1 || r.error.Some? then r.state.header == closed
            else r.state.header == closed + cfg.cpp.indent([MemberDeclaration(name).value], s.currentIndent - 1)
    ensures s.Valid() ==> r.state.Valid()
  {
    var s1 := WithHeader(cfg, s, [""]);
    var s2 := WithHeader(cfg, s1, cfg.cpp.constructorDeclaration([name]));
    var s3 := WithHeader(cfg, s2, cfg.cpp.isvalidDeclaration([name]));
    if s3.membersLists == [] then Outcome(s3, Some(IndexError))
    else
      var members := s3.membersLists[|s3.membersLists| - 1];
      var s4 := WithSrc(s3, cfg.cpp.initDefinition(s3.classSpace, EmptyNode, Some(members)));
      var s5 := WithSrc(s4, cfg.cpp.validateDefinition(s3.classSpace, EmptyNode, Some(members)));
      if s5.classSpace == [] then Outcome(s5, Some(IndexError))
      else LeaveClass(cfg, s5, name)
  }

  /** The end of `end_object`, once the class's definitions are out: the
      class is left, one indentation level less, closed in the header, and
      its members list popped; a class still open gets a declaration of the
      closed one as a member. */
  function LeaveClass(cfg: Config, s: GeneratorState, name: string): (r: Outcome)
    requires s.classSpace != [] && s.membersLists != []
    ensures r.state.filesHeader == s.filesHeader && r.state.filesSrc == s.filesSrc && r.state.src == s.src
    ensures r.state.namespace == s.namespace && r.state.forwardDefinitions == s.forwardDefinitions
    ensures r.state.classSpace == s.classSpace[..|s.classSpace| - 1]
    ensures r.state.currentIndent == s.currentIndent - 1
    ensures r.state.membersLists == s.membersLists[..|s.membersLists| - 1]
    ensures r.error.Some? <==> |s.classSpace| > 1 && MemberDeclaration(name).Err?
    ensures var closed := s.header + cfg.cpp.indent(cfg.cpp.classEnd(name), s.currentIndent - 1);
            if |s.classSpace| == 1 || r.error.Some? then r.state.header == closed
            else r.state.header == closed + cfg.cpp.indent([MemberDeclaration(name).value], s.currentIndent - 1)
  {
    var s1 := s.(classSpace := s.classSpace[..|s.classSpace| - 1], currentIndent := s.currentIndent - 1);
    var s2 := WithHeader(cfg, s1, cfg.cpp.classEnd(name));
    var s3 := s2.(membersLists := s2.membersLists[..|s2.membersLists| - 1]);
    if s3.classSpace == [] then Outcome(s3, None)
    else
      match MemberDeclaration(name)
      case Err(e) => Outcome(s3, Some(e))
      case Ok(declaration) => Outcome(WithHeader(cfg, s3, [declaration]), None)
  }

  // ---------------------------------------------------------------------
  // Driving the generator with the walk's callbacks
  // ---------------------------------------------------------------------

  /** The generator method each callback of the walk calls. */
  function Step(cfg: Config, s: GeneratorState, e: Event): (r: Outcome)
    ensures e.Begin? || e.ObjectStart? || e.Finish? ==> r.error.None?
    ensures e.Begin? ==> r.state.namespace == e.namespace
    ensures !e.Begin? && !e.Finish? ==>
              r.state.filesHeader == s.filesHeader && r.state.filesSrc == s.filesSrc
              && r.state.namespace == s.namespace
  {
    match e
    case Begin(namespace) => Outcome(StartSpec(cfg, s, namespace), None)
    case Reference(name, node) => AddReferenceSpec(s, name, node)
    case ObjectStart(name, _) => Outcome(StartObjectSpec(cfg, s, name), None)
    case ObjectEnd(name, _) => EndObjectSpec(cfg, s, name)
    case Variable(name, node) => AddVariableSpec(cfg, s, name, node)
    case Finish(_) => Outcome(StopSpec(cfg, s), None)
  }

  /** The generator as a step function on its state. */
  function StepOf(cfg: Config): (GeneratorState, Event) -> Outcome {
    (s, e) => Step(cfg, s, e)
  }

  /** The callbacks run in order on `step`, the first exception ending the
      run. */
  function Steps(step: (GeneratorState, Event) -> Outcome, s: GeneratorState, events: seq<Event>): (r: Outcome)
    ensures events == [] ==> r == Outcome(s, None)
    ensures |events| == 1 ==> r == step(s, events[0])
    decreases |events|
  {
    if events == [] then Outcome(s, None)
    else
      var o := step(s, events[0]);
      if o.error.Some? then o else Steps(step, o.state, events[1..])
  }

  /** Running two traces one after the other is running their
      concatenation. */
  lemma {:induction false} StepsAppend(step: (GeneratorState, Event) -> Outcome, s: GeneratorState,
                                       a: seq<Event>, b: seq<Event>)
    ensures Steps(step, s, a + b)
            == if Steps(step, s, a).error.Some? then Steps(step, s, a) else Steps(step, Steps(step, s, a).state, b)
    decreases |a|
  {
    if a == [] {
      assert a + b == b;
    } else {
      assert (a + b)[0] == a[0] && (a + b)[1..] == a[1..] + b;
      var o := step(s, a[0]);
      if o.error.None? {
        StepsAppend(step, o.state, a[1..], b);
      }
    }
  }

  /** The member each entry of a mapping records in the members list of the
      class being filled: the split reference for a `'$ref'` entry, the entry
      qualified by the open classes otherwise. */
  function EntryMember(classSpace: seq<string>, e: Entry): Member {
    if e.node.ref.Some? then Member(Split(e.node.ref.value, '.'), e.name)
    else Member(classSpace + [e.name], e.name)
  }

  /** The members the entries of a mapping record, in insertion order. */
  function Registered(classSpace: seq<string>, schema: seq<Entry>): (r: seq<Member>)
    ensures |r| == |schema|
    ensures forall i :: 0 <= i < |schema| ==> r[i] == EntryMember(classSpace, schema[i])
  {
    if schema == [] then [] else [EntryMember(classSpace, schema[0])] + Registered(classSpace, schema[1..])
  }

  /** What one successful callback does to the stacks, the files and `src`,
      as far as the walk's callbacks go: a reference or a variable records
      its entry's member, an object start opens a class recorded as a member
      of the enclosing one, an object end closes the innermost class and
      emits its definitions; `start` and `end` are the only callbacks that
      touch the files. */
  ghost predicate StepEffect(cfg: Config, s: GeneratorState, e: Event, o: Outcome) {
    o.state.Valid()
    && (!e.Begin? && !e.Finish? ==>
          o.state.filesHeader == s.filesHeader && o.state.filesSrc == s.filesSrc && o.state.namespace == s.namespace)
    && (o.error.None? ==>
          match e
          case Begin(namespace) => o.state == StartSpec(cfg, s, namespace)
          case Finish(_) => o.state == StopSpec(cfg, s)
          case Reference(n, node) =>
            o.state.classSpace == s.classSpace && o.state.currentIndent == s.currentIndent
            && o.state.membersLists == Pushed(s.membersLists, [EntryMember(s.classSpace, Entry(n, node))])
          case Variable(n, node) =>
            o.state.classSpace == s.classSpace && o.state.currentIndent == s.currentIndent
            && (node.ref.None? ==>
                  o.state.membersLists == Pushed(s.membersLists, [EntryMember(s.classSpace, Entry(n, node))]))
          case ObjectStart(n, node) =>
            o.state.classSpace == s.classSpace + [n] && o.state.currentIndent == s.currentIndent + 1
            && (node.ref.None? ==>
                  o.state.membersLists
                  == Pushed(s.membersLists, [EntryMember(s.classSpace, Entry(n, node))]) + [[]])
          case ObjectEnd(n, _) =>
            s.classSpace != [] && s.membersLists != []
            && o.state.classSpace == s.classSpace[..|s.classSpace| - 1]
            && o.state.currentIndent == s.currentIndent - 1
            && o.state.membersLists == s.membersLists[..|s.membersLists| - 1]
            && o.state.src == s.src + ClassDefinitions(cfg, s.classSpace, s.membersLists[|s.membersLists| - 1]))
  }

  /** A step function that keeps the generator's discipline from every valid
      state. */
  ghost predicate Disciplined(cfg: Config, step: (GeneratorState, Event) -> Outcome) {
    forall s: GeneratorState, e: Event {:trigger step(s, e)} :: s.Valid() ==> StepEffect(cfg, s, e, step(s, e))
  }

  lemma PushedNothing(lists: seq<seq<Member>>)
    ensures Pushed(lists, []) == lists
  {
    if lists != [] {
      assert lists[|lists| - 1] + [] == lists[|lists| - 1];
      assert lists[..|lists| - 1] + [lists[|lists| - 1]] == lists;
    }
  }

  lemma ReferenceEffect(cfg: Config, s: GeneratorState, n: string, node: Node)
    requires s.Valid()
    ensures StepEffect(cfg, s, Reference(n, node), AddReferenceSpec(s, n, node))
  {
  }

  lemma VariableEffect(cfg: Config, s: GeneratorState, n: string, node: Node)
    requires s.Valid()
    ensures StepEffect(cfg, s, Variable(n, node), AddVariableSpec(cfg, s, n, node))
  {
  }

  lemma ObjectStartEffect(cfg: Config, s: GeneratorState, n: string, node: Node)
    requires s.Valid()
    ensures StepEffect(cfg, s, ObjectStart(n, node), Outcome(StartObjectSpec(cfg, s, n), None))
  {
    if s.classSpace == [] {
      assert s.membersLists == [];
    }
  }

  lemma ObjectEndEffect(cfg: Config, s: GeneratorState, n: string, node: Node)
    requires s.Valid()
    ensures StepEffect(cfg, s, ObjectEnd(n, node), EndObjectSpec(cfg, s, n))
  {
  }

  /** The generator keeps its discipline. */
  lemma GeneratorDisciplined(cfg: Config)
    ensures Disciplined(cfg, StepOf(cfg))
  {
    forall s: GeneratorState, e: Event | s.Valid()
      ensures StepEffect(cfg, s, e, StepOf(cfg)(s, e))
    {
      match e
      case Begin(_) =>
      case Finish(_) =>
      case Reference(n, node) => ReferenceEffect(cfg, s, n, node);
      case Variable(n, node) => VariableEffect(cfg, s, n, node);
      case ObjectStart(n, node) => ObjectStartEffect(cfg, s, n, node);
      case ObjectEnd(n, node) => ObjectEndEffect(cfg, s, n, node);
    }
  }

  /** A walk run to the end leaves the open classes and the indentation as
      they were, leaves the files and the namespace alone, and records in the
      innermost open members list exactly one member per entry of the
      mapping, in insertion order (nothing at top level). */
  lemma {:induction false} WalkSteps(cfg: Config, step: (GeneratorState, Event) -> Outcome,
                                     schema: seq<Entry>, s: GeneratorState)
    requires Disciplined(cfg, step) && s.Valid()
    requires Walk(schema).Ok? && Steps(step, s, Walk(schema).value).error.None?
    ensures var t := Steps(step, s, Walk(schema).value).state;
            t.classSpace == s.classSpace && t.currentIndent == s.currentIndent
            && t.membersLists == Pushed(s.membersLists, Registered(s.classSpace, schema))
            && t.filesHeader == s.filesHeader && t.filesSrc == s.filesSrc && t.namespace == s.namespace
    decreases schema
  {
    if schema == [] {
      PushedNothing(s.membersLists);
    } else {
      var first := WalkEntry(schema[0]).value;
      var rest := Walk(schema[1..]).value;
      StepsAppend(step, s, first, rest);
      WalkEntrySteps(cfg, step, schema[0], s);
      var m := Steps(step, s, first).state;
      WalkSteps(cfg, step, schema[1..], m);
      PushedTwice(s.membersLists, [EntryMember(s.classSpace, schema[0])], Registered(s.classSpace, schema[1..]));
    }
  }

  /** One entry's callbacks, run to the end, record its member; an object's
      also emit, last in `src`, the class's definitions built from the
      members of its own properties. */
  lemma {:induction false} WalkEntrySteps(cfg: Config, step: (GeneratorState, Event) -> Outcome,
                                          e: Entry, s: GeneratorState)
    requires Disciplined(cfg, step) && s.Valid()
    requires WalkEntry(e).Ok? && Steps(step, s, WalkEntry(e).value).error.None?
    ensures var t := Steps(step, s, WalkEntry(e).value).state;
            t.classSpace == s.classSpace && t.currentIndent == s.currentIndent
            && t.membersLists == Pushed(s.membersLists, [EntryMember(s.classSpace, e)])
            && t.filesHeader == s.filesHeader && t.filesSrc == s.filesSrc && t.namespace == s.namespace
    ensures e.node.ref.None? && e.node.typ == Some("object") ==>
              var t := Steps(step, s, WalkEntry(e).value).state;
              var defs := ClassDefinitions(cfg, s.classSpace + [e.name],
                                           Registered(s.classSpace + [e.name], e.node.properties));
              |t.src| >= |defs| && t.src[|t.src| - |defs|..] == defs
    decreases e, 1
  {
    var node := e.node;
    var trace := WalkEntry(e).value;
    if node.ref.Some? {
      assert trace == [Reference(e.name, node)];
      assert Steps(step, s, trace) == step(s, trace[0]);
    } else if node.typ.value != "object" {
      assert trace == [Variable(e.name, node)];
      assert Steps(step, s, trace) == step(s, trace[0]);
    } else {
      WalkObjectSteps(cfg, step, e, s);
    }
  }

  /** An object entry's callbacks: its start, its properties' walk, its end. */
  lemma {:induction false} WalkObjectSteps(cfg: Config, step: (GeneratorState, Event) -> Outcome,
                                           e: Entry, s: GeneratorState)
    requires Disciplined(cfg, step) && s.Valid()
    requires e.node.ref.None? && e.node.typ == Some("object")
    requires WalkEntry(e).Ok? && Steps(step, s, WalkEntry(e).value).error.None?
    ensures var t := Steps(step, s, WalkEntry(e).value).state;
            var defs := ClassDefinitions(cfg, s.classSpace + [e.name],
                                         Registered(s.classSpace + [e.name], e.node.properties));
            t.classSpace == s.classSpace && t.currentIndent == s.currentIndent
            && t.membersLists == Pushed(s.membersLists, [EntryMember(s.classSpace, e)])
            && t.filesHeader == s.filesHeader && t.filesSrc == s.filesSrc && t.namespace == s.namespace
            && |t.src| >= |defs| && t.src[|t.src| - |defs|..] == defs
    decreases e, 0
  {
    var node := e.node;
    var inner := Walk(node.properties).value;
    var start := [ObjectStart(e.name, node)];
    var end := [ObjectEnd(e.name, node)];
    assert WalkEntry(e).value == start + inner + end;
    StepsAppend(step, s, start + inner, end);
    StepsAppend(step, s, start, inner);
    assert Steps(step, s, start) == step(s, start[0]);
    var s1 := step(s, start[0]).state;
    OpenClass(cfg, step, s, e);
    WalkSteps(cfg, step, node.properties, s1);
    var s2 := Steps(step, s1, inner).state;
    assert Steps(step, s2, end) == step(s2, end[0]);
    CloseClass(cfg, step, s, e, s2);
  }

  /** The object start of an entry opens its class. */
  lemma OpenClass(cfg: Config, step: (GeneratorState, Event) -> Outcome, s: GeneratorState, e: Entry)
    requires Disciplined(cfg, step) && s.Valid() && e.node.ref.None?
    requires step(s, ObjectStart(e.name, e.node)).error.None?
    ensures var s1 := step(s, ObjectStart(e.name, e.node)).state;
            s1.Valid() && s1.classSpace == s.classSpace + [e.name]
            && s1.membersLists == Pushed(s.membersLists, [EntryMember(s.classSpace, e)]) + [[]]
            && s1.filesHeader == s.filesHeader && s1.filesSrc == s.filesSrc && s1.namespace == s.namespace
  {
    assert StepEffect(cfg, s, ObjectStart(e.name, e.node), step(s, ObjectStart(e.name, e.node)));
  }

  /** The object end, after the walk of the properties, closes the class:
      back to the enclosing state with the entry's member recorded, and the
      class's definitions out from the members its properties recorded. */
  lemma CloseClass(cfg: Config, step: (GeneratorState, Event) -> Outcome, s: GeneratorState, e: Entry,
                   s2: GeneratorState)
    requires Disciplined(cfg, step) && s.Valid() && s2.Valid()
    requires s2.classSpace == s.classSpace + [e.name]
    requires s2.membersLists
             == Pushed(Pushed(s.membersLists, [EntryMember(s.classSpace, e)]) + [[]],
                       Registered(s.classSpace + [e.name], e.node.properties))
    requires step(s2, ObjectEnd(e.name, e.node)).error.None?
    ensures var t := step(s2, ObjectEnd(e.name, e.node)).state;
            var defs := ClassDefinitions(cfg, s.classSpace + [e.name],
                                         Registered(s.classSpace + [e.name], e.node.properties));
            t.classSpace == s.classSpace && t.currentIndent == s.currentIndent
            && t.membersLists == Pushed(s.membersLists, [EntryMember(s.classSpace, e)])
            && t.filesHeader == s2.filesHeader && t.filesSrc == s2.filesSrc && t.namespace == s2.namespace
            && |t.src| >= |defs| && t.src[|t.src| - |defs|..] == defs
  {
    assert StepEffect(cfg, s2, ObjectEnd(e.name, e.node), step(s2, ObjectEnd(e.name, e.node)));
    var members := Registered(s.classSpace + [e.name], e.node.properties);
    assert s2.membersLists[|s2.membersLists| - 1] == members;
    assert s2.membersLists[..|s2.membersLists| - 1] == Pushed(s.membersLists, [EntryMember(s.classSpace, e)]);
  }

  /** The two files of a run over a whole conversion: the header holds the
      guard, the includes and the namespace opening, then the forward
      definitions and the header body the walk produced, then the namespace
      closing and the guard end; the source holds the own-header include, the
      namespace opening, the walk's definitions and the namespace closing.
      The walk leaves no class open. */
  lemma FilesLayout(cfg: Config, schema: seq<Entry>, namespace: seq<string>)
    requires ConvertSchemaToLanguage(schema, namespace, Cpp).Ok?
    requires Steps(StepOf(cfg), Initial, ConvertSchemaToLanguage(schema, namespace, Cpp).value).error.None?
    ensures var started := StartSpec(cfg, Initial, namespace);
            var walked := Steps(StepOf(cfg), started, Walk(schema).value).state;
            var t := Steps(StepOf(cfg), Initial, ConvertSchemaToLanguage(schema, namespace, Cpp).value).state;
            walked.classSpace == [] && walked.membersLists == []
            && t.filesHeader == cfg.cpp.headerGuardFront(cfg.guard) + IncludeLines(cfg.cpp, cfg.includes)
                                + cfg.cpp.namespaceBegin(namespace) + walked.forwardDefinitions + walked.header
                                + cfg.cpp.namespaceEnd(namespace) + cfg.cpp.headerGuardBack(cfg.guard)
            && t.filesSrc == cfg.cpp.includeFile(cfg.filename + ".h", cfg.location) + cfg.cpp.namespaceBegin(namespace)
                             + walked.src + cfg.cpp.namespaceEnd(namespace)
  {
    var step := StepOf(cfg);
    GeneratorDisciplined(cfg);
    var walk := Walk(schema).value;
    var start := [Begin(namespace)];
    var finish := [Finish(namespace)];
    assert ConvertSchemaToLanguage(schema, namespace, Cpp).value == start + walk + finish;
    StepsAppend(step, Initial, start + walk, finish);
    StepsAppend(step, Initial, start, walk);
    assert Steps(step, Initial, start) == step(Initial, start[0]);
    var started := StartSpec(cfg, Initial, namespace);
    WalkSteps(cfg, step, schema, started);
    var walked := Steps(step, started, walk).state;
    assert Steps(step, walked, finish) == step(walked, finish[0]);
    assert started.filesHeader
           == cfg.cpp.headerGuardFront(cfg.guard) + IncludeLines(cfg.cpp, cfg.includes) + cfg.cpp.namespaceBegin(namespace);
    assert started.filesSrc
           == cfg.cpp.includeFile(cfg.filename + ".h", cfg.location) + cfg.cpp.namespaceBegin(namespace);
    assert walked.namespace == namespace;
    assert step(walked, finish[0]).state == StopSpec(cfg, walked);
  }

  // ---------------------------------------------------------------------
  // The generator object
  // ---------------------------------------------------------------------

  /** `CppGenerator`. */
  class CppGenerator {
    var filesHeader: seq<string>
    var filesSrc: seq<string>
    var namespace: seq<string>
    var classSpace: seq<string>
    var forwardDefinitions: seq<string>
    var header: seq<string>
    var src: seq<string>
    var currentIndent: int
    var membersLists: seq<seq<Member>>
    const cpp: CppParts
    const filename: string
    const location: Option<string>
    const includes: seq<string>
    const guard: seq<string>

    function Settings(): Config {
      Config(cpp, filename, location, includes, guard)
    }

    function State(): GeneratorState
      reads this
    {
      GeneratorState(filesHeader, filesSrc, namespace, classSpace, forwardDefinitions, header, src,
                     currentIndent, membersLists)
    }

    /** `__init__`: empty buffers and stacks; the file name defaults to
        `'config'` and the includes to none when not given or empty; the
        guard pairs the file name with the creation time stamp, which is
        passed in. */
    constructor (cpp: CppParts, filename: Option<string>, location: Option<string>,
                 includes: Option<seq<string>>, timestamp: string)
      ensures State() == Initial && State().Valid()
      ensures this.cpp == cpp && this.location == location
      ensures this.filename == if filename.None? || filename.value == "" then "config" else filename.value
      ensures this.includes == includes.GetOr([])
      ensures this.guard == [this.filename, timestamp]
    {
      filesHeader, filesSrc := [], [];
      namespace, classSpace := [], [];
      forwardDefinitions, header, src := [], [], [];
      currentIndent := 0;
      membersLists := [];
      this.cpp := cpp;
      var name := if filename.None? || filename.value == "" then "config" else filename.value;
      this.filename := name;
      this.location := location;
      this.includes := includes.GetOr([]);
      this.guard := [name, timestamp];
    }

    method ToHeader(lines: seq<string>)
      modifies this`header
      ensures State() == WithHeader(Settings(), old(State()), lines)
    {
      header := header + cpp.indent(lines, currentIndent);
    }

    method ToSrc(lines: seq<string>)
      modifies this`src
      ensures State() == WithSrc(old(State()), lines)
    {
      src := src + lines;
    }

    method ToForwardDefinitions(lines: seq<string>)
      modifies this`forwardDefinitions
      ensures State() == WithForward(Settings(), old(State()), lines)
    {
      forwardDefinitions := forwardDefinitions + cpp.indent(lines, currentIndent);
    }

    method ToMembers(typeName: seq<string>, name: string)
      modifies this`membersLists
      ensures State() == WithMember(old(State()), typeName, name)
    {
      if membersLists == [] {
        return;
      }
      var n := |membersLists| - 1;
      membersLists := membersLists[..n] + [membersLists[n] + [Member(typeName, name)]];
    }

    method Start(namespace: seq<string>)
      modifies this`namespace, this`filesHeader, this`filesSrc
      ensures State() == StartSpec(Settings(), old(State()), namespace)
    {
      this.namespace := namespace;
      filesHeader := filesHeader + cpp.headerGuardFront(guard);
      ghost var front := filesHeader;
      for i := 0 to |includes|
        invariant filesHeader == front + IncludeLines(cpp, includes[..i])
        invariant this.namespace == namespace && filesSrc == old(filesSrc)
      {
        assert includes[..i + 1][..i] == includes[..i];
        filesHeader := filesHeader + cpp.includeFile(includes[i], None);
      }
      assert includes[..|includes|] == includes;
      filesHeader := filesHeader + cpp.namespaceBegin(namespace);
      filesSrc := filesSrc + cpp.includeFile(filename + ".h", location);
      filesSrc := filesSrc + cpp.namespaceBegin(namespace);
    }

    method Stop()
      modifies this`filesHeader, this`filesSrc
      ensures State() == StopSpec(Settings(), old(State()))
    {
      filesHeader := filesHeader + forwardDefinitions;
      filesHeader := filesHeader + header;
      filesHeader := filesHeader + cpp.namespaceEnd(namespace);
      filesHeader := filesHeader + cpp.headerGuardBack(guard);
      filesSrc := filesSrc + src;
      filesSrc := filesSrc + cpp.namespaceEnd(namespace);
    }

    method AddReference(name: string, node: Node) returns (err: Option<Error>)
      modifies this`membersLists
      ensures Outcome(State(), err) == AddReferenceSpec(old(State()), name, node)
    {
      if node.ref.None? {
        return Some(KeyError("$ref"));
      }
      var path := Split(node.ref.value, '.');
      ToMembers(path, name);
      err := None;
    }

    method AddVariable(name: string, node: Node) returns (err: Option<Error>)
      modifies this`forwardDefinitions, this`header, this`src, this`membersLists
      ensures Outcome(State(), err) == AddVariableSpec(Settings(), old(State()), name, node)
    {
      if node.typ.None? {
        return Some(KeyError("type"));
      }
      var typedef := MakeTypedef(node.typ.value, [name], node);
      if typedef.Err? {
        return Some(typedef.error);
      }
      var prefix: Option<string>;
      if classSpace == [] {
        ToForwardDefinitions([typedef.value]);
        prefix := None;
      } else {
        ToHeader([typedef.value]);
        var declaration := MemberDeclaration(name);
        if declaration.Err? {
          return Some(declaration.error);
        }
        ToHeader([declaration.value]);
        prefix := Some("static");
        ToMembers(classSpace + [name], name);
      }
      ToHeader([""]);
      ToHeader([cpp.initDeclaration([name], prefix) + ";"]);
      ToHeader([cpp.validateDeclaration([name], prefix) + ";"]);
      ToSrc(cpp.initDefinition(classSpace + [name], node, None));
      ToSrc(cpp.validateDefinition(classSpace + [name], node, None));
      err := None;
    }

    method StartObject(name: string)
      modifies this`header, this`forwardDefinitions, this`classSpace, this`currentIndent, this`membersLists
      ensures State() == StartObjectSpec(Settings(), old(State()), name)
    {
      if classSpace != [] {
        ToMembers(classSpace + [name], name);
      }
      var prefix := if classSpace == [] then None else Some("static");
      ToHeader([""]);
      ToHeader([cpp.initDeclaration([name], prefix) + ";"]);
      ToHeader([cpp.validateDeclaration([name], prefix) + ";"]);
      ToForwardDefinitions(cpp.classDefinition(name, classSpace));
      ToHeader([""]);
      ToHeader(cpp.classBegin(name));
      currentIndent := currentIndent + 1;
      classSpace := classSpace + [name];
      membersLists := membersLists + [[]];
    }

    method EndObject(name: string) returns (err: Option<Error>)
      modifies this`header, this`src, this`classSpace, this`currentIndent, this`membersLists
      ensures Outcome(State(), err) == EndObjectSpec(Settings(), old(State()), name)
    {
      ToHeader([""]);
      ToHeader(cpp.constructorDeclaration([name]));
      ToHeader(cpp.isvalidDeclaration([name]));
      if membersLists == [] {
        return Some(IndexError);
      }
      var members := membersLists[|membersLists| - 1];
      ToSrc(cpp.initDefinition(classSpace, EmptyNode, Some(members)));
      ToSrc(cpp.validateDefinition(classSpace, EmptyNode, Some(members)));
      if classSpace == [] {
        return Some(IndexError);
      }
      err := ExitScope(name);
    }

    /** The scope exit that ends `end_object`. */
    method ExitScope(name: string) returns (err: Option<Error>)
      requires classSpace != [] && membersLists != []
      modifies this`header, this`classSpace, this`currentIndent, this`membersLists
      ensures Outcome(State(), err) == LeaveClass(Settings(), old(State()), name)
    {
      classSpace := classSpace[..|classSpace| - 1];
      currentIndent := currentIndent - 1;
      ToHeader(cpp.classEnd(name));
      membersLists := membersLists[..|membersLists| - 1];
      err := None;
      if classSpace != [] {
        var declaration := MemberDeclaration(name);
        if declaration.Err? {
          return Some(declaration.error);
        }
        ToHeader([declaration.value]);
      }
    }

    /** The method a callback of the walk calls. */
    method Dispatch(e: Event) returns (err: Option<Error>)
      modifies this`filesHeader, this`filesSrc, this`namespace, this`header, this`src,
               this`forwardDefinitions, this`classSpace, this`currentIndent, this`membersLists
      ensures Outcome(State(), err) == Step(Settings(), old(State()), e)
    {
      match e {
        case Begin(ns) => Start(ns); err := None;
        case Reference(n, node) => err := AddReference(n, node);
        case ObjectStart(n, _) => StartObject(n); err := None;
        case ObjectEnd(n, _) => err := EndObject(n);
        case Variable(n, node) => err := AddVariable(n, node);
        case Finish(_) => Stop(); err := None;
      }
    }

    /** Runs the callbacks of a trace on this generator, stopping at the
        first exception. */
    method Run(events: seq<Event>) returns (err: Option<Error>)
      modifies this`filesHeader, this`filesSrc, this`namespace, this`header, this`src,
               this`forwardDefinitions, this`classSpace, this`currentIndent, this`membersLists
      ensures Outcome(State(), err) == Steps(StepOf(Settings()), old(State()), events)
    {
      ghost var s0 := State();
      err := None;
      for i := 0 to |events|
        invariant Steps(StepOf(Settings()), s0, events[..i]) == Outcome(State(), None)
      {
        ghost var before := State();
        err := Dispatch(events[i]);
        StepsAppend(StepOf(Settings()), s0, events[..i], [events[i]]);
        assert events[..i + 1] == events[..i] + [events[i]];
        assert Steps(StepOf(Settings()), before, [events[i]]) == Outcome(State(), err);
        if err.Some? {
          StepsAppend(StepOf(Settings()), s0, events[..i + 1], events[i + 1..]);
          assert events[..i + 1] + events[i + 1..] == events;
          return;
        }
      }
      assert events[..|events|] == events;
      err := None;
    }
  }
}
