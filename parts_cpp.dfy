/** configen/parts_cpp.py: qualified C++ names, the integer/number/string
    typedefs and the Init/Validate declarations and definitions, as lines. */
module PartsCpp {
  import opened Exceptions
  import opened Text
  import opened Utils
  import opened Schema

  /** `_INDENT`. */
  const IndentUnit := "  "

  // ---------------------------------------------------------------------
  // Names
  // ---------------------------------------------------------------------

  /** `to_namespace_prefix(namespace)`: nothing for no namespace, otherwise
      the components joined by `'::'` with one more `'::'` after them. */
  function ToNamespacePrefix(namespace: seq<string>): (p: string)
    ensures namespace == [] <==> p == ""
    ensures namespace != [] ==> |p| >= 2 && p[|p| - 2..] == "::"
  {
    if |namespace| == 0 then "" else Join(namespace, "::") + "::"
  }

  /** Adding a component to the namespace adds it and one `'::'` to the end
      of the prefix. */
  lemma NamespacePrefixSnoc(namespace: seq<string>, component: string)
    ensures ToNamespacePrefix(namespace + [component])
            == ToNamespacePrefix(namespace) + component + "::"
  {
    if namespace != [] {
      JoinSnoc(namespace, component, "::");
    }
  }

  /** `to_type_name(name)`: every component camel-cased, the first failing
      component raising its IndexError. */
  function ToTypeName(name: seq<string>): (r: Result<seq<string>>)
    ensures r.Ok? <==> forall i :: 0 <= i < |name| ==> ToCamelCase(name[i]).Ok?
    ensures r.Ok? ==> |r.value| == |name|
                      && forall i :: 0 <= i < |name| ==> ToCamelCase(name[i]) == Ok(r.value[i])
    ensures r.Err? ==> r.error == IndexError
  {
    if name == [] then Ok([])
    else
      var head :- ToCamelCase(name[0]);
      var tail :- ToTypeName(name[1..]);
      Ok([head] + tail)
  }

  /** The last component of a type name, with `infix` in front of it, in the
      namespace of the other components: `'{ns}{infix}{name}'`. */
  function Qualified(typeName: seq<string>, infix: string): (q: string)
    requires typeName != []
    ensures |typeName| == 1 ==> q == infix + typeName[0]
    ensures var tail := infix + typeName[|typeName| - 1];
            |tail| <= |q| && q[|q| - |tail|..] == tail
  {
    var prefix := ToNamespacePrefix(typeName[..|typeName| - 1]);
    var tail := infix + typeName[|typeName| - 1];
    assert (prefix + tail)[|prefix|..] == tail;
    prefix + tail
  }

  /** The fully qualified type name is all components joined by `'::'`. */
  lemma QualifiedIsJoin(typeName: seq<string>)
    requires typeName != []
    ensures Qualified(typeName, "") == Join(typeName, "::")
  {
    var n := |typeName| - 1;
    assert typeName == typeName[..n] + [typeName[n]];
    if n > 0 {
      JoinSnoc(typeName[..n], typeName[n], "::");
    }
  }

  // ---------------------------------------------------------------------
  // Typedefs
  // ---------------------------------------------------------------------

  /** `'typedef {ctype} {qualified name};'`. */
  function Typedef(cType: string, qualifiedName: string): string {
    "typedef " + cType + " " + qualifiedName + ";"
  }

  /** The C integer type name `[u]int<bits>_t`. */
  function IntegerType(unsigned: bool, bits: nat): string {
    (if unsigned then "u" else "") + "int" + NatToDecimal(bits) + "_t"
  }

  /** `properties.get('minimum', -1) >= 0`: an absent minimum reads as -1. */
  function IsUnsigned(props: Node): (u: bool)
    ensures u <==> props.minimum.Some? && props.minimum.value >= 0
  {
    props.minimum.GetOr(-1) >= 0
  }

  /** `w` bits are at least the required length of `v` (0 needs none). */
  predicate Holds(w: nat, v: int) {
    v == 0 || RequiredLength(v) <= w
  }

  /** `w` bits are enough for both bounds, an absent bound reading as 0. */
  predicate HoldsBounds(w: nat, props: Node) {
    Holds(w, props.minimum.GetOr(0)) && Holds(w, props.maximum.GetOr(0))
  }

  /** Neither bound asks for any width: both are absent or 0. */
  predicate NoBounds(props: Node) {
    props.minimum.GetOr(0) == 0 && props.maximum.GetOr(0) == 0
  }

  /** The width `make_integer_typedef` picks: the larger of the two
      `calculate_int_bit_length_to_hold` results, 0 turned into 32. That is
      32 without bounds, and otherwise the least standard width holding both
      bounds; past 64 bits the NameError propagates. */
  function IntegerBitLength(props: Node): (r: Result<nat>)
    ensures r.Ok? <==> HoldsBounds(64, props)
    ensures r.Err? ==> r.error == NameError("_STANDARD_LENGTHS")
    ensures r.Ok? ==> r.value in StandardIntLengths && HoldsBounds(r.value, props)
    ensures r.Ok? && NoBounds(props) ==> r.value == 32
    ensures r.Ok? && !NoBounds(props) ==>
              forall w :: w in StandardIntLengths && HoldsBounds(w, props) ==> r.value <= w
  {
    var lo :- BitLengthToHold(props.minimum.GetOr(0));
    var hi :- BitLengthToHold(props.maximum.GetOr(0));
    var bits := if lo >= hi then lo else hi;
    Ok(if bits == 0 then 32 else bits)
  }

  /** Sign and width on the source's documented examples without a width. */
  lemma IntegerResolutionUnbounded()
    ensures !IsUnsigned(EmptyNode) && IntegerBitLength(EmptyNode) == Ok(32)
    ensures var p := Bounds(Some(0), None); IsUnsigned(p) && IntegerBitLength(p) == Ok(32)
    ensures var p := Bounds(None, Some(0)); !IsUnsigned(p) && IntegerBitLength(p) == Ok(32)
  {
  }

  /** The width `IntegerBitLength` resolves from the widths of the two
      bounds, the larger one winning. */
  lemma IntegerBitLengthOf(props: Node, lo: nat, hi: nat)
    requires BitLengthToHold(props.minimum.GetOr(0)) == Ok(lo)
    requires BitLengthToHold(props.maximum.GetOr(0)) == Ok(hi)
    requires lo != 0 || hi != 0
    ensures IntegerBitLength(props) == Ok(if lo >= hi then lo else hi)
  {
  }

  /** Sign and width on the source's documented example with a maximum of
      128 and no minimum. */
  lemma IntegerResolutionSigned()
    ensures var p := Bounds(None, Some(128)); !IsUnsigned(p) && IntegerBitLength(p) == Ok(8)
  {
    BitLengthPowerOfTwoEdge();
    IntegerBitLengthOf(Bounds(None, Some(128)), 0, 8);
  }

  /** Sign and width on the source's documented example with a zero minimum
      and a maximum of 129. */
  lemma IntegerResolutionUnsigned()
    ensures var p := Bounds(Some(0), Some(129)); IsUnsigned(p) && IntegerBitLength(p) == Ok(8)
  {
    assert Pow2(7) == 128 && Pow2(8) == 256;
    CeilLog2Exact(129, 8);
    assert BitLengthToHold(129) == Ok(8);
    IntegerBitLengthOf(Bounds(Some(0), Some(129)), 0, 8);
  }

  /** Sign and width on the source's documented example with a negative
      minimum. */
  lemma IntegerResolutionNegative()
    ensures var p := Bounds(Some(-129), Some(128)); !IsUnsigned(p) && IntegerBitLength(p) == Ok(16)
  {
    BitLengthPowerOfTwoEdge();
    BitLengthNegativeEdge();
    IntegerBitLengthOf(Bounds(Some(-129), Some(128)), 16, 8);
  }

  /** `make_integer_typedef(name, properties)`: a typedef of the qualified,
      camel-cased name to an unsigned type exactly when a non-negative
      minimum is given, of the width `IntegerBitLength` resolves. */
  function MakeIntegerTypedef(name: seq<string>, props: Node): (r: Result<string>)
    ensures r.Ok? <==> IntegerBitLength(props).Ok? && ToTypeName(name).Ok? && name != []
    ensures r.Err? && IntegerBitLength(props).Err? ==> r.error == NameError("_STANDARD_LENGTHS")
    ensures r.Err? && IntegerBitLength(props).Ok? ==> r.error == IndexError
    ensures r.Ok? ==>
              r.value == Typedef(IntegerType(props.minimum.Some? && props.minimum.value >= 0,
                                             IntegerBitLength(props).value),
                                 Join(ToTypeName(name).value, "::"))
  {
    var bits :- IntegerBitLength(props);
    var typeName :- ToTypeName(name);
    if typeName == [] then Err(IndexError)
    else
      QualifiedIsJoin(typeName);
      Ok(Typedef(IntegerType(IsUnsigned(props), bits), Qualified(typeName, "")))
  }

  /** `make_number_typedef(name)`: the qualified name as a `double`. */
  function MakeNumberTypedef(name: seq<string>, props: Node): (r: Result<string>)
    ensures r.Ok? <==> ToTypeName(name).Ok? && name != []
    ensures r.Ok? ==> r.value == Typedef("double", Join(ToTypeName(name).value, "::"))
  {
    var typeName :- ToTypeName(name);
    if typeName == [] then Err(IndexError)
    else
      QualifiedIsJoin(typeName);
      Ok(Typedef("double", Qualified(typeName, "")))
  }

  /** `make_string_typedef(name)`: the qualified name as a `std::string`. */
  function MakeStringTypedef(name: seq<string>, props: Node): (r: Result<string>)
    ensures r.Ok? <==> ToTypeName(name).Ok? && name != []
    ensures r.Ok? ==> r.value == Typedef("std::string", Join(ToTypeName(name).value, "::"))
  {
    var typeName :- ToTypeName(name);
    if typeName == [] then Err(IndexError)
    else
      QualifiedIsJoin(typeName);
      Ok(Typedef("std::string", Qualified(typeName, "")))
  }

  /** `TYPE_TYPDEDEF_MAKER_DICT[typ](name, properties)`: integers, numbers
      and strings have a maker; any other type is a KeyError. */
  function MakeTypedef(typ: string, name: seq<string>, props: Node): (r: Result<string>)
    ensures typ !in {"integer", "number", "string"} ==> r == Err(KeyError(typ))
    ensures typ == "integer" ==> r == MakeIntegerTypedef(name, props)
    ensures typ == "number" ==> r == MakeNumberTypedef(name, props)
    ensures typ == "string" ==> r == MakeStringTypedef(name, props)
  {
    match typ
    case "integer" => MakeIntegerTypedef(name, props)
    case "number" => MakeNumberTypedef(name, props)
    case "string" => MakeStringTypedef(name, props)
    case _ => Err(KeyError(typ))
  }

  // ---------------------------------------------------------------------
  // Declarations
  // ---------------------------------------------------------------------

  /** `make_init_declaration(name)`: `Init<Name>` in the namespace of the
      leading components, taking a pointer to the fully qualified type. */
  function MakeInitDeclaration(name: seq<string>): (r: Result<string>)
    ensures r.Ok? <==> ToTypeName(name).Ok? && name != []
    ensures r.Ok? ==>
              var typeName := ToTypeName(name).value;
              r.value == "void " + Qualified(typeName, "Init") + "(" + Join(typeName, "::") + " *val)"
  {
    var typeName :- ToTypeName(name);
    if typeName == [] then Err(IndexError)
    else
      QualifiedIsJoin(typeName);
      Ok("void " + Qualified(typeName, "Init") + "(" + Qualified(typeName, "") + " *val)")
  }

  /** `make_validate_declaration(name)`: `Validate<Name>` in the namespace of
      the leading components, taking a const reference to the fully
      qualified type. */
  function MakeValidateDeclaration(name: seq<string>): (r: Result<string>)
    ensures r.Ok? <==> ToTypeName(name).Ok? && name != []
    ensures r.Ok? ==>
              var typeName := ToTypeName(name).value;
              r.value == "void " + Qualified(typeName, "Validate") + "(const " + Join(typeName, "::") + " &val)"
  {
    var typeName :- ToTypeName(name);
    if typeName == [] then Err(IndexError)
    else
      QualifiedIsJoin(typeName);
      Ok("void " + Qualified(typeName, "Validate") + "(const " + Qualified(typeName, "") + " &val)")
  }

  // ---------------------------------------------------------------------
  // Definitions
  // ---------------------------------------------------------------------

  /** `_indent(line)` on one string. */
  function IndentLine(line: string): (r: string)
    ensures |r| == |line| + 2 && r[2..] == line && r[..2] == IndentUnit
  {
    IndentUnit + line
  }

  /** `_indent(lines)` on a list: one indented line per line, in order. */
  function IndentLines(lines: seq<string>): (r: seq<string>)
    ensures |r| == |lines| && forall i :: 0 <= i < |lines| ==> r[i] == IndentLine(lines[i])
  {
    if lines == [] then [] else [IndentLine(lines[0])] + IndentLines(lines[1..])
  }

  /** The call one member contributes:
      `'{ns}{fname}{tname}({prefix}val->{vname});'`, qualified by the
      member path without its last element and addressing the field named by
      that last element as written. */
  function CallLine(functionName: string, prefix: string, member: seq<string>): (r: Result<string>)
    ensures r.Ok? <==> ToTypeName(member).Ok? && member != []
    ensures r.Err? ==> r.error == IndexError
  {
    var typeName :- ToTypeName(member);
    if typeName == [] then Err(IndexError)
    else Ok(Qualified(typeName, functionName) + "(" + prefix + "val->" + member[|member| - 1] + ");")
  }

  /** The list `_generate_calls_for_members` returns, as a function of the
      members: the call lines of all members, in member order, or the
      IndexError of a member whose name cannot be resolved. */
  function CallLines(functionName: string, prefix: string, members: seq<seq<string>>)
    : (r: Result<seq<string>>)
    ensures r.Ok? ==> |r.value| == |members|
    ensures r.Err? ==> r.error == IndexError
  {
    MapResult(member => CallLine(functionName, prefix, member), members)
  }

  /** One call line per member: when the calls succeed there are as many as
      members, and line `i` is the call of member `i`. */
  lemma CallLinesAt(functionName: string, prefix: string, members: seq<seq<string>>, i: nat)
    requires CallLines(functionName, prefix, members).Ok? && i < |members|
    ensures |CallLines(functionName, prefix, members).value| == |members|
    ensures CallLine(functionName, prefix, members[i]).Ok?
    ensures CallLines(functionName, prefix, members).value[i] == CallLine(functionName, prefix, members[i]).value
  {
    MapResultAt(member => CallLine(functionName, prefix, member), members, i);
  }

  /** The calls succeed exactly when every member's call can be built, and
      otherwise raise the IndexError of a member's type name. */
  lemma CallLinesOk(functionName: string, prefix: string, members: seq<seq<string>>)
    ensures CallLines(functionName, prefix, members).Ok?
            <==> forall i :: 0 <= i < |members| ==> CallLine(functionName, prefix, members[i]).Ok?
    ensures CallLines(functionName, prefix, members).Err? ==>
              CallLines(functionName, prefix, members).error == IndexError
  {
    MapResultOk(member => CallLine(functionName, prefix, member), members);
  }

  /** `_generate_calls_for_members`: builds the call lines one member at a
      time, in member order; the first member whose name cannot be
      camel-cased raises. */
  method GenerateCallsForMembers(functionName: string, prefix: string, members: seq<seq<string>>)
    returns (r: Result<seq<string>>)
    ensures r == CallLines(functionName, prefix, members)
  {
    var calls: seq<string> := [];
    for i := 0 to |members|
      invariant CallLines(functionName, prefix, members[..i]) == Ok(calls)
    {
      var call := CallLine(functionName, prefix, members[i]);
      assert members[..i + 1][..i] == members[..i];
      if call.Err? {
        MapResultFail(member => CallLine(functionName, prefix, member), members, i);
        CallLinesOk(functionName, prefix, members);
        return Err(call.error);
      }
      calls := calls + [call.value];
    }
    assert members[..|members|] == members;
    return Ok(calls);
  }

  /** The three parts of `head + body + tail` sit where they were put. */
  lemma Parts(head: seq<string>, body: seq<string>, tail: seq<string>)
    ensures (head + body + tail)[..|head|] == head
    ensures (head + body + tail)[|head|..|head| + |body|] == body
    ensures (head + body + tail)[|head| + |body|..] == tail
  {
  }

  /** `make_init_definition(name, properties, members)`: the declaration
      opening a block, the default assignment exactly when a default is
      given, the indented Init calls of the members in member order (see
      `CallLinesAt`), and the closing brace. */
  method MakeInitDefinition(name: seq<string>, props: Node, members: seq<seq<string>>)
    returns (r: Result<seq<string>>)
    ensures r.Ok? <==> MakeInitDeclaration(name).Ok? && CallLines("Init", "&", members).Ok?
    ensures r.Err? ==> r.error == IndexError
    ensures r.Ok? ==>
              var d := if props.default.Some? then 1 else 0;
              var lines := r.value;
              |lines| == 2 + d + |members|
              && lines[0] == MakeInitDeclaration(name).value + " {"
              && (props.default.Some? ==> lines[1] == IndentLine("*val = " + props.default.value + ";"))
              && lines[1 + d..1 + d + |members|] == IndentLines(CallLines("Init", "&", members).value)
              && lines[|lines| - 1] == "}"
  {
    var declaration := MakeInitDeclaration(name);
    if declaration.Err? {
      return Err(declaration.error);
    }
    var definition := [declaration.value + " {"];
    if props.default.Some? {
      definition := definition + [IndentLine("*val = " + props.default.value + ";")];
    }
    var calls := GenerateCallsForMembers("Init", "&", members);
    if calls.Err? {
      return Err(calls.error);
    }
    ghost var head := definition;
    var initCalls := IndentLines(calls.value);
    definition := definition + initCalls;
    definition := definition + ["}"];
    Parts(head, initCalls, ["}"]);
    return Ok(definition);
  }

  /** `_CHECK_TEMPLATES` applied in order: the minimum check, then the
      maximum check, each only when its bound is given. */
  function BoundChecks(props: Node): (checks: seq<string>)
    ensures |checks| == (if props.minimum.Some? then 1 else 0) + (if props.maximum.Some? then 1 else 0)
    ensures props.minimum.Some? ==> checks[0] == "(val >= " + IntToDecimal(props.minimum.value) + ");"
    ensures props.maximum.Some? ==>
              checks[|checks| - 1] == "(val <= " + IntToDecimal(props.maximum.value) + ");"
  {
    (if props.minimum.Some? then ["(val >= " + IntToDecimal(props.minimum.value) + ");"] else [])
    + (if props.maximum.Some? then ["(val <= " + IntToDecimal(props.maximum.value) + ");"] else [])
  }

  /** `[_INDENT + 'result &= ' + c for c in checks]`. */
  function AndAssignLines(checks: seq<string>): (r: seq<string>)
    ensures |r| == |checks| && forall i :: 0 <= i < |checks| ==> r[i] == "  result &= " + checks[i]
  {
    if checks == [] then [] else ["  result &= " + checks[0]] + AndAssignLines(checks[1..])
  }

  /** The `result &=` lines of two check lists, one after the other. */
  lemma AndAssignAppend(a: seq<string>, b: seq<string>)
    ensures AndAssignLines(a + b) == AndAssignLines(a) + AndAssignLines(b)
  {
  }

  /** The shape of a validate definition: the declaration opening a block,
      `result` set to true, one `result &=` line per call in order, then the
      minimum and the maximum check when given, the return of `result` and
      the closing brace. */
  predicate ValidateLayout(lines: seq<string>, declaration: string, calls: seq<string>, props: Node) {
    var lo := if props.minimum.Some? then 1 else 0;
    var hi := if props.maximum.Some? then 1 else 0;
    var m := |calls|;
    |lines| == 4 + m + lo + hi
    && lines[0] == declaration + " {"
    && lines[1] == IndentLine("bool result = true;")
    && lines[2..2 + m] == AndAssignLines(calls)
    && (props.minimum.Some? ==>
          lines[2 + m] == "  result &= " + ("(val >= " + IntToDecimal(props.minimum.value) + ");"))
    && (props.maximum.Some? ==>
          lines[2 + m + lo] == "  result &= " + ("(val <= " + IntToDecimal(props.maximum.value) + ");"))
    && lines[|lines| - 2] == IndentLine("return result;")
    && lines[|lines| - 1] == "}"
  }

  /** The lines `make_validate_definition` assembles have that shape. */
  lemma ValidateLayoutOf(declaration: string, calls: seq<string>, props: Node)
    ensures ValidateLayout([declaration + " {"] + [IndentLine("bool result = true;")]
                           + AndAssignLines(calls + BoundChecks(props))
                           + [IndentLine("return result;")] + ["}"],
                           declaration, calls, props)
  {
    AndAssignAppend(calls, BoundChecks(props));
  }

  /** `make_validate_definition(name, properties, members)`: the declaration
      opening a block, `result` set to true, one `result &=` line per member
      call in member order (see `CallLinesAt`), then the minimum and the
      maximum check when given, the return of `result` and the closing
      brace; one line per member plus one per bound plus four. */
  method MakeValidateDefinition(name: seq<string>, props: Node, members: seq<seq<string>>)
    returns (r: Result<seq<string>>)
    ensures r.Ok? <==> MakeValidateDeclaration(name).Ok? && CallLines("Validate", "", members).Ok?
    ensures r.Err? ==> r.error == IndexError
    ensures r.Ok? ==> |CallLines("Validate", "", members).value| == |members|
    ensures r.Ok? ==>
              ValidateLayout(r.value, MakeValidateDeclaration(name).value,
                             CallLines("Validate", "", members).value, props)
  {
    var declaration := MakeValidateDeclaration(name);
    if declaration.Err? {
      return Err(declaration.error);
    }
    var definition := [declaration.value + " {"];
    definition := definition + [IndentLine("bool result = true;")];
    var calls := GenerateCallsForMembers("Validate", "", members);
    if calls.Err? {
      return Err(calls.error);
    }
    var checks := calls.value + BoundChecks(props);
    definition := definition + AndAssignLines(checks);
    definition := definition + [IndentLine("return result;")];
    definition := definition + ["}"];
    ValidateLayoutOf(declaration.value, calls.value, props);
    return Ok(definition);
  }
}
