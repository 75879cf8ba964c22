# configen: the schema-to-C++ generator, modelled in Dafny

configen turns a JSON schema into a C++ header and source file holding one
typedef or class per schema entry, together with `Init*` and `Validate*`
functions for each of them. This project models the generator's core in four
parts:

- **Naming and integer widths** (`configen/utils.py`, module `Utils`).
  - `to_camel_case` strips the name, splits it on `'_'` and capitalises each
    field.
  - `calculate_int_bit_length_to_hold` picks the least standard width
    (8, 16, 32 or 64 bits) that holds a value.
- **Code fragments** (`configen/parts_cpp.py`, module `PartsCpp`). It builds
  qualified names, the integer/number/string typedefs, and the Init/Validate
  declarations and definitions as lists of lines.
- **The schema walk** (`configen/generate.py`, module `Generate`).
  - `convert_schema` visits the entries of an ordered mapping. It calls
    `reference`, `object_start`/`object_end` or `variable`, and recurses into
    object `properties`.
  - The walk is modelled as the trace of callbacks it makes.
  - `convert_schema_to_language` puts `start` before that trace and `end`
    after it.
- **The generator object** (`configen/generator_cpp.py`, module
  `GeneratorCpp`). `class CppGenerator` keeps:
  - the `class_space` and `members_lists` stacks;
  - the indentation depth;
  - the `forward_definitions`, `header` and `src` line buffers;
  - the two output files.

  Each method is proved against a state-transition function (`StartSpec`,
  `AddVariableSpec`, `EndObjectSpec`, ...). The properties are proved about
  those functions:
  - how the stacks behave;
  - where each line is routed;
  - the layout of the files produced by a whole run over a walk's trace.

Two helper modules support the others:
- `Exceptions` holds the Python exceptions that can be raised (`IndexError`,
  `KeyError`, `NameError`) and the `Result`/`Option` wrappers that carry them.
- `Text` holds the string built-ins the code relies on: `strip`, `split`,
  `join`, one-character `upper` and `str` of an integer.

Python's exceptions are values here. Every operation that can raise returns
`Err(e)` for exactly the inputs on which the source raises `e`.

## Model

| member | source | states |
|---|---|---|
| Text.ToUpper | configen/utils.py:15 | ASCII lower-case letters map to capitals (code point minus 32); every other character is unchanged; white space and `'_'` are preserved |
| Text.ToUpperIdempotent | configen/utils.py:15 | upper-casing twice is upper-casing once |
| Text.Strip | configen/utils.py:15 | the result is a slice of the input that neither starts nor ends with white space, and everything cut off on either side is white space |
| Text.StripNoOp | configen/utils.py:15 | a string with no white space at either end is its own strip |
| Text.Split | configen/utils.py:15 | `split(sep)` yields at least one field, and no field contains the separator |
| Text.JoinSplit | configen/utils.py:15 | joining the fields of `s.split(sep)` with `sep` gives `s` back |
| Text.SplitJoin | configen/utils.py:15 | splitting a `sep`-join of separator-free words gives the words back |
| Text.EmptyField | configen/utils.py:15 | `split` yields an empty field iff the string is empty, starts or ends with the separator, or holds two separators in a row |
| Text.JoinWithout | configen/utils.py:15 | a join never contains a character absent from the words and the separator |
| Text.JoinSnoc | configen/parts_cpp.py:16 | `sep.join`: joining one more word appends the separator and that word to the join |
| Text.NatToDecimal | configen/parts_cpp.py:62-64 | `str(n)` is a non-empty run of decimal digits with no leading zero |
| Text.IntToDecimal | configen/parts_cpp.py:165-166 | `str(i)` of a bound is non-empty and starts with `-` exactly for a negative value |
| Text.IntToDecimalValue | configen/parts_cpp.py:184 | the text `str(i)` of an integer bound reads back as the same integer |
| Utils.Capitalize | configen/utils.py:15 | `w[0].upper() + w[1:]`: same length, first character upper-cased, rest unchanged |
| Utils.CapitalizeWords | configen/utils.py:15 | one capitalised word per word, in order |
| Utils.Words | configen/utils.py:15 | the fields of the stripped name: at least one, none containing `'_'` |
| Utils.WordsJoin | configen/utils.py:15 | the fields joined with `'_'` are the stripped name |
| Utils.ToCamelCase | configen/utils.py:8-15 | `''` maps to `''`; otherwise it raises IndexError iff some field of the stripped name is empty; a result never contains `'_'` |
| Utils.ToCamelCaseFails | configen/utils.py:15 | a non-empty name fails iff its stripped form is empty, starts or ends with `'_'`, or holds `'__'` |
| Utils.ToCamelCaseFixpoint | configen/utils.py:11-15 | a name with no `'_'`, no surrounding white space and a first character that upper-casing leaves alone is returned unchanged |
| Utils.StrippedEnds | configen/utils.py:15 | when no field is empty, the stripped name starts with the first field's first character and ends with the last field's last character |
| Utils.CapitalizedJoinEnds | configen/utils.py:15 | capitalised fields run together start with an upper-case-stable character and have no white space at either end |
| Utils.CamelCaseEnds | configen/utils.py:15 | a non-empty result starts with an upper-case-stable, non-space character and does not end with white space |
| Utils.ToCamelCaseIdempotent | configen/utils.py:11-15 | applying `to_camel_case` to one of its own results gives that result again |
| Utils.ToCamelCaseOfWords | configen/utils.py:15 | non-empty, `'_'`-free words joined by `'_'` (no white space at the ends) become their capitalisations run together |
| Utils.CapitalizedExamples | configen/test/test_utils.py:6-10 | capitalising and concatenating the fields of the test names gives `T`, `Test`, `TestVar` |
| Utils.ToCamelCaseWordExamples | configen/test/test_utils.py:5-7 | `''` → `''`, `'t'` → `'T'`, `'test'` → `'Test'` |
| Utils.ToCamelCaseLowerExample | configen/test/test_utils.py:8 | `'test_var'` → `'TestVar'` |
| Utils.ToCamelCaseCapitalExamples | configen/test/test_utils.py:9-10 | `'Test_Var'` → `'TestVar'` and `'TestVar'` → `'TestVar'` |
| Utils.Pow2Monotone | configen/utils.py:31 | powers of two grow with the exponent |
| Utils.CeilLog2 | configen/utils.py:31 | `ceil(log2(n))` is the least k with n ≤ 2^k |
| Utils.CeilLog2Exact | configen/utils.py:31 | the two defining inequalities determine the exponent |
| Utils.CeilLog2Monotone | configen/utils.py:31 | the exponent never decreases as n grows |
| Utils.RequiredLength | configen/utils.py:31-33 | the least k with v ≤ 2^k for a positive value; for a negative value one more than the least k with -v ≤ 2^k |
| Utils.FirstAtLeast | configen/utils.py:34-36 | the index of the first table entry ≥ r: every earlier entry is smaller |
| Utils.BitLengthToHold | configen/utils.py:18-37 | 0 gives 0; otherwise the least standard width ≥ the required length (magnitude bits, plus one for a negative value); `NameError('_STANDARD_LENGTHS')` iff that length exceeds 64 |
| Utils.CalculateIntBitLengthToHold | configen/utils.py:29-37 | the loop over the standard widths returns exactly what `BitLengthToHold` specifies, the error included |
| Utils.BitLengthMonotone | configen/utils.py:31-36 | for a fixed sign the width never decreases as the magnitude grows, and an overflow at one magnitude implies overflow at every larger one |
| Utils.BitLengthBound | configen/utils.py:31-36 | a returned width w bounds the value: v ≤ 2^w if positive, -v ≤ 2^(w-1) if negative |
| Utils.BitLengthPowerOfTwoEdge | configen/utils.py:23-26 | 128 and 256 both give 8 bits, although 256 exceeds the 8-bit unsigned maximum: the edge case the todo note admits |
| Utils.BitLengthPastPowerOfTwo | configen/utils.py:31-36 | 257 gives 16 bits |
| Utils.BitLengthNegativeEdge | configen/utils.py:31-36 | -128 gives 8 bits and -129 gives 16 |
| PartsCpp.ToNamespacePrefix | configen/parts_cpp.py:12-16 | empty iff the namespace is empty; otherwise ends in `'::'` |
| PartsCpp.NamespacePrefixSnoc | configen/parts_cpp.py:12-16 | appending a component appends it and one `'::'` to the prefix |
| PartsCpp.Qualified | configen/parts_cpp.py:62-64 | the `{ns}{name}` fill: ends with the infix and the last component, and a one-component name has no namespace prefix |
| PartsCpp.ToTypeName | configen/parts_cpp.py:19-20 | same length, each component camel-cased; IndexError iff some component fails to camel-case |
| PartsCpp.QualifiedIsJoin | configen/parts_cpp.py:62-64 | the namespace prefix of the leading components followed by the last component is all components joined by `'::'` |
| PartsCpp.IsUnsigned | configen/parts_cpp.py:52-55 | the `'u'` prefix is chosen iff a minimum is present and ≥ 0 |
| PartsCpp.IntegerBitLength | configen/parts_cpp.py:56-60 | 32 when both bounds are absent or 0; otherwise the least standard width holding both bounds; the NameError iff no width up to 64 holds them |
| PartsCpp.IntegerBitLengthOf | configen/parts_cpp.py:56-60 | the width is the larger of the two bound widths when either is non-zero |
| PartsCpp.IntegerResolutionUnbounded | configen/parts_cpp.py:36-41 | `{}` → signed 32, `{minimum: 0}` → unsigned 32, `{maximum: 0}` → signed 32 |
| PartsCpp.IntegerResolutionSigned | configen/parts_cpp.py:42-43 | `{maximum: 128}` → signed 8 |
| PartsCpp.IntegerResolutionNegative | configen/parts_cpp.py:44-45 | `{maximum: 128, minimum: -129}` → signed 16 |
| PartsCpp.IntegerResolutionUnsigned | configen/parts_cpp.py:46-47 | `{maximum: 129, minimum: 0}` → unsigned 8 |
| PartsCpp.MakeIntegerTypedef | configen/parts_cpp.py:23-64 | succeeds iff the width resolves, the name camel-cases and is non-empty; a width failure raises the NameError before any name is looked at, otherwise the failure is IndexError; the typedef names the joined qualified type, unsigned exactly for a non-negative minimum |
| PartsCpp.MakeNumberTypedef | configen/parts_cpp.py:67-71 | a `double` typedef of the joined qualified name; fails iff the name is empty or fails to camel-case |
| PartsCpp.MakeStringTypedef | configen/parts_cpp.py:74-78 | a `std::string` typedef of the joined qualified name, with the same failure condition |
| PartsCpp.MakeTypedef | configen/parts_cpp.py:81-83 | integer, number and string dispatch to their makers; any other type raises KeyError of that type |
| PartsCpp.MakeInitDeclaration | configen/parts_cpp.py:86-99 | `Init<Name>` in the namespace of the leading components, taking a pointer to the fully qualified type |
| PartsCpp.MakeValidateDeclaration | configen/parts_cpp.py:102-113 | `Validate<Name>` in the namespace of the leading components, taking a const reference to the fully qualified type |
| PartsCpp.IndentLine | configen/parts_cpp.py:116-122 | two spaces followed by the line |
| PartsCpp.IndentLines | configen/parts_cpp.py:116-123 | one indented line per line, in order |
| PartsCpp.CallLine | configen/parts_cpp.py:129-134 | a member's call line exists iff its path is non-empty and camel-cases; otherwise IndexError |
| PartsCpp.CallLines | configen/parts_cpp.py:126-135 | on success one call line per member; the only failure is IndexError |
| PartsCpp.CallLinesAt | configen/parts_cpp.py:126-135 | on success, one call per member, and call i is member i's call |
| PartsCpp.CallLinesOk | configen/parts_cpp.py:126-135 | the calls succeed iff every member's call does; otherwise IndexError |
| PartsCpp.GenerateCallsForMembers | configen/parts_cpp.py:126-135 | the append loop returns the member-by-member call list, or the first member's error |
| PartsCpp.MakeInitDefinition | configen/parts_cpp.py:138-163 | declaration + `' {'`, then `*val = default;` exactly when a default is given, then the indented Init calls in member order, then `}`; 2 + [default] + \|members\| lines |
| PartsCpp.BoundChecks | configen/parts_cpp.py:165-184 | the minimum check, then the maximum check, each only when its bound is given |
| PartsCpp.AndAssignLines | configen/parts_cpp.py:185 | one `result &= ` line per check, in order |
| PartsCpp.ValidateLayoutOf | configen/parts_cpp.py:179-188 | the lines assembled from a declaration, calls and bounds have the validate-definition shape: declaration + `' {'`, `bool result = true;`, one `result &=` line per call in order, the minimum check, then the maximum check, `return result;`, `}`; 4 + calls + bounds lines |
| PartsCpp.MakeValidateDefinition | configen/parts_cpp.py:168-188 | fails (IndexError) iff the declaration or a member call fails; otherwise there is one call per member and the lines have the validate-definition shape for the declaration, the member calls in order and the bounds |
| Generate.Walk | configen/generate.py:27-45 | the callbacks for the entries in insertion order; the only errors are KeyError('type') and KeyError('properties') |
| Generate.WalkEntry | configen/generate.py:36-44 | one entry's callbacks: never empty on success; the same two KeyErrors |
| Generate.WalkOk | configen/generate.py:35-45 | the walk succeeds iff every entry reached without crossing a `$ref` has a type, and every such object has properties |
| Generate.WalkEntryOk | configen/generate.py:36-44 | the same condition for one entry |
| Generate.WalkLength | configen/generate.py:35-45 | the trace has 2 × (reachable objects) + (other reachable entries) callbacks |
| Generate.WalkEntryLength | configen/generate.py:36-44 | the same count for one entry |
| Generate.ReferenceEntry | configen/generate.py:36-38 | a `$ref` entry makes exactly one reference callback, whatever its type or properties |
| Generate.VariableEntry | configen/generate.py:43-44 | a typed non-object entry makes exactly one variable callback |
| Generate.ScanAppend | configen/generate.py:39-42 | matching object starts and ends over a concatenation is matching each part in turn |
| Generate.WalkBalanced | configen/generate.py:39-42 | object starts and ends in a trace are properly nested and matched by name |
| Generate.WalkEntryBalanced | configen/generate.py:39-42 | the same for one entry's callbacks |
| Generate.DispatchedAppend | configen/generate.py:35 | top-level dispatches of a concatenation are those of each part in turn |
| Generate.WalkDispatched | configen/generate.py:35 | the top-level callbacks name the mapping's keys, once each, in insertion order, and the depth is restored |
| Generate.WalkEntryDispatched | configen/generate.py:35-44 | one entry makes exactly one top-level dispatch, under its own name |
| Generate.ConvertSchemaToLanguage | configen/generate.py:17-24 | KeyError for an unknown language; otherwise `start`, then the walk, then `end`, or the walk's KeyError |
| Generate.ConvertSchemaToLanguageOk | configen/generate.py:17-24 | succeeds iff the language is C++ and the schema is well formed, and then its trace is balanced |
| GeneratorCpp.WithHeader | configen/generator_cpp.py:28-30 | only `header` changes: the lines, indented to the current depth, are appended |
| GeneratorCpp.WithSrc | configen/generator_cpp.py:32-33 | only `src` changes: the lines are appended unindented |
| GeneratorCpp.WithForward | configen/generator_cpp.py:35-37 | only `forward_definitions` changes: the lines, indented to the current depth, are appended |
| GeneratorCpp.Pushed | configen/generator_cpp.py:39-42 | the same number of lists; only the innermost one grows, by the added members |
| GeneratorCpp.PushedTwice | configen/generator_cpp.py:39-42 | recording a, then b, is recording a + b |
| GeneratorCpp.WithMember | configen/generator_cpp.py:39-42 | no-op with no list open; otherwise `[type_, name]` is appended to the innermost list only |
| GeneratorCpp.MemberDeclaration | configen/generator_cpp.py:79 | the camel-cased type, a space, the name and `;`; fails iff the name fails to camel-case |
| GeneratorCpp.IncludeLines | configen/generator_cpp.py:48-49 | no include lines without includes |
| GeneratorCpp.IncludeLinesAppend | configen/generator_cpp.py:48-49 | the include lines of `a + b` are those of `a` then those of `b`: one include block per file, in order |
| GeneratorCpp.StartSpec | configen/generator_cpp.py:44-54 | the namespace is stored; header file += guard front, includes, namespace begin; source file += own-header include, namespace begin; nothing else changes |
| GeneratorCpp.StopSpec | configen/generator_cpp.py:56-64 | header file += forward definitions, header, namespace end, guard back; source file += src, namespace end; nothing else changes |
| GeneratorCpp.AddReferenceSpec | configen/generator_cpp.py:66-68 | records `[ref.split('.'), name]` in the innermost members list and writes no line; KeyError('$ref') without a reference |
| GeneratorCpp.VariableFunctions | configen/generator_cpp.py:82-87 | the header gets, at the current indent, a blank line, the init declaration and the validate declaration (each with `;`); src gets the init then the validate definition of the qualified name; nothing else changes |
| GeneratorCpp.AddVariableSpec | configen/generator_cpp.py:70-87 | stacks, files and namespace unchanged; succeeds iff the type resolves to a typedef and, inside a class, the name camel-cases; records the qualified member only inside a class |
| GeneratorCpp.AddVariableRouting | configen/generator_cpp.py:72-87 | the typedef goes to the forward definitions at top level; inside a class the forward definitions are untouched and the header gets the typedef followed by the member declaration `ToCamelCase(name) + ' ' + name + ';'`; the definitions go to src in order |
| GeneratorCpp.StartObjectSpec | configen/generator_cpp.py:92-112 | the header gets a blank line, the init and validate declarations (`static` inside a class), a blank line and the class opening; pushes the name and an empty members list, indents one level, registers a nested object in its enclosing list, adds the class's forward definition; src, files and namespace unchanged |
| GeneratorCpp.EndObjectSpec | configen/generator_cpp.py:114-130 | the header first gets a blank line and the constructor and IsValid declarations; IndexError with no members list open; otherwise the init and validate definitions built from the innermost list go to src; then IndexError with no class open, or both stacks popped, the indent decreased, the class closed in the header and, inside an enclosing class, its member declaration added; the invariant is kept |
| GeneratorCpp.LeaveClass | configen/generator_cpp.py:123-130 | pops both stacks, outdents, closes the class in the header, and declares it as a member when a class remains open |
| GeneratorCpp.ClassDefinitions | configen/generator_cpp.py:120-122 | the init definition, then the validate definition, of the class, both from `{}` and its recorded members |
| GeneratorCpp.Step | configen/generate.py:36-44 | `start`, `start_object` and `stop` never raise; `start` stores the namespace; no callback but `start` and `stop` touches the files or the namespace |
| GeneratorCpp.Steps | configen/generate.py:20-24 | the empty trace changes nothing, and a one-callback trace is that callback |
| GeneratorCpp.StepsAppend | configen/generate.py:20-24 | running a concatenation is running its parts in turn, stopping at the first exception |
| GeneratorCpp.Registered | configen/generator_cpp.py:66-95 | one member per entry of a mapping, in insertion order: the split reference or the qualified name |
| GeneratorCpp.PushedNothing | configen/generator_cpp.py:39-42 | recording no members changes nothing |
| GeneratorCpp.ReferenceEffect | configen/generator_cpp.py:66-68 | `add_reference` keeps the invariant and the stacks, and records its member |
| GeneratorCpp.VariableEffect | configen/generator_cpp.py:70-87 | `add_variable` keeps the invariant and the stacks, and records its member |
| GeneratorCpp.ObjectStartEffect | configen/generator_cpp.py:92-112 | `start_object` keeps the invariant and opens the class |
| GeneratorCpp.ObjectEndEffect | configen/generator_cpp.py:114-130 | `end_object` keeps the invariant, closes the innermost class and emits its definitions |
| GeneratorCpp.GeneratorDisciplined | configen/generator_cpp.py:44-130 | every callback, from every valid state, keeps the stack discipline above |
| GeneratorCpp.WalkSteps | configen/generator_cpp.py:92-130 | a successful run over a mapping's callbacks restores the class stack and indent, leaves files and namespace alone, and records one member per entry in order |
| GeneratorCpp.WalkEntrySteps | configen/generator_cpp.py:92-130 | one entry's callbacks record its member; an object's end with its class's definitions in src |
| GeneratorCpp.WalkObjectSteps | configen/generate.py:39-42 | an object's start, properties and end restore the stacks and emit the definitions built from exactly its properties' members |
| GeneratorCpp.OpenClass | configen/generator_cpp.py:110-112 | the object start pushes the class name and an empty members list |
| GeneratorCpp.CloseClass | configen/generator_cpp.py:120-127 | the object end after the properties pops back to the enclosing state and emits the class's definitions |
| GeneratorCpp.FilesLayout | configen/generator_cpp.py:44-64 | after a full run the header file is guard front, includes, namespace begin, forward definitions, header, namespace end, guard back; the source file is own include, namespace begin, src, namespace end; no class is left open |
| GeneratorCpp.CppGenerator.constructor | configen/generator_cpp.py:7-19 | empty buffers and stacks; file name `'config'` when missing or empty; includes `[]` when missing; guard is the file name and the time stamp |
| GeneratorCpp.CppGenerator.ToHeader | configen/generator_cpp.py:28-30 | the new state is `WithHeader` of the old |
| GeneratorCpp.CppGenerator.ToSrc | configen/generator_cpp.py:32-33 | the new state is `WithSrc` of the old |
| GeneratorCpp.CppGenerator.ToForwardDefinitions | configen/generator_cpp.py:35-37 | the new state is `WithForward` of the old |
| GeneratorCpp.CppGenerator.ToMembers | configen/generator_cpp.py:39-42 | the new state is `WithMember` of the old |
| GeneratorCpp.CppGenerator.Start | configen/generator_cpp.py:44-54 | the new state is `StartSpec` of the old (include loop proved by invariant) |
| GeneratorCpp.CppGenerator.Stop | configen/generator_cpp.py:56-64 | the new state is `StopSpec` of the old |
| GeneratorCpp.CppGenerator.AddReference | configen/generator_cpp.py:66-68 | state and exception are `AddReferenceSpec` of the old state |
| GeneratorCpp.CppGenerator.AddVariable | configen/generator_cpp.py:70-87 | state and exception are `AddVariableSpec` of the old state |
| GeneratorCpp.CppGenerator.StartObject | configen/generator_cpp.py:92-112 | the new state is `StartObjectSpec` of the old |
| GeneratorCpp.CppGenerator.EndObject | configen/generator_cpp.py:114-130 | state and exception are `EndObjectSpec` of the old state |
| GeneratorCpp.CppGenerator.ExitScope | configen/generator_cpp.py:123-130 | state and exception are `LeaveClass` of the old state |
| GeneratorCpp.CppGenerator.Dispatch | configen/generate.py:36-44 | the method a callback selects changes the state as `Step` says |
| GeneratorCpp.CppGenerator.Run | configen/generate.py:20-24 | running a trace's callbacks one by one gives `Steps` of the old state |

## Left out

- `json.loads` in `convert_json` is not modelled; the model starts from an already-parsed schema (`Schema.Node`). A schema node keeps only the keys the core reads: `$ref`, `type`, `properties`, `minimum`, `maximum`, `default`.
- Text.ToUpper: `str.upper()` is modelled for ASCII only; non-ASCII letters are left unchanged.
- Utils.CeilLog2: `m.ceil(m.log2(abs(v)))` is read as its exact integer meaning, not IEEE floating point.
- Utils.BitLengthToHold: the admitted 2^k edge results and the `NameError` fall-through are modelled as written, not corrected.
- `rewrite` and the `format`/`format_map` templates are modelled as string concatenation.
- Schema.Node: `minimum` and `maximum` are integers. A `number` schema with fractional bounds (e.g. `minimum: 0.5`, written by `make_validate_definition` as `(val >= 0.5);`) cannot be represented, because floating point is not modelled.
- The `default` property is kept as the text `str()` gives for it, since any JSON value may appear there.
- `to_namespace_prefix(None)` is not modelled: a namespace is always a list, and `None` behaves like the empty list.
- The `make_integer_typedef` doctests pass a bare string as the name. The model takes a name as a list of identifiers, so only the sign and width parts of those examples are stated (the `IntegerResolution*` lemmas).
- The `cpp.*` helpers `CppGenerator` calls (`indent`, `include`, `header_guard_*`, `namespace_*`, `init/validate_declaration/definition`, `class_*`, `constructor_declaration`, `isvalid_declaration`) are not defined by the modelled code. They are uninterpreted functions in `GeneratorCpp.CppParts`, and a helper that returns one string is modelled as returning a one-line list.
- `_to_line_list` (configen/generator_cpp.py:22-26): a single string and a list of lines are the same thing here, because every routed value is a list of lines.
- The header guard's `datetime.now()` time stamp is a constructor parameter.
- `add_array` only prints and is not modelled. The print-only callbacks in configen/generators_cpp.py are replaced by the walk's trace of `Generate.Event`s.
- The `schema` and `namespace` parameters of `start`, `stop`, `start_object` and `end_object` are not modelled because those methods never read them (`start` reads only `namespace`).
- GeneratorCpp.Step, `Steps`, `CppGenerator.Dispatch` and `CppGenerator.Run` are model additions. The source never connects `convert_schema` to `CppGenerator`; these drive the generator with the walk's callbacks, matched by name.
- Generate.Walk returns only the error when the walk raises, not the callbacks made before the exception.
- On the Python side, a method that raises leaves partial updates behind. `EndObjectSpec`, `AddVariableSpec` and `LeaveClass` keep those partial updates, and `Steps` stops at the first exception.
