# WeaverMacros in Dafny

WeaverMacros is the compile-time layer of the Weaver dependency-injection
library: two Swift macros that rewrite declarations into calls against the
Weaver runtime.

- `@Register` is attached to a factory: a function with a return type, or a
  property with a type annotation. It declares a peer key type `_<name>Key`.
  The key's default value stops the program with a message naming the
  missing type.
- `@Registrar` is attached to a type. It writes a `configure(_ builder:)`
  method that makes one `builder.register(...)` call per `@Register` member.
  Each call gives the key, the scope (`.container` by default), the
  dependency names found in the factory, and a closure that calls the
  factory with the right `try`/`await` keywords. The macro also adds
  `Module` conformance when the type does not already have it.

The runtime these calls target (builder, container, scope cache, cycle
detection) lives in the separate `Weaver` package and is not modelled.

The model has one module per part of
`Sources/WeaverMacrosImpl/WeaverMacros.swift`:

- `SwiftStdlib` holds the Swift library behaviour the code relies on:
  optionals, `throws` as a `Result`, `first(where:)`, `contains(where:)`,
  `compactMap` and `joined`. Where the source indexes or compares a String
  Character by Character, the model does too: a `Character` is a grapheme
  cluster (a nonempty sequence of Unicode scalars), and a `Text` is a
  sequence of them.
- `Trim` models `trimWhitespace`. It is a method with the source's two
  loops, proved equal to a function `Trimmed`. `Trimmed` is then
  characterised independently: `Trimmed(s) == t` exactly when `t` is a
  contiguous piece of `s` with only whitespace outside it and no whitespace
  at its own ends. A carriage return followed by a line feed is a single
  Swift Character, equal to neither `"\r"` nor `"\n"`. The loops therefore
  do not strip it, and neither does the model. In a file with CR LF line
  ends, a `resolver` receiver that begins a new line keeps the pair in front
  of it, so its `resolve` call is not counted as a dependency, while a
  receiver ending in `container` still counts.
- `SyntaxModel` replaces the SwiftSyntax nodes the macros inspect with plain
  datatypes. A declaration also carries its whole syntax as a tree of
  nodes, in source order; some nodes are function calls.
- `Visitor` models `ResolveCallVisitor` as a class. Its mutable
  `resolvedDependencies` field grows as `Visit` and `Walk` run. `Walk` is
  proved to leave exactly the `compactMap` of the qualifying key names over
  the tree's calls in pre-order.
- `Registration` models `RegistrationInfo.init?` in two forms. `Info` is the
  specification function. `NewRegistrationInfo` is a method that runs the
  checks in the source's order and then walks a fresh visitor; it is proved
  equal to `Info`. The module also holds `getFirstGetter`,
  `isRegisterMacro` and `scopeArgument`.
- `RegisterMacro` and `RegistrarMacro` model the three macro expansions.
  The register calls are kept as a datatype. Functions render the calls,
  the key type and the `configure` method in the source's layout.

The source spells the key name `"_\(name)Key"` in two places (lines 27 and
55). The model keeps both spellings (`RegisterMacro.KeyTypeName`,
`RegistrarMacro.KeyTypeName`). `MacrosAgreeOnKey` proves that the two
macros name the same key for every registrable member.

## Model

| member | source | states |
|---|---|---|
| `Trim.TrimWhitespace` | Sources/WeaverMacrosImpl/WeaverMacros.swift:152-172 | the two loops (advance `start` over leading whitespace, then move `end` back over trailing whitespace but never below `start`) return exactly `Trimmed(s)` |
| `Trim.TrimmedIsTrimOf` | Sources/WeaverMacrosImpl/WeaverMacros.swift:157-171 | the result is a contiguous piece `s[i..j]` of the input; everything before `i` and after `j` is space, tab, `\n` or `\r`; its first and last Characters are not; the interior is untouched |
| `Trim.TrimOfIsTrimmed` | Sources/WeaverMacrosImpl/WeaverMacros.swift:157-171 | conversely, any piece of the input with whitespace only outside it and non-whitespace ends is the result, so the trim is unique |
| `Trim.TrimmedIff` | Sources/WeaverMacrosImpl/WeaverMacros.swift:152-172 | `Trimmed(s) == t` if and only if `t` is such a whitespace-bounded piece of `s` |
| `Trim.TrimIdempotent` | Sources/WeaverMacrosImpl/WeaverMacros.swift:157-171 | trimming an already trimmed string returns it unchanged |
| `Trim.TrimmedEmptyIffAllWhitespace` | Sources/WeaverMacrosImpl/WeaverMacros.swift:157-169 | the result is empty if and only if the input is whitespace only |
| `Trim.TrimIgnoresPadding` | Sources/WeaverMacrosImpl/WeaverMacros.swift:132-135 | whitespace added on either side of a receiver's text does not change its trim |
| `Trim.CrLfNotTrimmed` | Sources/WeaverMacrosImpl/WeaverMacros.swift:157-169 | for every text, a trailing CR LF pair survives the trim, as does any whitespace before it; only leading whitespace is removed. The pair is one Swift Character, equal to neither `"\r"` nor `"\n"` |
| `Visitor.ResolvedKey` | Sources/WeaverMacrosImpl/WeaverMacros.swift:121-147 | a call contributes a key only if it is `base.resolve(...)` whose trimmed receiver qualifies, and the key is `K` where the first argument is exactly `K.self`; every such call contributes |
| `Visitor.ResolveCallVisitor.constructor` | Sources/WeaverMacrosImpl/WeaverMacros.swift:115-119 | a new visitor has an empty dependency list |
| `Visitor.ResolveCallVisitor.Visit` | Sources/WeaverMacrosImpl/WeaverMacros.swift:121-148 | visiting a call appends exactly the key name `ResolvedKey` gives, if any: for `base.resolve(K.self)` whose trimmed base is `resolver` or ends in `container`, it appends `K`; otherwise the list is unchanged |
| `Visitor.ResolveCallVisitor.Walk` | Sources/WeaverMacrosImpl/WeaverMacros.swift:264-266 | walking a tree appends exactly `Dependencies(tree)`, the qualifying key names of its calls in pre-order |
| `Visitor.DependenciesFollowCallSites` | Sources/WeaverMacrosImpl/WeaverMacros.swift:121-147 | the list has one entry per qualifying call, duplicates kept; the `i`-th call, when it qualifies, supplies the entry after those of the qualifying calls before it |
| `Visitor.NestedDependencies` | Sources/WeaverMacrosImpl/WeaverMacros.swift:121-147 | calls nested under a node are included, as one block after the node's own call and the earlier children's entries |
| `Visitor.ResolvedKeyIgnoresPadding` | Sources/WeaverMacrosImpl/WeaverMacros.swift:132-135 | surrounding a call's receiver text with whitespace does not change what the call contributes |
| `Visitor.ReceiverExamples` | Sources/WeaverMacrosImpl/WeaverMacros.swift:135 | ` resolver\n` and `self.container` qualify; `resolvers` does not |
| `Visitor.CrLfReceiverDropped` | Sources/WeaverMacrosImpl/WeaverMacros.swift:132-135 | for any whitespace indentation, a receiver written as CR LF, the indentation, then `resolver` does not qualify, so `resolver.resolve(A.self)` there contributes nothing |
| `Visitor.CrLfContainerKept` | Sources/WeaverMacrosImpl/WeaverMacros.swift:132-135 | for any whitespace indentation, a receiver written as CR LF, the indentation, then `self.container` still qualifies, and `resolve(A.self)` on it contributes `A` |
| `Visitor.NestedAndRepeatedCallsExample` | Sources/WeaverMacrosImpl/WeaverMacros.swift:139-147 | a tree with nested calls and a repeated key yields `["A", "B", "A"]`, and the call on `resolvers` is dropped |
| `Registration.IsRegisterMacro` | Sources/WeaverMacrosImpl/WeaverMacros.swift:284-286 | an `#if` element of an attribute list is never `@Register`; an attribute is `@Register` exactly when its name is the plain identifier `Register` |
| `Registration.FindRegisterAttribute` | Sources/WeaverMacrosImpl/WeaverMacros.swift:254 | the result is the first attribute named by the plain identifier `Register`; it is nil exactly when there is none |
| `Registration.ScopeArgument` | Sources/WeaverMacrosImpl/WeaverMacros.swift:288-292 | the scope is the text of the first argument if and only if that argument is labelled `scope`; a `scope:` argument in any other position is ignored |
| `Registration.GetFirstGetter` | Sources/WeaverMacrosImpl/WeaverMacros.swift:271-281 | the result is the first `get` accessor of an accessor list; it is nil exactly for a bare getter body or a list without `get` |
| `Registration.GetterEffects` | Sources/WeaverMacrosImpl/WeaverMacros.swift:236-242 | a property without an accessor block, or with a bare getter, has no effects; otherwise any effects are those of its first `get` accessor |
| `Registration.FunctionFactoryParameter` | Sources/WeaverMacrosImpl/WeaverMacros.swift:212-217 | the closure parameter is `_` exactly when the function has no parameters |
| `Registration.FunctionFactoryArgument` | Sources/WeaverMacrosImpl/WeaverMacros.swift:212-228 | the argument list is parenthesised, is `()` exactly when there are no parameters, and otherwise ends by passing `resolver` |
| `Registration.Info` | Sources/WeaverMacrosImpl/WeaverMacros.swift:192-267 | nil if and only if one of these holds: the declaration is neither a function nor a variable; a function has no return type; a variable has no first binding, or that binding has no identifier pattern or no type annotation; there is no `@Register`. Otherwise the name and type are the function's name and return type, or the first binding's identifier and type annotation; the scope is that of the first `@Register`; the dependencies are those of the whole declaration |
| `Registration.NewRegistrationInfo` | Sources/WeaverMacrosImpl/WeaverMacros.swift:192-267 | running the checks in order and walking a fresh visitor over the declaration gives exactly `Info` |
| `Registration.FactorySpelling` | Sources/WeaverMacrosImpl/WeaverMacros.swift:211-248 | the closure parameter and call arguments are (`_`, `()`) with no parameters, (`resolver`, `(resolver)`) for an unlabelled first parameter, (`resolver`, `(L: resolver)`) for a first label `L`, and (`_`, empty) for a property |
| `Registration.EffectFlags` | Sources/WeaverMacrosImpl/WeaverMacros.swift:203-242 | `async`/`throws` come from a function's signature, or from the effects written on a property's first `get` accessor; a property with no accessor block, a bare getter or no `get` is neither |
| `RegisterMacro.Expansion` | Sources/WeaverMacrosImpl/WeaverMacros.swift:18-37 | throws `notAttachedToFunctionOrVariable` if and only if the declaration is not registrable; otherwise returns exactly one peer, the key type `_<name>Key` for the member's value type |
| `RegisterMacro.KeyTypeNameInjective` | Sources/WeaverMacrosImpl/WeaverMacros.swift:27 | different member names give different key type names |
| `RegistrarMacro.CallPrefix` | Sources/WeaverMacrosImpl/WeaverMacros.swift:59-61 | the prefix starts with `try ` if and only if the factory throws, ends with `await ` if and only if it is async, and has no other text |
| `RegistrarMacro.FactoryCall` | Sources/WeaverMacrosImpl/WeaverMacros.swift:59-63 | the factory call is `self.<name><arguments>` preceded by exactly `CallPrefix`: it starts with `try ` exactly when the factory throws, `await ` comes right before `self.` exactly when it is async, and nothing else precedes the call |
| `RegistrarMacro.CallFor` | Sources/WeaverMacrosImpl/WeaverMacros.swift:54-63 | the call registers under the same key name the peer macro declares, with the `@Register` scope or `.container`, and with the member's dependencies; its closure takes the member's factory parameter and makes `FactoryCall` |
| `RegistrarMacro.DependencyList` | Sources/WeaverMacrosImpl/WeaverMacros.swift:56 | the list is empty exactly when there are no dependencies, and otherwise starts with a double quote; its round trip is `DependencyListRoundTrip` |
| `RegistrarMacro.RegisterCallOf` | Sources/WeaverMacrosImpl/WeaverMacros.swift:51-52 | a member yields a register call if and only if it has registration information |
| `RegistrarMacro.RegistrationCalls` | Sources/WeaverMacrosImpl/WeaverMacros.swift:50-52 | as many register calls as members with registration information |
| `RegistrarMacro.CallsFollowMembers` | Sources/WeaverMacrosImpl/WeaverMacros.swift:50-73 | there is exactly one register call per registrable member, in member order, and all other members are skipped |
| `RegistrarMacro.MacrosAgreeOnKey` | Sources/WeaverMacrosImpl/WeaverMacros.swift:23-55 | the key type `@Register` declares beside a member is the key `@Registrar` registers that member under |
| `RegistrarMacro.ScopeOfCall` | Sources/WeaverMacrosImpl/WeaverMacros.swift:54 | the registered scope is the `scope:` argument's text, or `.container` (the macro's declared default) when there is none |
| `RegistrarMacro.DependencyListRoundTrip` | Sources/WeaverMacrosImpl/WeaverMacros.swift:56 | reading back the rendered list of double-quoted, comma-joined names gives the names, in order and with repeats (for names without a double quote) |
| `RegistrarMacro.MemberExpansion` | Sources/WeaverMacrosImpl/WeaverMacros.swift:43-82 | the member macro always produces exactly one member, the `configure` method |
| `RegistrarMacro.ExtensionExpansion` | Sources/WeaverMacrosImpl/WeaverMacros.swift:84-109 | there is no extension if and only if `Module` is already in the written inheritance clause or in the requested conformances; otherwise exactly one, `extension T: Module {}` |

## Left out

- The Weaver runtime (builder, container, scopes, caching, cycle detection) is in the external `Weaver` package named in Package.swift. None of its source is part of this model.
- SwiftSyntax parsing and printing are not modelled. The declaration trees, the `trimmedDescription` strings and the receiver's `description` (split into Characters) are inputs.
- Which nodes SwiftSyntax makes children of which is the parser's business. `Walk` walks whatever tree it is given, pre-order, always descending into children, as `visitChildren` does.
- Swift compares Strings up to canonical equivalence. The model compares exact scalars. This makes no difference for the ASCII names compared here (`Register`, `scope`, `resolve`, `self`, `resolver`, `container`, `Module`, `_`).
- `RegistrarMacro.MemberExpansion`: its contract states only that one member is produced. The register calls inside it are described by `CallsFollowMembers` and `DependencyListRoundTrip`. The whitespace of the rendered text (`RenderRegisterCall`, `ConfigureMethod`, `RegisterMacro.KeyStruct`, `RenderExtension`) follows the source's string literals, but no property about it is proved.
- `RegisterMacro.Expansion` ignores the attribute node it is expanded for and looks for `@Register` among the declaration's own attributes, as the source does. So `@Weaver.Register` (a qualified attribute name) throws.
- The `fatalError` message text is carried as an opaque constant.
- The possible failure of `ExtensionDeclSyntax(...)` when parsing the generated extension is not modelled. The extended type's text is an input.
- The compiler plugin entry point, the macro declarations in Sources/WeaverMacros/Macros.swift, and Package.swift contain no logic.
- The `async` keyword of the generated `configure` method is emitted as text only; no concurrency is modelled.
