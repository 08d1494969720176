/** The parts of SwiftSyntax's tree that the macros inspect, as plain values.
    Texts the source obtains with `trimmedDescription` or `.text` are given as
    strings; the one `description` that the source trims itself (the receiver
    of a `resolve` call) keeps its surrounding trivia and is given as a Text,
    Character by Character. */
module SyntaxModel {
  import opened SwiftStdlib

  /** `async` / `throws` specifiers of a function signature or an accessor. */
  datatype EffectSpecifiers = EffectSpecifiers(hasAsync: bool, hasThrowsClause: bool)

  /** A type written in an attribute name. */
  datatype TypeSyntax = IdentifierType(name: string) | OtherType

  /** One argument of an attribute: its label and the `description` of its
      expression. */
  datatype LabeledExpr = LabeledExpr(argumentLabel: Option<string>, description: string)

  datatype AttributeArguments = ArgumentList(items: seq<LabeledExpr>) | OtherArguments

  /** `@Name(arguments)` */
  datatype Attribute = Attribute(attributeName: TypeSyntax, arguments: Option<AttributeArguments>)

  /** An element of an attribute list: an attribute, or an `#if` block. */
  datatype AttributeListElement = AttributeElement(attribute: Attribute) | IfConfigElement

  /** A function parameter, by its first (argument label) name. */
  datatype Parameter = Parameter(firstName: string)

  datatype AccessorSpecifier = GetKeyword | OtherAccessorKeyword

  /** `get async throws { ... }`, `set { ... }`, ... */
  datatype Accessor = Accessor(specifier: AccessorSpecifier, effectSpecifiers: Option<EffectSpecifiers>)

  /** `{ get ... set ... }` or a bare getter body `{ ... }`. */
  datatype AccessorBlock = AccessorList(accessors: seq<Accessor>) | SingleGetter

  datatype Pattern = IdentifierPattern(identifier: string) | OtherPattern

  /** One `name: Type { accessors }` binding of a variable declaration; the
      type is its trimmed description. */
  datatype PatternBinding = PatternBinding(pattern: Pattern, typeAnnotation: Option<string>,
                                           accessorBlock: Option<AccessorBlock>)

  /** An expression passed as an argument (only member accesses and
      declaration references matter to the visitor). */
  datatype Expr =
    | MemberAccess(base: Option<Expr>, declName: string)
    | DeclReference(baseName: string)
    | OtherExpr

  /** The called expression of a call: `base.name`, with the base given by its
      `description`, or anything else. */
  datatype Callee = MemberCallee(base: Option<Text>, declName: string) | OtherCallee

  /** A function call expression: what is called and the expressions of its
      arguments, in order. */
  datatype FunctionCall = FunctionCall(calledExpression: Callee, arguments: seq<Expr>)

  /** A node of the syntax tree as a visitor walks it: a function call or some
      other node, with its children in source order. */
  datatype Node = Node(call: Option<FunctionCall>, children: seq<Node>)

  /** A member declaration. `syntax` is the whole declaration as a tree:
      attributes, signature and body. */
  datatype Decl =
    | FunctionDecl(attributes: seq<AttributeListElement>, name: string, parameters: seq<Parameter>,
                   effectSpecifiers: Option<EffectSpecifiers>, returnType: Option<string>, syntax: Node)
    | VariableDecl(attributes: seq<AttributeListElement>, bindings: seq<PatternBinding>, syntax: Node)
    | OtherDecl
}
