/** `RegistrationInfo`: decides whether a member declaration is a factory
    marked `@Register` and, if so, extracts what the generated registration
    needs. */
module Registration {
  import opened SwiftStdlib
  import opened SyntaxModel
  import Visitor

  datatype RegistrationInfo = RegistrationInfo(
    name: string,
    typeName: string,
    scope: Option<string>,
    factoryParameter: string,
    factoryArgument: string,
    dependencies: seq<string>,
    isAsync: bool,
    isThrows: bool)

  /** `isRegisterMacro`, applied to an attribute-list element: an attribute
      whose name is the plain identifier `Register`. */
  function IsRegisterMacro(e: AttributeListElement): (r: bool)
    ensures e.IfConfigElement? ==> !r
    ensures e.AttributeElement? && e.attribute.attributeName == IdentifierType("Register") ==> r
    ensures r ==> e.attribute.attributeName.IdentifierType? && e.attribute.attributeName.name == "Register"
  {
    e.AttributeElement? && e.attribute.attributeName == IdentifierType("Register")
  }

  /** The first `@Register` attribute of a list, if any. */
  function FindRegisterAttribute(attributes: seq<AttributeListElement>): (r: Option<Attribute>)
    ensures r.None? <==> forall i :: 0 <= i < |attributes| ==> !IsRegisterMacro(attributes[i])
    ensures r.Some? ==> r.value.attributeName == IdentifierType("Register")
    ensures r.Some? ==> (exists i :: 0 <= i < |attributes| && attributes[i] == AttributeElement(r.value)
                                     && forall j :: 0 <= j < i ==> !IsRegisterMacro(attributes[j]))
  {
    match FirstWhere(attributes, IsRegisterMacro)
    case None => None
    case Some(i) => Some(attributes[i].attribute)
  }

  /** `scopeArgument`: the text of the attribute's first argument when that
      argument is labelled `scope`. */
  function ScopeArgument(attribute: Attribute): (r: Option<string>)
    ensures r.Some? <==> (attribute.arguments.Some? && attribute.arguments.value.ArgumentList?
                          && |attribute.arguments.value.items| > 0
                          && attribute.arguments.value.items[0].argumentLabel == Some("scope"))
    ensures r.Some? ==> r.value == attribute.arguments.value.items[0].description
  {
    if attribute.arguments.None? || !attribute.arguments.value.ArgumentList? then None
    else
      var items := attribute.arguments.value.items;
      if |items| == 0 || items[0].argumentLabel != Some("scope") then None
      else Some(items[0].description)
  }

  /** `getFirstGetter`: the first `get` accessor of an accessor list; a bare
      getter body has none. */
  function GetFirstGetter(accessorBlock: AccessorBlock): (r: Option<Accessor>)
    ensures r.None? <==> (accessorBlock.SingleGetter?
                          || forall i :: 0 <= i < |accessorBlock.accessors| ==> !accessorBlock.accessors[i].specifier.GetKeyword?)
    ensures r.Some? ==> r.value.specifier.GetKeyword?
    ensures r.Some? ==> (exists i :: 0 <= i < |accessorBlock.accessors| && accessorBlock.accessors[i] == r.value
                                     && forall j :: 0 <= j < i ==> !accessorBlock.accessors[j].specifier.GetKeyword?)
  {
    match accessorBlock
    case SingleGetter => None
    case AccessorList(accessors) =>
      match FirstWhere(accessors, (a: Accessor) => a.specifier.GetKeyword?)
      case None => None
      case Some(i) => Some(accessors[i])
  }

  /** The effect specifiers a computed property's factory inherits: those of
      its first `get` accessor. */
  function GetterEffects(accessorBlock: Option<AccessorBlock>): (r: Option<EffectSpecifiers>)
    ensures accessorBlock.None? || accessorBlock.value.SingleGetter? ==> r.None?
    ensures r.Some? ==> (accessorBlock.Some? && GetFirstGetter(accessorBlock.value).Some?
                         && r == GetFirstGetter(accessorBlock.value).value.effectSpecifiers)
  {
    if accessorBlock.None? then None
    else match GetFirstGetter(accessorBlock.value)
      case None => None
      case Some(getter) => getter.effectSpecifiers
  }

  predicate IsAsync(effects: Option<EffectSpecifiers>) {
    effects.Some? && effects.value.hasAsync
  }

  predicate IsThrows(effects: Option<EffectSpecifiers>) {
    effects.Some? && effects.value.hasThrowsClause
  }

  /** The closure parameter of a function factory: `_` when the function
      takes no parameter, `resolver` otherwise. */
  function FunctionFactoryParameter(parameters: seq<Parameter>): (r: string)
    ensures r == "_" <==> parameters == []
  {
    if |parameters| == 0 then "_" else "resolver"
  }

  /** The argument list the factory closure calls a function with: `()`,
      `(resolver)` for an unlabelled first parameter, `(L: resolver)` for a
      first parameter labelled `L`. */
  function FunctionFactoryArgument(parameters: seq<Parameter>): (r: string)
    ensures |r| >= 2 && r[0] == '(' && r[|r| - 1] == ')'
    ensures r == "()" <==> parameters == []
    ensures parameters != [] ==> |r| >= 10 && r[|r| - 9..] == "resolver)"
  {
    if |parameters| == 0 then "()"
    else if parameters[0].firstName != "_" then "(" + parameters[0].firstName + ": resolver)"
    else "(resolver)"
  }

  /** Every way a declaration fails to be a registrable factory. */
  predicate NotRegistrable(decl: Decl) {
    match decl
    case OtherDecl => true
    case FunctionDecl(attributes, _, _, _, returnType, _) =>
      returnType.None? || !HasRegisterAttribute(attributes)
    case VariableDecl(attributes, bindings, _) =>
      |bindings| == 0 || !bindings[0].pattern.IdentifierPattern? || bindings[0].typeAnnotation.None?
      || !HasRegisterAttribute(attributes)
  }

  predicate HasRegisterAttribute(attributes: seq<AttributeListElement>) {
    exists i :: 0 <= i < |attributes| && IsRegisterMacro(attributes[i])
  }

  /** The second half of `init?`: the declaration must carry `@Register`; its
      scope argument, the effects found so far and the dependencies of the
      whole declaration complete the record. */
  function WithRegisterAttribute(attributes: seq<AttributeListElement>, name: string, typeName: string,
                                 factoryParameter: string, factoryArgument: string,
                                 effects: Option<EffectSpecifiers>, syntax: Node): Option<RegistrationInfo>
  {
    match FindRegisterAttribute(attributes)
    case None => None
    case Some(attribute) =>
      Some(RegistrationInfo(name, typeName, ScopeArgument(attribute), factoryParameter, factoryArgument,
                            Visitor.Dependencies(syntax), IsAsync(effects), IsThrows(effects)))
  }

  /** `RegistrationInfo.init?`: nil exactly when the declaration is not a
      registrable factory; otherwise the scope comes from the first
      `@Register` attribute and the dependencies from a walk of the whole
      declaration. */
  function Info(decl: Decl): (r: Option<RegistrationInfo>)
    ensures r.None? <==> NotRegistrable(decl)
    ensures r.Some? && decl.FunctionDecl? ==> r.value.name == decl.name && r.value.typeName == decl.returnType.value
    ensures r.Some? && decl.VariableDecl?
      ==> r.value.name == decl.bindings[0].pattern.identifier && r.value.typeName == decl.bindings[0].typeAnnotation.value
    ensures r.Some? ==> r.value.dependencies == Visitor.Dependencies(decl.syntax)
    ensures r.Some? ==> FindRegisterAttribute(decl.attributes).Some?
    ensures r.Some? ==> r.value.scope == ScopeArgument(FindRegisterAttribute(decl.attributes).value)
  {
    match decl
    case OtherDecl => None
    case FunctionDecl(attributes, name, parameters, effects, returnType, syntax) =>
      if returnType.None? then None
      else WithRegisterAttribute(attributes, name, returnType.value,
                                 FunctionFactoryParameter(parameters), FunctionFactoryArgument(parameters),
                                 effects, syntax)
    case VariableDecl(attributes, bindings, syntax) =>
      if |bindings| == 0 || !bindings[0].pattern.IdentifierPattern? || bindings[0].typeAnnotation.None? then None
      else WithRegisterAttribute(attributes, bindings[0].pattern.identifier, bindings[0].typeAnnotation.value,
                                 "_", "", GetterEffects(bindings[0].accessorBlock), syntax)
  }

  /** `RegistrationInfo(declaration)` as the source runs it: the checks in
      order, then a fresh `ResolveCallVisitor` walked over the declaration. */
  method NewRegistrationInfo(declaration: Decl) returns (info: Option<RegistrationInfo>)
    ensures info == Info(declaration)
  {
    var attributes: seq<AttributeListElement>;
    var isAsync := false;
    var isThrows := false;
    var name: string, typeName: string, factoryParameter: string, factoryArgument: string;

    if declaration.FunctionDecl? {
      if declaration.returnType.None? {
        assert Info(declaration) == None;
        return None;
      }
      attributes := declaration.attributes;
      if declaration.effectSpecifiers.Some? {
        isAsync := declaration.effectSpecifiers.value.hasAsync;
        isThrows := declaration.effectSpecifiers.value.hasThrowsClause;
      }
      name := declaration.name;
      typeName := declaration.returnType.value;
      var parameters := declaration.parameters;
      if |parameters| == 0 {
        factoryParameter := "_";
        factoryArgument := "()";
      } else {
        factoryParameter := "resolver";
        var paramLabel := parameters[0].firstName;
        if paramLabel != "_" {
          factoryArgument := "(" + paramLabel + ": resolver)";
        } else {
          factoryArgument := "(resolver)";
        }
      }
    } else if declaration.VariableDecl? && |declaration.bindings| > 0
      && declaration.bindings[0].pattern.IdentifierPattern? && declaration.bindings[0].typeAnnotation.Some?
    {
      var binding := declaration.bindings[0];
      if binding.accessorBlock.Some? {
        var getter := GetFirstGetter(binding.accessorBlock.value);
        if getter.Some? && getter.value.effectSpecifiers.Some? {
          isAsync := getter.value.effectSpecifiers.value.hasAsync;
          isThrows := getter.value.effectSpecifiers.value.hasThrowsClause;
        }
      }
      attributes := declaration.attributes;
      name := binding.pattern.identifier;
      typeName := binding.typeAnnotation.value;
      factoryParameter := "_";
      factoryArgument := "";
    } else {
      return None;
    }

    ghost var effects := if declaration.FunctionDecl? then declaration.effectSpecifiers
                         else GetterEffects(declaration.bindings[0].accessorBlock);
    ghost var expected
      := WithRegisterAttribute(attributes, name, typeName, factoryParameter, factoryArgument, effects, declaration.syntax);
    assert Info(declaration) == expected;
    var registerAttribute := FindRegisterAttribute(attributes);
    if registerAttribute.None? {
      return None;
    }
    var scope := ScopeArgument(registerAttribute.value);

    var dependencyVisitor := new Visitor.ResolveCallVisitor();
    dependencyVisitor.Walk(declaration.syntax);
    assert dependencyVisitor.resolvedDependencies == Visitor.Dependencies(declaration.syntax);
    info := Some(RegistrationInfo(name, typeName, scope, factoryParameter, factoryArgument,
                                  dependencyVisitor.resolvedDependencies, isAsync, isThrows));
    assert expected.Some? && info.value == expected.value;
  }

  /** How the factory closure is spelled: no parameters gives (`_`, `()`), an
      unlabelled first parameter (`resolver`, `(resolver)`), a first
      parameter labelled `L` (`resolver`, `(L: resolver)`), and a property
      (`_`, nothing). */
  lemma FactorySpelling(decl: Decl)
    requires Info(decl).Some?
    ensures decl.FunctionDecl? && decl.parameters == []
      ==> Info(decl).value.factoryParameter == "_" && Info(decl).value.factoryArgument == "()"
    ensures decl.FunctionDecl? && decl.parameters != [] && decl.parameters[0].firstName == "_"
      ==> Info(decl).value.factoryParameter == "resolver" && Info(decl).value.factoryArgument == "(resolver)"
    ensures decl.FunctionDecl? && decl.parameters != [] && decl.parameters[0].firstName != "_"
      ==> (Info(decl).value.factoryParameter == "resolver"
           && Info(decl).value.factoryArgument == "(" + decl.parameters[0].firstName + ": resolver)")
    ensures decl.VariableDecl? ==> Info(decl).value.factoryParameter == "_" && Info(decl).value.factoryArgument == ""
  {
  }

  /** Whether the factory is `async` / `throws`: a function's own signature,
      or the effects written on a property's first `get` accessor; a property
      without an accessor block, with a bare getter body, or without any
      `get`, is neither. */
  lemma EffectFlags(decl: Decl)
    requires Info(decl).Some?
    ensures decl.FunctionDecl? ==> Info(decl).value.isAsync == IsAsync(decl.effectSpecifiers)
    ensures decl.FunctionDecl? ==> Info(decl).value.isThrows == IsThrows(decl.effectSpecifiers)
    ensures decl.VariableDecl? && decl.bindings[0].accessorBlock.Some?
            && GetFirstGetter(decl.bindings[0].accessorBlock.value).Some?
      ==> (Info(decl).value.isAsync == IsAsync(GetFirstGetter(decl.bindings[0].accessorBlock.value).value.effectSpecifiers)
           && Info(decl).value.isThrows == IsThrows(GetFirstGetter(decl.bindings[0].accessorBlock.value).value.effectSpecifiers))
    ensures decl.VariableDecl? && (decl.bindings[0].accessorBlock.None?
                                   || GetFirstGetter(decl.bindings[0].accessorBlock.value).None?)
      ==> !Info(decl).value.isAsync && !Info(decl).value.isThrows
  {
  }
}
