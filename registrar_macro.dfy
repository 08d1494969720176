/** `@Registrar`: a member macro that writes the module's `configure` method,
    one `builder.register` call per `@Register` member, and an extension
    macro that makes the type conform to `Module`. */
module RegistrarMacro {
  import opened SwiftStdlib
  import opened SyntaxModel
  import opened Registration
  import RegisterMacro

  /** The scope used when `@Register` names none. */
  const DefaultScope: string := ".container"

  /** One generated `builder.register(Key.self, scope:, dependencies:) { param in call }`. */
  datatype RegisterCall = RegisterCall(
    keyType: string,
    scope: string,
    dependencies: seq<string>,
    factoryParameter: string,
    factoryCall: string)

  /** `extension T: Module {}` */
  datatype ExtensionDecl = ExtensionDecl(extendedType: string, inheritedType: string)

  /** The key type name, `_<name>Key`, as the registrar spells it. */
  function KeyTypeName(name: string): string {
    "_" + name + "Key"
  }

  /** The keywords in front of the factory call: `try ` when the factory
      throws, then `await ` when it is async. */
  function CallPrefix(isThrows: bool, isAsync: bool): (r: string)
    ensures |r| == (if isThrows then 4 else 0) + (if isAsync then 6 else 0)
    ensures isThrows <==> |r| >= 4 && r[..4] == "try "
    ensures isAsync <==> |r| >= 6 && r[|r| - 6..] == "await "
  {
    assert "await "[..4] != "try " by {
      assert "await "[..4][0] != "try "[0];
    }
    var callPrefix := if isThrows then "try " else "";
    if isAsync then callPrefix + "await " else callPrefix
  }

  /** A call written after the prefix starts with `try ` exactly when the
      factory throws, as long as the call itself starts with `s`. */
  lemma PrefixedCallStartsWithTry(isThrows: bool, isAsync: bool, call: string)
    requires |call| >= 4 && call[0] == 's'
    ensures var r := CallPrefix(isThrows, isAsync) + call;
      |r| >= 4 && (r[..4] == "try " <==> isThrows)
  {
    var p := CallPrefix(isThrows, isAsync);
    var r := p + call;
    if isThrows {
      assert r[..4] == p[..4];
    } else {
      assert r[0] == (if isAsync then 'a' else 's');
      assert r[..4][0] == r[0];
    }
  }

  /** A dependency name between double quotes. */
  function Quote(name: string): string {
    "\"" + name + "\""
  }

  /** Each dependency name between double quotes, in order. */
  function QuotedNames(names: seq<string>): (r: seq<string>)
    ensures |r| == |names|
    ensures forall i :: 0 <= i < |names| ==> r[i] == Quote(names[i])
  {
    if names == [] then [] else [Quote(names[0])] + QuotedNames(names[1..])
  }

  /** The dependency names quoted and joined by `, `, as they go between the
      brackets of `dependencies: [...]`. */
  function DependencyList(names: seq<string>): (r: string)
    ensures r == [] <==> names == []
    ensures names != [] ==> r[0] == '"'
  {
    Joined(QuotedNames(names), ", ")
  }

  /** The call the factory closure makes: prefix, `self.`, the member's name
      and its argument list. */
  function FactoryCall(info: RegistrationInfo): (r: string)
    ensures |r| >= 4 && (r[..4] == "try " <==> info.isThrows)
    ensures var call := "self." + info.name + info.factoryArgument;
      |r| >= |call| && r[|r| - |call|..] == call
    ensures var call := "self." + info.name + info.factoryArgument;
      |r| >= |call| && r[..|r| - |call|] == CallPrefix(info.isThrows, info.isAsync)
  {
    var call := "self." + info.name + info.factoryArgument;
    PrefixedCallStartsWithTry(info.isThrows, info.isAsync, call);
    var r := CallPrefix(info.isThrows, info.isAsync) + call;
    assert r[|r| - |call|..] == call;
    r
  }

  /** The registration generated for one `@Register` member. */
  function CallFor(info: RegistrationInfo): (r: RegisterCall)
    ensures r.keyType == RegisterMacro.KeyTypeName(info.name)
    ensures info.scope.None? ==> r.scope == DefaultScope
    ensures info.scope.Some? ==> r.scope == info.scope.value
    ensures r.dependencies == info.dependencies
    ensures r.factoryParameter == info.factoryParameter && r.factoryCall == FactoryCall(info)
  {
    RegisterCall(KeyTypeName(info.name), info.scope.GetOr(DefaultScope), info.dependencies,
                 info.factoryParameter, FactoryCall(info))
  }

  /** The body of the `compactMap` closure: a member without registration
      information yields nothing. */
  function RegisterCallOf(member: Decl): (r: Option<RegisterCall>)
    ensures r.Some? <==> Info(member).Some?
  {
    match Info(member)
    case None => None
    case Some(info) => Some(CallFor(info))
  }

  /** The registrations of a type's members, in member order. */
  function RegistrationCalls(members: seq<Decl>): (r: seq<RegisterCall>)
    ensures |r| == CountSome(members, RegisterCallOf)
  {
    CompactMapLength(members, RegisterCallOf);
    CompactMap(members, RegisterCallOf)
  }

  function RenderRegisterCall(c: RegisterCall): string {
    "await builder.register(\n"
    + "    " + c.keyType + ".self,\n"
    + "    scope: " + c.scope + ",\n"
    + "    dependencies: [" + DependencyList(c.dependencies) + "]) { " + c.factoryParameter + " in\n"
    + "    " + c.factoryCall + "\n"
    + "}"
  }

  function RenderedCalls(calls: seq<RegisterCall>): seq<string> {
    if calls == [] then [] else [RenderRegisterCall(calls[0])] + RenderedCalls(calls[1..])
  }

  function ConfigureMethod(calls: seq<RegisterCall>): string {
    "public func configure(_ builder: WeaverBuilder) async {\n"
    + "    " + Joined(RenderedCalls(calls), "\n        ") + "\n"
    + "}"
  }

  /** `RegistrarMacro.expansion(of:providingMembersOf:...)`: always exactly
      one member, the `configure` method, whatever the members are. */
  function MemberExpansion(members: seq<Decl>): (r: seq<string>)
    ensures |r| == 1
  {
    [ConfigureMethod(RegistrationCalls(members))]
  }

  /** `RegistrarMacro.expansion(of:attachedTo:providingExtensionsOf:...)`:
      no extension when `Module` is already among the written inherited types
      or among the conformances the compiler asks for; otherwise exactly one,
      adding `Module` to the type. */
  function ExtensionExpansion(inheritedTypes: Option<seq<string>>, protocols: seq<string>,
                              extendedType: string): (r: seq<ExtensionDecl>)
    ensures |r| <= 1
    ensures r == [] <==> (inheritedTypes.Some? && "Module" in inheritedTypes.value) || "Module" in protocols
    ensures r != [] ==> r[0] == ExtensionDecl(extendedType, "Module")
  {
    if inheritedTypes.Some? && ContainsWhere(inheritedTypes.value, (t: string) => t == "Module") then []
    else if ContainsWhere(protocols, (t: string) => t == "Module") then []
    else [ExtensionDecl(extendedType, "Module")]
  }

  function RenderExtension(e: ExtensionDecl): string {
    "extension " + e.extendedType + ": " + e.inheritedType + " {}"
  }

  /** One register call per member that has registration information, in
      member order: the `i`-th member, when registrable, gets the call right
      after those of the registrable members before it; every other member
      is skipped. */
  lemma CallsFollowMembers(members: seq<Decl>, i: nat)
    requires i < |members| && Info(members[i]).Some?
    ensures |RegistrationCalls(members)| == CountSome(members, RegisterCallOf)
    ensures CountSome(members[..i], RegisterCallOf) < |RegistrationCalls(members)|
    ensures RegistrationCalls(members)[CountSome(members[..i], RegisterCallOf)] == CallFor(Info(members[i]).value)
  {
    CompactMapPositions(members, RegisterCallOf, i);
  }

  /** The two macros agree on the key: the key type `@Register` declares
      beside a member is the one `@Registrar` registers that member under. */
  lemma MacrosAgreeOnKey(members: seq<Decl>, i: nat)
    requires i < |members| && Info(members[i]).Some?
    ensures CountSome(members[..i], RegisterCallOf) < |RegistrationCalls(members)|
    ensures RegisterMacro.Expansion(members[i])
      == Success([RegisterMacro.KeyStruct(RegistrationCalls(members)[CountSome(members[..i], RegisterCallOf)].keyType,
                                          Info(members[i]).value.typeName)])
  {
    CallsFollowMembers(members, i);
  }

  /** The scope registered is the `scope:` argument of the member's
      `@Register`, and `.container` (the macro's declared default) when the
      first argument carries no `scope` label. */
  lemma ScopeOfCall(member: Decl)
    requires Info(member).Some?
    ensures var attribute := FindRegisterAttribute(member.attributes).value;
      CallFor(Info(member).value).scope
        == if ScopeArgument(attribute).Some? then attribute.arguments.value.items[0].description else ".container"
  {
  }

  lemma {:induction false} IndexOfQuoteAfter(name: string, rest: string)
    requires '"' !in name
    ensures IndexOfQuote(name + "\"" + rest) == |name|
  {
    if name != [] {
      assert (name + "\"" + rest)[1..] == name[1..] + "\"" + rest;
      IndexOfQuoteAfter(name[1..], rest);
    }
  }

  /** The position of the first double quote, or the length when there is
      none. */
  function IndexOfQuote(s: string): (r: nat)
    ensures r <= |s|
    ensures r < |s| ==> s[r] == '"'
    ensures forall k :: 0 <= k < r ==> s[k] != '"'
  {
    if s == [] || s[0] == '"' then 0 else 1 + IndexOfQuote(s[1..])
  }

  /** Reads back a nonempty `"a", "b", ...` list. */
  function ParseQuotedNames(s: string): Option<seq<string>>
    decreases |s|
  {
    if |s| == 0 || s[0] != '"' then None
    else
      var body := s[1..];
      var close := IndexOfQuote(body);
      if close == |body| then None
      else
        var name := body[..close];
        var rest := body[close + 1..];
        if rest == [] then Some([name])
        else if |rest| >= 2 && rest[..2] == ", " then
          match ParseQuotedNames(rest[2..])
          case None => None
          case Some(names) => Some([name] + names)
        else None
  }

  /** Reads back what goes between the brackets of `dependencies: [...]`. */
  function ParseDependencyList(s: string): Option<seq<string>> {
    if s == [] then Some([]) else ParseQuotedNames(s)
  }

  /** The rendered dependency list gives back the dependency names, in
      order and with repeats, provided no name holds a double quote (key
      type names are identifiers). */
  lemma {:induction false} DependencyListRoundTrip(names: seq<string>)
    requires forall i :: 0 <= i < |names| ==> '"' !in names[i]
    ensures ParseDependencyList(DependencyList(names)) == Some(names)
  {
    if names != [] {
      NonemptyRoundTrip(names);
    }
  }

  /** The rendered list is the first name quoted, then `, ` and the rest. */
  lemma DependencyListCons(names: seq<string>)
    requires names != []
    ensures DependencyList(names)
      == Quote(names[0]) + (if |names| == 1 then "" else ", " + DependencyList(names[1..]))
  {
    assert QuotedNames(names)[0] == Quote(names[0]);
    assert QuotedNames(names)[1..] == QuotedNames(names[1..]);
  }

  /** Reading one quoted name off the front of a list. */
  lemma ParseQuotedStep(name: string, tail: string)
    requires '"' !in name
    ensures ParseQuotedNames("\"" + name + "\"" + tail)
      == if tail == [] then Some([name])
         else if |tail| >= 2 && tail[..2] == ", " then
           match ParseQuotedNames(tail[2..])
           case None => None
           case Some(names) => Some([name] + names)
         else None
  {
    var s := "\"" + name + "\"" + tail;
    var body := s[1..];
    assert body == name + "\"" + tail;
    IndexOfQuoteAfter(name, tail);
    assert body[..|name|] == name;
    assert body[|name| + 1..] == tail;
  }

  lemma {:induction false} NonemptyRoundTrip(names: seq<string>)
    requires names != []
    requires forall i :: 0 <= i < |names| ==> '"' !in names[i]
    ensures DependencyList(names) != []
    ensures ParseQuotedNames(DependencyList(names)) == Some(names)
  {
    var name := names[0];
    var tail := if |names| == 1 then "" else ", " + DependencyList(names[1..]);
    DependencyListCons(names);
    assert DependencyList(names) == "\"" + name + "\"" + tail;
    ParseQuotedStep(name, tail);
    if |names| > 1 {
      NonemptyRoundTrip(names[1..]);
      assert tail[..2] == ", ";
      assert tail[2..] == DependencyList(names[1..]);
      assert [name] + names[1..] == names;
    } else {
      assert names == [name];
    }
  }
}
