/** `@Register`: a peer macro that declares, next to the marked factory, the
    private `DependencyKey` type the registration is filed under. */
module RegisterMacro {
  import opened SwiftStdlib
  import opened SyntaxModel
  import opened Registration

  /** `WeaverMacroError` */
  datatype MacroError = NotAttachedToFunctionOrVariable

  /** The text of the `fatalError` message after the quoted type name. */
  const UnregisteredMessageTail: string :=
    "에 대한 의존성이 등록되지 않았습니다. 매크로로 등록된 의존성은 반드시 해결 가능해야 합니다."

  /** The key type name, `_<name>Key`, as the peer macro spells it. */
  function KeyTypeName(name: string): string {
    "_" + name + "Key"
  }

  /** The peer declaration: a private key type whose default value stops the
      program with a message naming the value type. */
  function KeyStruct(keyName: string, typeName: string): string {
    "private struct " + keyName + ": DependencyKey {\n"
    + "    static var defaultValue: " + typeName + " {\n"
    + "        fatalError(\"'" + typeName + "'" + UnregisteredMessageTail + "\")\n"
    + "    }\n"
    + "}"
  }

  /** `RegisterMacro.expansion`: throws exactly when the declaration is not
      a registrable factory; otherwise one peer, the key type named after the
      declaration and typed by its value type. */
  function Expansion(declaration: Decl): (r: Result<seq<string>, MacroError>)
    ensures r.Failure? <==> NotRegistrable(declaration)
    ensures r.Failure? ==> r.error == NotAttachedToFunctionOrVariable
    ensures r.Success? ==> |r.value| == 1
    ensures r.Success? ==> Info(declaration).Some?
    ensures r.Success? ==> r.value[0] == KeyStruct(KeyTypeName(Info(declaration).value.name), Info(declaration).value.typeName)
  {
    match Info(declaration)
    case None => Failure(NotAttachedToFunctionOrVariable)
    case Some(info) =>
      var keyName := KeyTypeName(info.name);
      Success([KeyStruct(keyName, info.typeName)])
  }

  /** Different factory names give different key types. */
  lemma KeyTypeNameInjective(a: string, b: string)
    requires KeyTypeName(a) == KeyTypeName(b)
    ensures a == b
  {
    assert a == KeyTypeName(a)[1..|a| + 1];
    assert b == KeyTypeName(b)[1..|b| + 1];
  }
}
