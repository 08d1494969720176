/** `ResolveCallVisitor`: collects the key types of the `resolve(K.self)`
    calls made on a resolver or a container, in the order the walk meets
    them. */
module Visitor {
  import opened SwiftStdlib
  import opened Trim
  import opened SyntaxModel

  /** The receivers the visitor accepts once trimmed: exactly `resolver`, or
      anything ending in `container`. */
  predicate IsResolverBase(trimmedBase: Text) {
    trimmedBase == Characters("resolver") || HasSuffix(trimmedBase, Characters("container"))
  }

  /** `K` when the expression is `K.self` with `K` a plain name. */
  function SelfKeyType(e: Expr): Option<string> {
    if e.MemberAccess? && e.declName == "self" && e.base.Some? && e.base.value.DeclReference?
    then Some(e.base.value.baseName)
    else None
  }

  /** The key type name a call contributes to the dependency list, if any. */
  function ResolvedKey(call: FunctionCall): (r: Option<string>)
    ensures r.Some? ==> (call.calledExpression.MemberCallee? && call.calledExpression.declName == "resolve"
                         && call.calledExpression.base.Some?
                         && IsResolverBase(Trimmed(call.calledExpression.base.value)))
    ensures r.Some? ==> |call.arguments| > 0 && call.arguments[0] == MemberAccess(Some(DeclReference(r.value)), "self")
    ensures call.calledExpression.MemberCallee? && call.calledExpression.declName == "resolve"
            && call.calledExpression.base.Some? && IsResolverBase(Trimmed(call.calledExpression.base.value))
            && |call.arguments| > 0 && call.arguments[0].MemberAccess? && call.arguments[0].declName == "self"
            && call.arguments[0].base.Some? && call.arguments[0].base.value.DeclReference?
      ==> r.Some?
  {
    match call.calledExpression
    case OtherCallee => None
    case MemberCallee(base, name) =>
      if name != "resolve" || base.None? then None
      else if !IsResolverBase(Trimmed(base.value)) then None
      else if |call.arguments| == 0 then None
      else SelfKeyType(call.arguments[0])
  }

  /** The calls of a tree in the order a walk visits them: a node's own call
      first, then those of each child in turn. */
  function CallSites(n: Node): seq<FunctionCall>
    decreases n
  {
    n.call.AsSeq() + CallSitesOfAll(n.children)
  }

  function CallSitesOfAll(ns: seq<Node>): seq<FunctionCall>
    decreases ns
  {
    if ns == [] then [] else CallSitesOfAll(ns[..|ns| - 1]) + CallSites(ns[|ns| - 1])
  }

  /** The dependency list the visitor gathers from a tree. */
  function Dependencies(n: Node): seq<string> {
    CompactMap(CallSites(n), ResolvedKey)
  }

  class ResolveCallVisitor {
    var resolvedDependencies: seq<string>

    constructor ()
      ensures resolvedDependencies == []
    {
      resolvedDependencies := [];
    }

    /** `visit(_: FunctionCallExprSyntax)`: appends `K` for a qualifying
        `base.resolve(K.self)`; the walk always goes on into the children. */
    method Visit(node: FunctionCall)
      modifies this
      ensures resolvedDependencies == old(resolvedDependencies) + ResolvedKey(node).AsSeq()
    {
      if !node.calledExpression.MemberCallee? || node.calledExpression.declName != "resolve" {
        return;
      }
      if node.calledExpression.base.None? {
        return;
      }
      var trimmedBase := TrimWhitespace(node.calledExpression.base.value);
      if !(trimmedBase == Characters("resolver") || HasSuffix(trimmedBase, Characters("container"))) {
        return;
      }
      if |node.arguments| > 0 {
        var firstArgument := node.arguments[0];
        if firstArgument.MemberAccess? && firstArgument.declName == "self"
          && firstArgument.base.Some? && firstArgument.base.value.DeclReference?
        {
          resolvedDependencies := resolvedDependencies + [firstArgument.base.value.baseName];
        }
      }
    }

    /** `walk(_:)`: visits a node's call, then walks its children in order. */
    method Walk(node: Node)
      modifies this
      ensures resolvedDependencies == old(resolvedDependencies) + Dependencies(node)
      decreases node
    {
      ghost var start := resolvedDependencies;
      if node.call.Some? {
        Visit(node.call.value);
      }
      VisitedNone(node, start, resolvedDependencies);
      var i := 0;
      while i < |node.children|
        invariant 0 <= i <= |node.children|
        invariant resolvedDependencies == start + Visited(node, i)
      {
        ghost var before := resolvedDependencies;
        Walk(node.children[i]);
        WalkStep(node, i, start, before, resolvedDependencies);
        i := i + 1;
      }
      VisitedAll(node, start, resolvedDependencies);
    }
  }

  /** What a walk of `n` has gathered once it is through its first `i`
      children. */
  ghost function Visited(n: Node, i: nat): seq<string>
    requires i <= |n.children|
  {
    CompactMap(n.call.AsSeq() + CallSitesOfAll(n.children[..i]), ResolvedKey)
  }

  /** Visiting a node's own call starts its walk. */
  lemma VisitedNone(n: Node, start: seq<string>, now: seq<string>)
    requires n.call.Some? ==> now == start + ResolvedKey(n.call.value).AsSeq()
    requires n.call.None? ==> now == start
    ensures now == start + Visited(n, 0)
  {
    assert n.children[..0] == [];
    assert n.call.AsSeq() + [] == n.call.AsSeq();
    if n.call.Some? {
      assert CompactMap([n.call.value], ResolvedKey) == ResolvedKey(n.call.value).AsSeq() + [];
    }
  }

  lemma VisitedOneMore(n: Node, i: nat)
    requires i < |n.children|
    ensures Visited(n, i + 1) == Visited(n, i) + Dependencies(n.children[i])
  {
    var own := n.call.AsSeq();
    assert n.children[..i + 1][..i] == n.children[..i];
    assert CallSitesOfAll(n.children[..i + 1]) == CallSitesOfAll(n.children[..i]) + CallSites(n.children[i]);
    assert own + CallSitesOfAll(n.children[..i + 1])
      == (own + CallSitesOfAll(n.children[..i])) + CallSites(n.children[i]);
    CompactMapAppend(own + CallSitesOfAll(n.children[..i]), CallSites(n.children[i]), ResolvedKey);
  }

  /** Walking one more child extends what the walk has gathered. */
  lemma WalkStep(n: Node, i: nat, start: seq<string>, before: seq<string>, after: seq<string>)
    requires i < |n.children|
    requires before == start + Visited(n, i)
    requires after == before + Dependencies(n.children[i])
    ensures after == start + Visited(n, i + 1)
  {
    VisitedOneMore(n, i);
  }

  /** Once through all its children the walk has gathered `Dependencies`. */
  lemma VisitedAll(n: Node, start: seq<string>, now: seq<string>)
    requires now == start + Visited(n, |n.children|)
    ensures now == start + Dependencies(n)
  {
    assert n.children[..|n.children|] == n.children;
  }

  lemma {:induction false} CallSitesOfAllAppend(a: seq<Node>, b: seq<Node>)
    ensures CallSitesOfAll(a + b) == CallSitesOfAll(a) + CallSitesOfAll(b)
    decreases |b|
  {
    if b == [] {
      assert a + b == a;
    } else {
      var n := |b| - 1;
      assert (a + b)[..|a + b| - 1] == a + b[..n];
      assert (a + b)[|a + b| - 1] == b[n];
      CallSitesOfAllAppend(a, b[..n]);
    }
  }

  /** One entry per qualifying call, duplicates kept: the list is as long as
      the number of qualifying calls met by the walk, and the `i`-th call,
      when it qualifies, supplies the entry after those of the qualifying
      calls before it. */
  lemma DependenciesFollowCallSites(n: Node, i: nat)
    requires i < |CallSites(n)| && ResolvedKey(CallSites(n)[i]).Some?
    ensures |Dependencies(n)| == CountSome(CallSites(n), ResolvedKey)
    ensures CountSome(CallSites(n)[..i], ResolvedKey) < |Dependencies(n)|
    ensures Dependencies(n)[CountSome(CallSites(n)[..i], ResolvedKey)] == ResolvedKey(CallSites(n)[i]).value
  {
    CompactMapPositions(CallSites(n), ResolvedKey, i);
  }

  /** Nested calls are included: the dependencies found under the `c`-th
      child form one block of the node's list, right after the node's own
      and those of the children before it. */
  lemma NestedDependencies(n: Node, c: nat)
    requires c < |n.children|
    ensures Dependencies(n) == Visited(n, c) + Dependencies(n.children[c]) + CompactMap(CallSitesOfAll(n.children[c + 1..]), ResolvedKey)
  {
    var own := n.call.AsSeq();
    assert n.children == n.children[..c + 1] + n.children[c + 1..];
    CallSitesOfAllAppend(n.children[..c + 1], n.children[c + 1..]);
    assert CallSites(n) == (own + CallSitesOfAll(n.children[..c + 1])) + CallSitesOfAll(n.children[c + 1..]);
    CompactMapAppend(own + CallSitesOfAll(n.children[..c + 1]), CallSitesOfAll(n.children[c + 1..]), ResolvedKey);
    VisitedOneMore(n, c);
  }

  /** Whitespace around the receiver does not change what a call
      contributes. */
  lemma ResolvedKeyIgnoresPadding(call: FunctionCall, pre: Text, post: Text)
    requires call.calledExpression.MemberCallee? && call.calledExpression.base.Some?
    requires AllWhitespace(pre) && AllWhitespace(post)
    ensures ResolvedKey(call.(calledExpression := call.calledExpression.(base := Some(pre + call.calledExpression.base.value + post))))
      == ResolvedKey(call)
  {
    TrimIgnoresPadding(pre, call.calledExpression.base.value, post);
  }

  /** `base.resolve(Key.self)`, with the receiver written as `base`. */
  function ResolveCall(base: string, key: string): FunctionCall {
    FunctionCall(MemberCallee(Some(Characters(base)), "resolve"), [MemberAccess(Some(DeclReference(key)), "self")])
  }

  /** Which receivers qualify: padding is ignored, any text ending in
      `container` qualifies, `resolver` only as the whole receiver. */
  lemma ReceiverExamples()
    ensures IsResolverBase(Trimmed(Characters(" resolver\n")))
    ensures IsResolverBase(Trimmed(Characters("self.container")))
    ensures !IsResolverBase(Trimmed(Characters("resolvers")))
  {
    PaddedResolverQualifies();
    ContainerSuffixQualifies();
    LongerNameDoesNotQualify();
  }

  lemma PaddedResolverQualifies()
    ensures Trimmed(Characters(" resolver\n")) == Characters("resolver")
  {
    var r := Characters(" resolver\n");
    assert r[..1] == [[' ']] && !IsWhitespace(r[1]);
    DropLeadingAt(r, 1);
    var body := r[1..];
    assert body[8..] == [['\n']] && !IsWhitespace(body[7]);
    DropTrailingAt(body, 8);
    assert body[..8] == Characters("resolver");
  }

  lemma ContainerSuffixQualifies()
    ensures HasSuffix(Trimmed(Characters("self.container")), Characters("container"))
  {
    var c := Characters("self.container");
    assert !IsWhitespace(c[0]) && !IsWhitespace(c[|c| - 1]);
    assert Trimmed(c) == c;
    assert c[|c| - 9..] == Characters("container");
  }

  lemma LongerNameDoesNotQualify()
    ensures !IsResolverBase(Trimmed(Characters("resolvers")))
  {
    var x := Characters("resolvers");
    assert !IsWhitespace(x[0]) && !IsWhitespace(x[|x| - 1]);
    assert Trimmed(x) == x;
    assert |x| != |Characters("resolver")|;
    assert x[0] != Characters("container")[0];
  }

  /** In a file with CR LF line ends, a receiver that starts a new line
      carries the pair and the indentation in front of it, and the trim keeps
      both: a `resolver` receiver there is not recognised and its key is not
      a dependency. */
  lemma CrLfReceiverDropped(indentation: Text)
    requires AllWhitespace(indentation)
    ensures !IsResolverBase(Trimmed([CrLf] + indentation + Characters("resolver")))
    ensures ResolvedKey(FunctionCall(MemberCallee(Some([CrLf] + indentation + Characters("resolver")), "resolve"),
                                     [MemberAccess(Some(DeclReference("A")), "self")])) == None
  {
    var x := [CrLf] + indentation + Characters("resolver");
    assert !IsWhitespace(x[0]) && !IsWhitespace(x[|x| - 1]);
    DropLeadingAt(x, 0);
    DropTrailingAt(x, |x|);
    assert Trimmed(x) == x;
    assert |x| != |Characters("resolver")|;
    if indentation == [] {
      assert x[|x| - 9] == CrLf;
    } else {
      assert x[|x| - 9] == indentation[|indentation| - 1];
      assert IsWhitespace(x[|x| - 9]);
    }
    assert x[|x| - 9] != Characters("container")[0];
  }

  /** A receiver ending in `container` still qualifies after a CR LF line
      break: only the end of the receiver is compared. */
  lemma CrLfContainerKept(indentation: Text)
    requires AllWhitespace(indentation)
    ensures ResolvedKey(FunctionCall(MemberCallee(Some([CrLf] + indentation + Characters("self.container")), "resolve"),
                                     [MemberAccess(Some(DeclReference("A")), "self")])) == Some("A")
  {
    var x := [CrLf] + indentation + Characters("self.container");
    assert !IsWhitespace(x[0]) && !IsWhitespace(x[|x| - 1]);
    DropLeadingAt(x, 0);
    DropTrailingAt(x, |x|);
    assert Trimmed(x) == x;
    assert x[|x| - 9..] == Characters("container");
  }

  /** The calls of the example tree below, in walk order. */
  lemma ExampleCallSites(a: FunctionCall, b: FunctionCall, c: FunctionCall)
    ensures CallSites(Node(Some(a), [Node(Some(b), [Node(Some(a), [])]), Node(Some(c), [])])) == [a, b, a, c]
  {
    var inner := Node(Some(a), []);
    var middle := Node(Some(b), [inner]);
    var last := Node(Some(c), []);
    assert CallSites(inner) == [a];
    assert [inner][..0] == [];
    assert CallSitesOfAll([inner]) == [a];
    assert CallSites(middle) == [b, a];
    assert CallSites(last) == [c];
    assert [middle, last][..1] == [middle];
    assert [middle][..0] == [];
    assert CallSitesOfAll([middle]) == [b, a];
    assert CallSitesOfAll([middle, last]) == [b, a, c];
  }

  /** What each example call contributes. */
  lemma ExampleKeys()
    ensures ResolvedKey(ResolveCall(" resolver\n", "A")) == Some("A")
    ensures ResolvedKey(ResolveCall("self.container", "B")) == Some("B")
    ensures ResolvedKey(ResolveCall("resolvers", "C")) == None
  {
    ReceiverExamples();
  }

  /** A walk keeps nested calls (after the call that encloses them) and
      repeated keys, and drops calls on any other receiver. */
  lemma NestedAndRepeatedCallsExample()
    ensures Dependencies(Node(Some(ResolveCall(" resolver\n", "A")), [
                           Node(Some(ResolveCall("self.container", "B")), [
                             Node(Some(ResolveCall(" resolver\n", "A")), [])]),
                           Node(Some(ResolveCall("resolvers", "C")), [])]))
      == ["A", "B", "A"]
  {
    var a, b, c := ResolveCall(" resolver\n", "A"), ResolveCall("self.container", "B"), ResolveCall("resolvers", "C");
    ExampleCallSites(a, b, c);
    ExampleKeys();
    ExampleDependencies(a, b, c, ResolvedKey);
  }

  lemma ExampleDependencies(a: FunctionCall, b: FunctionCall, c: FunctionCall, key: FunctionCall -> Option<string>)
    requires key(a) == Some("A") && key(b) == Some("B") && key(c) == None
    ensures CompactMap([a, b, a, c], key) == ["A", "B", "A"]
  {
    assert [a, b, a, c][1..] == [b, a, c];
    assert [b, a, c][1..] == [a, c];
    assert [a, c][1..] == [c];
    assert [c][1..] == [];
    assert CompactMap([c], key) == [];
    assert CompactMap([a, c], key) == ["A"];
    assert CompactMap([b, a, c], key) == ["B", "A"];
  }
}
