/** The few pieces of the Swift standard library that the macro implementation
    relies on: optionals, throwing results, Characters, and the sequence
    operations `first(where:)`, `contains(where:)`, `compactMap` and
    `joined(separator:)`. */
module SwiftStdlib {

  /** Swift's `Optional`. */
  datatype Option<+T> = None | Some(value: T) {
    /** `self ?? default` */
    function GetOr(default: T): T {
      match this
      case Some(v) => v
      case None => default
    }

    /** The optional as a sequence of zero or one element. */
    function AsSeq(): (s: seq<T>)
      ensures |s| <= 1
      ensures Some? <==> |s| == 1
      ensures Some? ==> s[0] == value
    {
      match this
      case Some(v) => [v]
      case None => []
    }
  }

  /** The outcome of a Swift function that `throws`. */
  datatype Result<+T, +E> = Success(value: T) | Failure(error: E)

  /** A Swift `Character`: one extended grapheme cluster, given by the Unicode
      scalars it is made of. A carriage return followed by a line feed is ONE
      Character. */
  type Character = c: seq<char> | |c| > 0 witness [' ']

  /** A Swift `String` as its own indices see it: a sequence of Characters. */
  type Text = seq<Character>

  /** An ASCII string literal as a Text: every scalar is a Character of its own. */
  function Characters(s: string): (t: Text)
    ensures |t| == |s|
  {
    seq(|s|, i requires 0 <= i < |s| => [s[i]])
  }

  /** `String.hasSuffix`, which compares Character by Character. */
  predicate HasSuffix(t: Text, suffix: Text) {
    |suffix| <= |t| && t[|t| - |suffix|..] == suffix
  }

  /** The index of the element that `first(where: p)` returns, if any. */
  function FirstWhere<T>(s: seq<T>, p: T -> bool): (r: Option<nat>)
    ensures r.Some? ==> r.value < |s| && p(s[r.value])
    ensures r.Some? ==> forall j :: 0 <= j < r.value ==> !p(s[j])
    ensures r.None? <==> forall j :: 0 <= j < |s| ==> !p(s[j])
  {
    if s == [] then None
    else if p(s[0]) then Some(0)
    else match FirstWhere(s[1..], p)
      case None => None
      case Some(k) => Some(k + 1)
  }

  /** `contains(where: p)` */
  function ContainsWhere<T>(s: seq<T>, p: T -> bool): (r: bool)
    ensures r <==> exists j :: 0 <= j < |s| && p(s[j])
  {
    if s == [] then false
    else p(s[0]) || ContainsWhere(s[1..], p)
  }

  /** `compactMap(f)`: the non-nil results of `f`, in order. */
  function CompactMap<T, U>(s: seq<T>, f: T -> Option<U>): (r: seq<U>)
    ensures |r| <= |s|
  {
    if s == [] then [] else f(s[0]).AsSeq() + CompactMap(s[1..], f)
  }

  /** How many elements of `s` `f` maps to a non-nil value. */
  function CountSome<T, U>(s: seq<T>, f: T -> Option<U>): nat {
    if s == [] then 0 else (if f(s[0]).Some? then 1 else 0) + CountSome(s[1..], f)
  }

  lemma {:induction false} CompactMapAppend<T, U>(a: seq<T>, b: seq<T>, f: T -> Option<U>)
    ensures CompactMap(a + b, f) == CompactMap(a, f) + CompactMap(b, f)
  {
    if a != [] {
      assert (a + b)[0] == a[0];
      assert (a + b)[1..] == a[1..] + b;
      CompactMapAppend(a[1..], b, f);
    } else {
      assert a + b == b;
    }
  }

  lemma {:induction false} CountSomeAppend<T, U>(a: seq<T>, b: seq<T>, f: T -> Option<U>)
    ensures CountSome(a + b, f) == CountSome(a, f) + CountSome(b, f)
  {
    if a != [] {
      assert (a + b)[0] == a[0];
      assert (a + b)[1..] == a[1..] + b;
      CountSomeAppend(a[1..], b, f);
    } else {
      assert a + b == b;
    }
  }

  /** `compactMap` keeps exactly one result per element that `f` maps to a
      value, in the order of the elements: the element at index `i` lands at
      the position given by how many earlier elements were kept. */
  lemma {:induction false} CompactMapPositions<T, U>(s: seq<T>, f: T -> Option<U>, i: nat)
    requires i < |s| && f(s[i]).Some?
    ensures |CompactMap(s, f)| == CountSome(s, f)
    ensures CountSome(s[..i], f) < |CompactMap(s, f)|
    ensures CompactMap(s, f)[CountSome(s[..i], f)] == f(s[i]).value
  {
    CompactMapLength(s, f);
    assert s == s[..i] + [s[i]] + s[i + 1..];
    CompactMapAppend(s[..i] + [s[i]], s[i + 1..], f);
    CompactMapAppend(s[..i], [s[i]], f);
    CompactMapLength(s[..i], f);
    assert CompactMap([s[i]], f) == [f(s[i]).value];
  }

  lemma {:induction false} CompactMapLength<T, U>(s: seq<T>, f: T -> Option<U>)
    ensures |CompactMap(s, f)| == CountSome(s, f)
  {
    if s != [] {
      CompactMapLength(s[1..], f);
    }
  }

  /** `joined(separator: sep)` */
  function Joined(parts: seq<string>, sep: string): (r: string)
    ensures parts == [] ==> r == []
    ensures parts != [] ==> |parts[0]| <= |r| && r[..|parts[0]|] == parts[0]
  {
    if parts == [] then []
    else if |parts| == 1 then parts[0]
    else parts[0] + sep + Joined(parts[1..], sep)
  }
}
