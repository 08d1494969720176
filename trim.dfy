/** `trimWhitespace`: strips spaces, tabs, line feeds and carriage returns
    from both ends of a String without Foundation. Like the source, it walks
    the String Character by Character, so a carriage return followed by a
    line feed (a single Character in Swift) is not stripped. */
module Trim {
  import opened SwiftStdlib

  /** The four Characters the trimming loops compare against. */
  predicate IsWhitespace(c: Character) {
    c == [' '] || c == ['\t'] || c == ['\n'] || c == ['\r']
  }

  predicate AllWhitespace(s: Text) {
    forall i :: 0 <= i < |s| ==> IsWhitespace(s[i])
  }

  /** Neither the first nor the last Character is whitespace. */
  predicate EdgesNotWhitespace(t: Text) {
    t == [] || (!IsWhitespace(t[0]) && !IsWhitespace(t[|t| - 1]))
  }

  /** What the first loop leaves: the text from the first non-whitespace
      Character on. */
  function DropLeading(s: Text): Text {
    if |s| > 0 && IsWhitespace(s[0]) then DropLeading(s[1..]) else s
  }

  /** What the second loop leaves: the text up to the last non-whitespace
      Character. */
  function DropTrailing(s: Text): Text {
    if |s| > 0 && IsWhitespace(s[|s| - 1]) then DropTrailing(s[..|s| - 1]) else s
  }

  /** The result of `trimWhitespace`: leading whitespace is removed first,
      then trailing whitespace from what remains. */
  function Trimmed(s: Text): Text {
    DropTrailing(DropLeading(s))
  }

  /** `t` is `s[i..j]`, what lies outside it is whitespace, and its own ends
      are not. */
  predicate TrimAt(s: Text, t: Text, i: nat, j: nat) {
    i <= j <= |s| && s[i..j] == t
      && AllWhitespace(s[..i]) && AllWhitespace(s[j..]) && EdgesNotWhitespace(t)
  }

  /** `t` is `s` with whitespace-only runs cut off both ends, and no more. */
  ghost predicate IsTrimOf(s: Text, t: Text) {
    exists i: nat, j: nat :: TrimAt(s, t, i, j)
  }

  /** `trimWhitespace(string)`: the first loop advances `start` past leading
      whitespace, the second moves `end` back over trailing whitespace but
      never below `start`. */
  method TrimWhitespace(s: Text) returns (r: Text)
    ensures r == Trimmed(s)
  {
    var start := 0;
    var end := |s|;

    while start < end && IsWhitespace(s[start])
      invariant 0 <= start <= end == |s|
      invariant DropLeading(s[start..]) == DropLeading(s)
    {
      assert s[start..][1..] == s[start + 1..];
      start := start + 1;
    }
    assert DropLeading(s) == s[start..];
    assert s[start..end] == s[start..];

    while end > start
      invariant start <= end <= |s|
      invariant DropTrailing(s[start..end]) == Trimmed(s)
    {
      var prev := end - 1;
      if IsWhitespace(s[prev]) {
        assert s[start..end][..end - start - 1] == s[start..prev];
        end := prev;
      } else {
        break;
      }
    }
    r := s[start..end];
  }

  lemma {:induction false} DropLeadingAt(s: Text, i: nat)
    requires i <= |s| && AllWhitespace(s[..i])
    requires i < |s| ==> !IsWhitespace(s[i])
    ensures DropLeading(s) == s[i..]
  {
    if i > 0 {
      assert IsWhitespace(s[..i][0]);
      assert s[1..][..i - 1] == s[1..i];
      forall k | 1 <= k < i ensures IsWhitespace(s[k]) {
        assert s[k] == s[..i][k];
      }
      assert i - 1 < |s[1..]| ==> s[1..][i - 1] == s[i];
      DropLeadingAt(s[1..], i - 1);
      assert s[1..][i - 1..] == s[i..];
    }
  }

  lemma {:induction false} DropTrailingAt(s: Text, k: nat)
    requires k <= |s| && AllWhitespace(s[k..])
    requires k > 0 ==> !IsWhitespace(s[k - 1])
    ensures DropTrailing(s) == s[..k]
    decreases |s| - k
  {
    if k < |s| {
      var n := |s| - 1;
      assert IsWhitespace(s[k..][n - k]);
      assert s[..n][k..] == s[k..n];
      forall m | k <= m < n ensures IsWhitespace(s[m]) {
        assert s[m] == s[k..][m - k];
      }
      DropTrailingAt(s[..n], k);
      assert s[..n][..k] == s[..k];
    }
  }

  lemma {:induction false} DropLeadingSplit(s: Text) returns (i: nat)
    ensures i <= |s| && DropLeading(s) == s[i..]
    ensures AllWhitespace(s[..i])
    ensures i < |s| ==> !IsWhitespace(s[i])
  {
    if |s| > 0 && IsWhitespace(s[0]) {
      var i' := DropLeadingSplit(s[1..]);
      i := i' + 1;
      assert s[1..][i'..] == s[i..];
      forall m | 0 <= m < i ensures IsWhitespace(s[..i][m]) {
        if m > 0 {
          assert s[..i][m] == s[1..][..i'][m - 1];
        }
      }
    } else {
      i := 0;
    }
  }

  lemma {:induction false} DropTrailingSplit(s: Text) returns (k: nat)
    ensures k <= |s| && DropTrailing(s) == s[..k]
    ensures AllWhitespace(s[k..])
    ensures k > 0 ==> !IsWhitespace(s[k - 1])
  {
    if |s| > 0 && IsWhitespace(s[|s| - 1]) {
      var n := |s| - 1;
      k := DropTrailingSplit(s[..n]);
      assert s[..n][..k] == s[..k];
      forall m | 0 <= m < |s| - k ensures IsWhitespace(s[k..][m]) {
        if m < n - k {
          assert s[k..][m] == s[..n][k..][m];
        }
      }
    } else {
      k := |s|;
    }
  }

  /** `trimWhitespace` returns a contiguous piece of its input, with only
      whitespace cut off either end, and whose first and last Characters are
      not whitespace. */
  lemma {:induction false} TrimmedIsTrimOf(s: Text)
    ensures IsTrimOf(s, Trimmed(s))
  {
    var i := DropLeadingSplit(s);
    var rest := s[i..];
    var k := DropTrailingSplit(rest);
    var t := Trimmed(s);
    assert t == s[i..i + k];
    assert s[i + k..] == rest[k..];
    assert t != [] ==> t[0] == s[i] && t[|t| - 1] == rest[k - 1];
    assert TrimAt(s, t, i, i + k);
  }

  /** Whatever split `TrimAt` starts from, the pieces are those of `Trimmed`. */
  lemma {:induction false} TrimAtIsTrimmed(s: Text, t: Text, i: nat, j: nat)
    requires TrimAt(s, t, i, j)
    ensures Trimmed(s) == t
  {
    if t == [] {
      forall m | 0 <= m < |s| ensures IsWhitespace(s[m]) {
        if m < i {
          assert s[m] == s[..i][m];
        } else {
          assert s[m] == s[j..][m - j];
        }
      }
      assert s[..|s|] == s;
      DropLeadingAt(s, |s|);
    } else {
      assert s[i] == t[0];
      DropLeadingAt(s, i);
      var rest := s[i..];
      assert rest[j - i..] == s[j..];
      assert rest[j - i - 1] == t[|t| - 1];
      DropTrailingAt(rest, j - i);
      assert rest[..j - i] == t;
    }
  }

  /** Conversely, any such piece IS the result: the trim is determined by
      the input alone. */
  lemma TrimOfIsTrimmed(s: Text, t: Text)
    requires IsTrimOf(s, t)
    ensures Trimmed(s) == t
  {
    var i: nat, j: nat :| TrimAt(s, t, i, j);
    TrimAtIsTrimmed(s, t, i, j);
  }

  /** The two lemmas above together: `Trimmed(s) == t` exactly when `t` is
      `s` with whitespace cut off both ends. */
  lemma TrimmedIff(s: Text, t: Text)
    ensures Trimmed(s) == t <==> IsTrimOf(s, t)
  {
    TrimmedIsTrimOf(s);
    if IsTrimOf(s, t) {
      TrimOfIsTrimmed(s, t);
    }
  }

  /** Trimming a trimmed string changes nothing. */
  lemma TrimIdempotent(s: Text)
    ensures Trimmed(Trimmed(s)) == Trimmed(s)
  {
    var t := Trimmed(s);
    TrimmedIsTrimOf(s);
    var i: nat, j: nat :| TrimAt(s, t, i, j);
    assert t[0..|t|] == t && t[..0] == [] && t[|t|..] == [];
    TrimAtIsTrimmed(t, t, 0, |t|);
  }

  /** The result is empty exactly when the input is whitespace only. */
  lemma TrimmedEmptyIffAllWhitespace(s: Text)
    ensures Trimmed(s) == [] <==> AllWhitespace(s)
  {
    if AllWhitespace(s) {
      assert s[..0] == [] && s[0..0] == [] && s[0..] == s;
      TrimAtIsTrimmed(s, [], 0, 0);
    }
    if Trimmed(s) == [] {
      TrimmedIsTrimOf(s);
      var i: nat, j: nat :| TrimAt(s, [], i, j);
      forall m | 0 <= m < |s| ensures IsWhitespace(s[m]) {
        if m < i {
          assert s[m] == s[..i][m];
        } else {
          assert s[m] == s[j..][m - j];
        }
      }
    }
  }

  /** Whitespace added around a text does not change its trim: this is why
      ` resolver ` and `resolver` are the same receiver to the visitor. */
  lemma TrimIgnoresPadding(pre: Text, t: Text, post: Text)
    requires AllWhitespace(pre) && AllWhitespace(post)
    ensures Trimmed(pre + t + post) == Trimmed(t)
  {
    var s := pre + t + post;
    var u := Trimmed(t);
    TrimmedIsTrimOf(t);
    var i: nat, j: nat :| TrimAt(t, u, i, j);
    var i', j' := |pre| + i, |pre| + j;
    assert s[i'..j'] == t[i..j];
    forall m | 0 <= m < i' ensures IsWhitespace(s[m]) {
      if m < |pre| {
        assert s[m] == pre[m];
      } else {
        assert s[m] == t[..i][m - |pre|];
      }
    }
    forall m | j' <= m < |s| ensures IsWhitespace(s[m]) {
      if m < |pre| + |t| {
        assert s[m] == t[j..][m - j'];
      } else {
        assert s[m] == post[m - |pre| - |t|];
      }
    }
    TrimAtIsTrimmed(s, u, i', j');
  }

  /** A carriage return followed by a line feed: one Swift Character. */
  const CrLf: Character := ['\r', '\n']

  /** Leading whitespace is cut the same way whatever non-whitespace
      Character follows. */
  lemma {:induction false} DropLeadingAppend(s: Text, c: Character)
    requires !IsWhitespace(c)
    ensures DropLeading(s + [c]) == DropLeading(s) + [c]
  {
    if |s| > 0 && IsWhitespace(s[0]) {
      assert (s + [c])[1..] == s[1..] + [c];
      DropLeadingAppend(s[1..], c);
    } else if s == [] {
      assert s + [c] == [c];
    }
  }

  /** A trailing CR LF pair is never trimmed, nor is any whitespace before
      it: the pair is one Character, equal to neither "\r" nor "\n", so
      only leading whitespace is removed. */
  lemma CrLfNotTrimmed(s: Text)
    ensures Trimmed(s + [CrLf]) == DropLeading(s) + [CrLf]
  {
    DropLeadingAppend(s, CrLf);
  }
}
