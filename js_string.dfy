/**
 * The parts of JavaScript's String.prototype that the stream client relies on:
 * trim, startsWith, indexOf, lastIndexOf and split with a string separator.
 * Strings are sequences of code points; the client only ever searches for and
 * splits on ASCII separators, so UTF-16 code units never need to be told apart.
 */
module JsString {
  import opened Wrappers
  import opened Sequences

  /** The code points String.prototype.trim removes: ECMAScript WhiteSpace and LineTerminator. */
  predicate IsWhitespace(c: char) {
    || c == '\t' || c == '\n' || c == '\U{B}' || c == '\U{C}' || c == '\r' || c == ' '
    || c == '\U{A0}' || c == '\U{1680}' || ('\U{2000}' <= c <= '\U{200A}')
    || c == '\U{2028}' || c == '\U{2029}' || c == '\U{202F}' || c == '\U{205F}'
    || c == '\U{3000}' || c == '\U{FEFF}'
  }

  predicate AllWhitespace(s: string) {
    forall i :: 0 <= i < |s| ==> IsWhitespace(s[i])
  }

  /** A string that trim leaves as it is. */
  predicate IsTrimmed(s: string) {
    s == [] || (!IsWhitespace(s[0]) && !IsWhitespace(s[|s| - 1]))
  }

  /** Drops leading whitespace. */
  function TrimStart(s: string): string
  {
    if s != [] && IsWhitespace(s[0]) then TrimStart(s[1..]) else s
  }

  /** TrimStart keeps the suffix that starts at the first character that is not whitespace. */
  lemma {:induction false} TrimStartFacts(s: string)
    ensures |TrimStart(s)| <= |s| && TrimStart(s) == s[|s| - |TrimStart(s)|..]
    ensures AllWhitespace(s[..|s| - |TrimStart(s)|])
    ensures TrimStart(s) == [] || !IsWhitespace(TrimStart(s)[0])
    decreases |s|
  {
    if s != [] && IsWhitespace(s[0]) {
      TrimStartFacts(s[1..]);
      WhitespaceFront(s, |s| - |TrimStart(s[1..])|);
    }
  }

  /** A whitespace character in front of a whitespace prefix of the rest. */
  lemma WhitespaceFront(s: string, k: nat)
    requires 1 <= k <= |s| && IsWhitespace(s[0]) && AllWhitespace(s[1..][..k - 1])
    ensures AllWhitespace(s[..k])
    ensures s[1..][k - 1..] == s[k..]
  {
    var w := s[..k];
    forall n | 0 <= n < |w| ensures IsWhitespace(w[n]) {
      if n > 0 {
        assert w[n] == s[1..][..k - 1][n - 1];
      }
    }
  }

  /** Drops trailing whitespace. */
  function TrimEnd(s: string): string
  {
    if s != [] && IsWhitespace(s[|s| - 1]) then TrimEnd(s[..|s| - 1]) else s
  }

  /** TrimEnd keeps the prefix that ends at the last character that is not whitespace. */
  lemma {:induction false} TrimEndFacts(s: string)
    ensures |TrimEnd(s)| <= |s| && TrimEnd(s) == s[..|TrimEnd(s)|]
    ensures AllWhitespace(s[|TrimEnd(s)|..])
    ensures TrimEnd(s) == [] || !IsWhitespace(TrimEnd(s)[|TrimEnd(s)| - 1])
    decreases |s|
  {
    if s != [] && IsWhitespace(s[|s| - 1]) {
      var init := s[..|s| - 1];
      var r := TrimEnd(init);
      TrimEndFacts(init);
      assert init[..|r|] == s[..|r|];
      forall n | 0 <= n < |s| - |r| ensures IsWhitespace(s[|r|..][n]) {
        if n < |s| - 1 - |r| {
          assert s[|r|..][n] == init[|r|..][n];
        }
      }
    }
  }

  lemma AllWhitespaceConcat(a: string, b: string)
    ensures AllWhitespace(a + b) <==> AllWhitespace(a) && AllWhitespace(b)
  {
    if AllWhitespace(a + b) {
      forall i | 0 <= i < |a| ensures IsWhitespace(a[i]) { assert a[i] == (a + b)[i]; }
      forall i | 0 <= i < |b| ensures IsWhitespace(b[i]) { assert b[i] == (a + b)[|a| + i]; }
    }
  }

  /** String.prototype.trim: whitespace is cut from both ends. */
  function Trim(s: string): string {
    TrimEnd(TrimStart(s))
  }

  /**
   * The result of trim neither starts nor ends with whitespace, is no longer
   * than the input, and is empty exactly when the input is all whitespace.
   */
  lemma TrimFacts(s: string)
    ensures |Trim(s)| <= |s|
    ensures IsTrimmed(Trim(s))
    ensures Trim(s) == [] <==> AllWhitespace(s)
  {
    var t := TrimStart(s);
    var k := |s| - |t|;
    var r := TrimEnd(t);
    TrimStartFacts(s);
    TrimEndFacts(t);
    SplitThree(s, k, |s|);
    AllWhitespaceConcat(s[..k], t);
    SplitThree(t, |r|, |t|);
    AllWhitespaceConcat(r, t[|r|..]);
    if r != [] {
      assert t != [] && r[0] == t[0];
    }
    assert AllWhitespace(s) ==> t == [];
  }

  /** String.prototype.startsWith */
  predicate StartsWith(s: string, prefix: string) {
    |prefix| <= |s| && s[..|prefix|] == prefix
  }

  /** `sep` appears in `s` starting at index `i`. */
  predicate OccursAt(s: string, sep: string, i: int) {
    0 <= i && i + |sep| <= |s| && s[i..i + |sep|] == sep
  }

  ghost predicate Contains(s: string, sep: string) {
    exists i :: OccursAt(s, sep, i)
  }

  /** Occurrences in the suffix from `k` are the occurrences in `s` at or after `k`, shifted by `k`. */
  lemma OccursInSuffix(s: string, sep: string, k: nat)
    requires k <= |s|
    ensures forall i :: OccursAt(s[k..], sep, i) ==> OccursAt(s, sep, i + k)
    ensures forall i :: k <= i && OccursAt(s, sep, i) ==> OccursAt(s[k..], sep, i - k)
  {
    forall i | OccursAt(s[k..], sep, i) ensures OccursAt(s, sep, i + k) {
      assert s[k..][i..i + |sep|] == s[i + k..i + k + |sep|];
    }
    forall i | k <= i && OccursAt(s, sep, i) ensures OccursAt(s[k..], sep, i - k) {
      assert s[k..][i - k..i - k + |sep|] == s[i..i + |sep|];
    }
  }

  /** Occurrences in the prefix of length `n` are the occurrences in `s` that end by `n`. */
  lemma OccursInPrefix(s: string, sep: string, n: nat)
    requires n <= |s|
    ensures forall i :: OccursAt(s[..n], sep, i) ==> OccursAt(s, sep, i)
    ensures forall i :: i + |sep| <= n && OccursAt(s, sep, i) ==> OccursAt(s[..n], sep, i)
  {
    forall i | OccursAt(s[..n], sep, i) ensures OccursAt(s, sep, i) {
      assert s[..n][i..i + |sep|] == s[i..i + |sep|];
    }
    forall i | i + |sep| <= n && OccursAt(s, sep, i) ensures OccursAt(s[..n], sep, i) {
      assert s[..n][i..i + |sep|] == s[i..i + |sep|];
    }
  }

  /** An occurrence in a suffix is an occurrence in the whole string. */
  lemma ContainsInSuffix(s: string, sep: string, k: nat)
    requires k <= |s|
    ensures Contains(s[k..], sep) ==> Contains(s, sep)
  {
    OccursInSuffix(s, sep, k);
  }

  /** String.prototype.indexOf, with `None` for -1: the leftmost occurrence of `sep`. */
  function IndexOf(s: string, sep: string): (r: Option<nat>)
    requires sep != []
    ensures r.Some? ==> OccursAt(s, sep, r.value)
    ensures forall i :: OccursAt(s, sep, i) ==> r.Some? && r.value <= i
    decreases |s|
  {
    if |s| < |sep| then None
    else if s[..|sep|] == sep then Some(0)
    else
      var r := IndexOf(s[1..], sep);
      OccursInSuffix(s, sep, 1);
      match r
      case None => None
      case Some(i) => Some(i + 1)
  }

  /** String.prototype.lastIndexOf: -1 when `sep` does not occur, else its rightmost occurrence. */
  function LastIndexOf(s: string, sep: string): (r: int)
    requires sep != []
    ensures r == -1 <==> !Contains(s, sep)
    ensures r != -1 ==> OccursAt(s, sep, r) && forall i :: OccursAt(s, sep, i) ==> i <= r
    decreases |s|
  {
    if |s| < |sep| then -1
    else if s[|s| - |sep|..] == sep then
      assert OccursAt(s, sep, |s| - |sep|);
      |s| - |sep|
    else
      OccursBeforeEnd(s, sep);
      LastIndexOf(s[..|s| - 1], sep)
  }

  /** When `s` does not end with `sep`, its occurrences are those of `s` without its last character. */
  lemma OccursBeforeEnd(s: string, sep: string)
    requires sep != [] && |sep| <= |s| && s[|s| - |sep|..] != sep
    ensures forall i :: OccursAt(s, sep, i) <==> OccursAt(s[..|s| - 1], sep, i)
    ensures Contains(s, sep) <==> Contains(s[..|s| - 1], sep)
  {
    OccursInPrefix(s, sep, |s| - 1);
    forall i | OccursAt(s, sep, i) ensures i + |sep| <= |s| - 1 {
      assert i != |s| - |sep|;
    }
  }

  /** Nothing after the last occurrence of `sep` contains `sep` again. */
  lemma AfterLastOccurrence(s: string, sep: string)
    requires sep != [] && LastIndexOf(s, sep) != -1
    ensures !Contains(s[LastIndexOf(s, sep) + |sep|..], sep)
  {
    OccursInSuffix(s, sep, LastIndexOf(s, sep) + |sep|);
  }

  /**
   * String.prototype.split with a non-empty string separator: the pieces between
   * successive leftmost, non-overlapping occurrences of `sep`.
   */
  function SplitOn(s: string, sep: string): (r: seq<string>)
    requires sep != []
    ensures |r| >= 1
    decreases |s|
  {
    match IndexOf(s, sep)
    case None => [s]
    case Some(i) => [s[..i]] + SplitOn(s[i + |sep|..], sep)
  }

  /** No piece of a split contains the separator. */
  lemma {:induction false} SplitOnPiecesFree(s: string, sep: string)
    requires sep != []
    ensures forall k :: 0 <= k < |SplitOn(s, sep)| ==> !Contains(SplitOn(s, sep)[k], sep)
    decreases |s|
  {
    match IndexOf(s, sep)
    case None =>
    case Some(i) =>
      BeforeFirstOccurrence(s, sep, i);
      SplitOnPiecesFree(s[i + |sep|..], sep);
  }

  /** The text before the leftmost occurrence of `sep` does not contain it. */
  lemma BeforeFirstOccurrence(s: string, sep: string, i: nat)
    requires sep != [] && IndexOf(s, sep) == Some(i)
    ensures !Contains(s[..i], sep)
  {
    OccursInPrefix(s, sep, i);
  }

  /** Array.prototype.join: the pieces with `sep` between each two. */
  function Join(pieces: seq<string>, sep: string): string
    requires |pieces| >= 1
  {
    if |pieces| == 1 then pieces[0] else pieces[0] + sep + Join(pieces[1..], sep)
  }

  /** Splitting loses nothing: joining the pieces with the separator gives back the string. */
  lemma {:induction false} SplitOnJoin(s: string, sep: string)
    requires sep != []
    ensures Join(SplitOn(s, sep), sep) == s
    decreases |s|
  {
    var pieces := SplitOn(s, sep);
    match IndexOf(s, sep)
    case None =>
      assert pieces == [s];
    case Some(i) =>
      var rest := s[i + |sep|..];
      var tail := SplitOn(rest, sep);
      assert pieces == [s[..i]] + tail;
      SplitOnJoin(rest, sep);
      calc {
        Join(pieces, sep);
        pieces[0] + sep + Join(pieces[1..], sep);
        { assert pieces[1..] == tail; }
        s[..i] + sep + rest;
        { assert s[i..i + |sep|] == sep; }
        s;
      }
  }

  /** The first occurrence of `c` in `a + [c] + b` is the first one in `a`, or else the one after `a`. */
  lemma IndexOfAround(a: string, c: char, b: string)
    ensures IndexOf(a + [c] + b, [c]) == if IndexOf(a, [c]).Some? then IndexOf(a, [c]) else Some(|a|)
  {
    var s := a + [c] + b;
    assert s[|a|..|a| + 1] == [c];
    assert OccursAt(s, [c], |a|);
    assert s[..|a|] == a;
    OccursInPrefix(s, [c], |a|);
  }

  /** Splitting where the first separator is: the piece before it, then the split of the rest. */
  lemma SplitOnFirst(s: string, sep: string, i: nat)
    requires sep != [] && IndexOf(s, sep) == Some(i)
    ensures SplitOn(s, sep) == [s[..i]] + SplitOn(s[i + |sep|..], sep)
  {
  }

  /** Splitting on one character around an occurrence of it splits the two sides separately. */
  lemma {:induction false} SplitOnAround(a: string, c: char, b: string)
    ensures SplitOn(a + [c] + b, [c]) == SplitOn(a, [c]) + SplitOn(b, [c])
    decreases |a|
  {
    match IndexOf(a, [c])
    case None =>
      SplitOnAroundFirst(a, c, b);
    case Some(i) =>
      SplitOnAround(a[i + 1..], c, b);
      SplitOnAroundLater(a, c, b, i);
  }

  /** The occurrence after `a` is the first one: `a` is the first piece. */
  lemma SplitOnAroundFirst(a: string, c: char, b: string)
    requires IndexOf(a, [c]).None?
    ensures SplitOn(a + [c] + b, [c]) == SplitOn(a, [c]) + SplitOn(b, [c])
  {
    var s := a + [c] + b;
    IndexOfAround(a, c, b);
    SplitOnFirst(s, [c], |a|);
    assert s[..|a|] == a && s[|a| + 1..] == b;
  }

  /** An occurrence inside `a` comes first: the first piece is that of `a`, and the rest is split the same way. */
  lemma SplitOnAroundLater(a: string, c: char, b: string, i: nat)
    requires IndexOf(a, [c]) == Some(i)
    requires SplitOn(a[i + 1..] + [c] + b, [c]) == SplitOn(a[i + 1..], [c]) + SplitOn(b, [c])
    ensures SplitOn(a + [c] + b, [c]) == SplitOn(a, [c]) + SplitOn(b, [c])
  {
    var a' := a[i + 1..];
    IndexOfAround(a, c, b);
    CutAround(a, c, b, i);
    SplitOnFirst(a + [c] + b, [c], i);
    SplitOnFirst(a, [c], i);
    assert SplitOn(a + [c] + b, [c]) == [a[..i]] + SplitOn(a' + [c] + b, [c]);
    AppendAssociates([a[..i]], SplitOn(a', [c]), SplitOn(b, [c]));
  }

  lemma CutAround(a: string, c: char, b: string, i: nat)
    requires i < |a|
    ensures (a + [c] + b)[..i] == a[..i]
    ensures (a + [c] + b)[i + 1..] == a[i + 1..] + [c] + b
  {
  }

  /** The pieces of an all-whitespace string are all whitespace. */
  lemma {:induction false} SplitOnKeepsWhitespace(s: string, sep: string)
    requires sep != [] && AllWhitespace(s)
    ensures forall k :: 0 <= k < |SplitOn(s, sep)| ==> AllWhitespace(SplitOn(s, sep)[k])
    decreases |s|
  {
    match IndexOf(s, sep)
    case None =>
    case Some(i) =>
      assert AllWhitespace(s[..i]) by {
        forall n | 0 <= n < i ensures IsWhitespace(s[..i][n]) { assert s[..i][n] == s[n]; }
      }
      var rest := s[i + |sep|..];
      assert AllWhitespace(rest) by {
        forall n | 0 <= n < |rest| ensures IsWhitespace(rest[n]) { assert rest[n] == s[i + |sep| + n]; }
      }
      SplitOnKeepsWhitespace(rest, sep);
  }

  /** Trim removes one leading space from an already trimmed string and changes nothing else. */
  lemma TrimAfterSpace(s: string)
    requires IsTrimmed(s)
    ensures Trim([' '] + s) == s
  {
    assert ([' '] + s)[1..] == s;
    assert TrimStart([' '] + s) == TrimStart(s) == s;
    assert TrimEnd(s) == s;
  }
}
