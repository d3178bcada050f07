/**
 * The JavaScript string operations the snippet components rely on, over
 * `seq<char>`: `indexOf`/`lastIndexOf` on one character, `split` on a
 * one-character separator, `join`, `includes`, `startsWith`, `endsWith`,
 * `trim`, number-to-decimal interpolation and `parseInt(_, 10)` on digits.
 */
module Strings {

  /** `s.indexOf(c)`: the first position holding `c`, or -1. */
  function IndexOf(s: string, c: char): (i: int)
    ensures -1 <= i < |s|
    ensures i >= 0 ==> s[i] == c
  {
    if |s| == 0 then -1
    else if s[0] == c then 0
    else
      var j := IndexOf(s[1..], c);
      if j < 0 then -1 else j + 1
  }

  /** `IndexOf` finds the first occurrence, and finds none only when there is none. */
  lemma {:induction false} IndexOfFirst(s: string, c: char)
    ensures var i := IndexOf(s, c);
            (i >= 0 ==> c !in s[..i]) && (i == -1 <==> c !in s)
    decreases |s|
  {
    if |s| > 0 && s[0] != c {
      var j := IndexOf(s[1..], c);
      IndexOfFirst(s[1..], c);
      assert s == [s[0]] + s[1..];
      if j >= 0 {
        assert s[..j + 1] == [s[0]] + s[1..][..j];
      }
    }
  }

  /** `s.lastIndexOf(c)`: the last position holding `c`, or -1. */
  function LastIndexOf(s: string, c: char): (i: int)
    ensures -1 <= i < |s|
    ensures i >= 0 ==> s[i] == c
    ensures forall k :: i < k < |s| ==> s[k] != c
  {
    if |s| == 0 then -1
    else if s[|s| - 1] == c then |s| - 1
    else LastIndexOf(s[..|s| - 1], c)
  }

  /** Number of occurrences of `c` in `s`. */
  function Count(s: string, c: char): nat {
    if |s| == 0 then 0 else (if s[0] == c then 1 else 0) + Count(s[1..], c)
  }

  /**
   * `s.split(sep)` for a one-character separator: the maximal
   * separator-free pieces between the separators, so never empty.
   */
  function Split(s: string, sep: char): (parts: seq<string>)
    decreases |s|
    ensures |parts| >= 1
    ensures forall p :: p in parts ==> sep !in p
  {
    var i := IndexOf(s, sep);
    IndexOfFirst(s, sep);
    if i < 0 then [s] else [s[..i]] + Split(s[i + 1..], sep)
  }

  /** `parts.join(sep)`. */
  function Join(parts: seq<string>, sep: string): string {
    if |parts| == 0 then ""
    else if |parts| == 1 then parts[0]
    else parts[0] + sep + Join(parts[1..], sep)
  }

  /** `xs.slice(k)`: everything from position `k` on, empty when too short. */
  function Drop<T>(xs: seq<T>, k: nat): (r: seq<T>)
    ensures |r| == if k <= |xs| then |xs| - k else 0
    ensures forall i :: 0 <= i < |r| ==> r[i] == xs[k + i]
  {
    if k <= |xs| then xs[k..] else []
  }

  /** Splitting at the first separator peels off the text before it. */
  lemma SplitAround(a: string, sep: char, b: string)
    requires sep !in a
    ensures Split(a + [sep] + b, sep) == [a] + Split(b, sep)
  {
    var s := a + [sep] + b;
    assert s[|a|] == sep && s[..|a|] == a;
    IndexOfUnique(s, sep, |a|);
    assert s[|a| + 1..] == b;
  }

  /** The first occurrence is the one with no earlier occurrence before it. */
  lemma IndexOfUnique(s: string, c: char, k: int)
    requires 0 <= k < |s| && s[k] == c && forall m :: 0 <= m < k ==> s[m] != c
    ensures IndexOf(s, c) == k
  {
    var j := IndexOf(s, c);
    IndexOfFirst(s, c);
    assert forall m :: 0 <= m < k ==> s[m] == s[..k][m];
    assert forall m :: 0 <= m < j ==> s[m] == s[..j][m];
  }

  /** A join of several pieces starts with the first piece and a separator. */
  lemma JoinCons(a: string, tail: seq<string>, sep: string)
    requires |tail| >= 1
    ensures Join([a] + tail, sep) == a + sep + Join(tail, sep)
  {
    assert ([a] + tail)[1..] == tail;
  }

  /** Joining the pieces of a split gives back the original text. */
  lemma {:induction false} JoinSplit(s: string, sep: char)
    ensures Join(Split(s, sep), [sep]) == s
    decreases |s|
  {
    var i := IndexOf(s, sep);
    IndexOfFirst(s, sep);
    if i >= 0 {
      var a, rest := s[..i], s[i + 1..];
      assert s == a + [sep] + rest;
      SplitAround(a, sep, rest);
      var tail := Split(rest, sep);
      JoinSplit(rest, sep);
      JoinCons(a, tail, [sep]);
    }
  }

  /** Splitting a join of separator-free pieces gives back the pieces. */
  lemma {:induction false} SplitJoin(parts: seq<string>, sep: char)
    requires |parts| >= 1
    requires forall p :: p in parts ==> sep !in p
    ensures Split(Join(parts, [sep]), sep) == parts
    decreases |parts|
  {
    if |parts| == 1 {
      assert sep !in parts[0];
    } else {
      var head, tail := parts[0], parts[1..];
      assert head in parts;
      assert forall p :: p in tail ==> p in parts;
      assert parts == [head] + tail;
      SplitJoinStep(head, tail, sep);
      SplitJoin(tail, sep);
    }
  }

  lemma SplitJoinStep(head: string, tail: seq<string>, sep: char)
    requires sep !in head && |tail| >= 1
    ensures Split(Join([head] + tail, [sep]), sep) == [head] + Split(Join(tail, [sep]), sep)
  {
    JoinCons(head, tail, [sep]);
    SplitAround(head, sep, Join(tail, [sep]));
  }

  /** A split yields one more piece than there are separators. */
  lemma {:induction false} SplitCount(s: string, sep: char)
    ensures |Split(s, sep)| == Count(s, sep) + 1
    decreases |s|
  {
    var i := IndexOf(s, sep);
    IndexOfFirst(s, sep);
    if i < 0 {
      CountAbsent(s, sep);
    } else {
      SplitCount(s[i + 1..], sep);
      CountAbsent(s[..i], sep);
      CountAppend(s[..i], [sep] + s[i + 1..], sep);
      assert s == s[..i] + ([sep] + s[i + 1..]);
      assert ([sep] + s[i + 1..])[1..] == s[i + 1..];
    }
  }

  lemma {:induction false} CountAbsent(s: string, c: char)
    requires c !in s
    ensures Count(s, c) == 0
    decreases |s|
  {
    if |s| > 0 {
      assert s[0] != c;
      assert forall x :: x in s[1..] ==> x in s;
      CountAbsent(s[1..], c);
    }
  }

  lemma {:induction false} CountAppend(a: string, b: string, c: char)
    ensures Count(a + b, c) == Count(a, c) + Count(b, c)
    decreases |a|
  {
    if |a| > 0 {
      assert (a + b)[1..] == a[1..] + b;
      CountAppend(a[1..], b, c);
    } else {
      assert a + b == b;
    }
  }

  /** The last occurrence is the one with no further occurrence after it. */
  lemma LastIndexUnique(s: string, c: char, k: int)
    requires -1 <= k < |s| && (k >= 0 ==> s[k] == c) && forall m :: k < m < |s| ==> s[m] != c
    ensures LastIndexOf(s, c) == k
  {
  }

  /** `p` is a separator-free end of `s`, just after a separator if it is not all of it. */
  predicate EndPiece(s: string, sep: char, p: string) {
    (forall k :: 0 <= k < |p| ==> p[k] != sep) &&
    |p| <= |s| && s[|s| - |p|..] == p && (|p| < |s| ==> s[|s| - |p| - 1] == sep)
  }

  /**
   * The last piece of a split is an end piece of the text: the text after
   * the last separator.
   */
  lemma {:induction false} SplitLast(s: string, sep: char)
    ensures EndPiece(s, sep, Split(s, sep)[|Split(s, sep)| - 1])
    ensures Split(s, sep)[|Split(s, sep)| - 1] == s[LastIndexOf(s, sep) + 1..]
    decreases |s|
  {
    var i := IndexOf(s, sep);
    var parts := Split(s, sep);
    IndexOfFirst(s, sep);
    if i < 0 {
      assert parts[|parts| - 1] == s;
      assert s[0..] == s;
      assert EndPiece(s, sep, s);
    } else {
      var rest := s[i + 1..];
      SplitLast(rest, sep);
      var tail := Split(rest, sep);
      var p := tail[|tail| - 1];
      assert parts[|parts| - 1] == p;
      EndPieceShift(s, sep, i, p);
    }
    EndPieceAfterLast(s, sep, parts[|parts| - 1]);
  }

  /** An end piece of the text after a separator is an end piece of the whole. */
  lemma EndPieceShift(s: string, sep: char, i: int, p: string)
    requires 0 <= i < |s| && s[i] == sep && EndPiece(s[i + 1..], sep, p)
    ensures EndPiece(s, sep, p)
  {
    var rest := s[i + 1..];
    assert s[|s| - |p|..] == rest[|rest| - |p|..];
    if |p| < |rest| {
      assert s[|s| - |p| - 1] == rest[|rest| - |p| - 1];
    }
  }

  /** An end piece of the text is what follows its last separator. */
  lemma EndPieceAfterLast(s: string, sep: char, p: string)
    requires EndPiece(s, sep, p)
    ensures s[LastIndexOf(s, sep) + 1..] == p
  {
    var start := |s| - |p|;
    var q := s[start..];
    assert q == p;
    forall m | start <= m < |s|
      ensures s[m] != sep
    {
      assert s[m] == q[m - start];
    }
    LastIndexUnique(s, sep, start - 1);
  }

  /** There is one piece exactly when the separator does not occur. */
  lemma SplitSingle(s: string, sep: char)
    ensures |Split(s, sep)| == 1 <==> sep !in s
  {
    IndexOfFirst(s, sep);
    if sep in s {
      var i := IndexOf(s, sep);
      assert Split(s, sep) == [s[..i]] + Split(s[i + 1..], sep);
    }
  }

  /** `s.startsWith(prefix)`. */
  predicate StartsWith(s: string, prefix: string) {
    |prefix| <= |s| && s[..|prefix|] == prefix
  }

  /** `s.endsWith(suffix)`. */
  predicate EndsWith(s: string, suffix: string) {
    |suffix| <= |s| && s[|s| - |suffix|..] == suffix
  }

  /** `s.includes(sub)`. */
  predicate Contains(s: string, sub: string)
    decreases |s|
  {
    StartsWith(s, sub) || (|s| > 0 && Contains(s[1..], sub))
  }

  /** `sub` occurs in `s` starting at position `i`. */
  predicate OccursAt(s: string, sub: string, i: int) {
    0 <= i <= |s| - |sub| && s[i..i + |sub|] == sub
  }

  /** `Contains` holds exactly when `sub` occurs at some position. */
  lemma {:induction false} ContainsAt(s: string, sub: string)
    ensures Contains(s, sub) <==> exists i :: OccursAt(s, sub, i)
    decreases |s|
  {
    if StartsWith(s, sub) {
      assert OccursAt(s, sub, 0);
    }
    if |s| > 0 {
      ContainsAt(s[1..], sub);
      if Contains(s[1..], sub) {
        var i :| OccursAt(s[1..], sub, i);
        assert s[i + 1..i + 1 + |sub|] == s[1..][i..i + |sub|];
        assert OccursAt(s, sub, i + 1);
      }
      if exists i :: OccursAt(s, sub, i) {
        var i :| OccursAt(s, sub, i);
        if i > 0 {
          assert s[1..][i - 1..i - 1 + |sub|] == s[i..i + |sub|];
          assert OccursAt(s[1..], sub, i - 1);
        } else {
          assert StartsWith(s, sub);
        }
      }
    } else if exists i :: OccursAt(s, sub, i) {
      var i :| OccursAt(s, sub, i);
      assert StartsWith(s, sub);
    }
  }

  /** Text that occurs inside a longer text is contained in it. */
  lemma ContainsInfix(a: string, sub: string, b: string)
    ensures Contains(a + sub + b, sub)
  {
    var s := a + sub + b;
    assert s[|a|..|a| + |sub|] == sub;
    assert OccursAt(s, sub, |a|);
    ContainsAt(s, sub);
  }

  /** Whatever contains `a + sub + b` contains `sub`. */
  lemma ContainsWithin(s: string, a: string, sub: string, b: string)
    requires Contains(s, a + sub + b)
    ensures Contains(s, sub)
  {
    var w := a + sub + b;
    ContainsAt(s, w);
    var i :| OccursAt(s, w, i);
    var j := i + |a|;
    forall k | 0 <= k < |sub|
      ensures s[j + k] == sub[k]
    {
      assert s[j + k] == s[i..i + |w|][|a| + k];
      assert w[|a| + k] == sub[k];
    }
    assert s[j..j + |sub|] == sub;
    assert OccursAt(s, sub, j);
    ContainsAt(s, sub);
  }

  /**
   * White space and line terminators as `String.prototype.trim` removes
   * them: TAB, VT, FF, SP, NBSP, ZWNBSP, the other space separators, LF,
   * CR, LS and PS.
   */
  predicate IsSpace(c: char) {
    c == ' ' || c == '\t' || c == '\n' || c == '\r' || c == '\U{B}' || c == '\U{C}'
    || c == '\U{A0}' || c == '\U{1680}' || ('\U{2000}' <= c <= '\U{200A}')
    || c == '\U{2028}' || c == '\U{2029}' || c == '\U{202F}' || c == '\U{205F}'
    || c == '\U{3000}' || c == '\U{FEFF}'
  }

  /** Drops the leading white space. */
  function TrimStart(s: string): (r: string)
    decreases |s|
    ensures |r| <= |s| && r == s[|s| - |r|..]
    ensures |r| > 0 ==> !IsSpace(r[0])
    ensures forall i :: 0 <= i < |s| - |r| ==> IsSpace(s[i])
  {
    if |s| > 0 && IsSpace(s[0]) then TrimStart(s[1..]) else s
  }

  /** Drops the trailing white space. */
  function TrimEnd(s: string): (r: string)
    decreases |s|
    ensures |r| <= |s| && r == s[..|r|]
    ensures |r| > 0 ==> !IsSpace(r[|r| - 1])
    ensures forall i :: |r| <= i < |s| ==> IsSpace(s[i])
  {
    if |s| > 0 && IsSpace(s[|s| - 1]) then TrimEnd(s[..|s| - 1]) else s
  }

  /** `s.trim()`. */
  function Trim(s: string): string {
    TrimEnd(TrimStart(s))
  }

  predicate IsDigit(c: char) {
    '0' <= c <= '9'
  }

  predicate AllDigits(s: string) {
    forall i :: 0 <= i < |s| ==> IsDigit(s[i])
  }

  function DigitChar(d: nat): (c: char)
    requires d < 10
    ensures IsDigit(c) && c as int - '0' as int == d
  {
    "0123456789"[d]
  }

  /** Template-literal interpolation `${n}` of a non-negative integer. */
  function NatToString(n: nat): (s: string)
    ensures |s| >= 1 && AllDigits(s)
  {
    if n < 10 then [DigitChar(n)] else NatToString(n / 10) + [DigitChar(n % 10)]
  }

  /** `parseInt(s, 10)` on a string of decimal digits. */
  function DecimalValue(s: string): nat
    requires AllDigits(s)
  {
    if |s| == 0 then 0
    else DecimalValue(s[..|s| - 1]) * 10 + (s[|s| - 1] as int - '0' as int)
  }

  /** Reading back a printed number gives the number. */
  lemma {:induction false} DecimalRoundTrip(n: nat)
    ensures DecimalValue(NatToString(n)) == n
  {
    if n >= 10 {
      DecimalRoundTrip(n / 10);
      var s := NatToString(n);
      assert s[..|s| - 1] == NatToString(n / 10);
    }
  }
}
