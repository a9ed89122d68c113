/**
 * The java.lang.String operations the connectors rely on, on `seq<char>`:
 * startsWith, contains, indexOf, literal replace / replaceAll, the
 * `[<>]` strip, ASCII equalsIgnoreCase, and `split` around a fixed token
 * pattern with the zero-width look-around delimiter
 * `((?<=T)|(?=T))` (Constants.WITH_DELIMITER).
 */
module Strings {

  /** `s.startsWith(prefix)` */
  predicate StartsWith(s: string, prefix: string) {
    |prefix| <= |s| && s[..|prefix|] == prefix
  }

  /** `sub` occurs in `s` starting at index `i`. */
  predicate OccursAt(s: string, sub: string, i: nat) {
    i + |sub| <= |s| && s[i..i + |sub|] == sub
  }

  /** `s.contains(sub)` */
  predicate Contains(s: string, sub: string) {
    exists i :: 0 <= i <= |s| - |sub| && OccursAt(s, sub, i)
  }

  lemma ContainsInRight(a: string, b: string, sub: string)
    requires Contains(b, sub)
    ensures Contains(a + b, sub)
  {
    var i :| 0 <= i <= |b| - |sub| && OccursAt(b, sub, i);
    assert (a + b)[|a| + i..|a| + i + |sub|] == b[i..i + |sub|];
    assert OccursAt(a + b, sub, |a| + i);
  }

  /** The text of a sequence of pieces written one after the other. */
  function Concat(parts: seq<string>): string {
    if parts == [] then "" else parts[0] + Concat(parts[1..])
  }

  lemma {:induction false} ConcatAppend(parts: seq<string>, last: string)
    ensures Concat(parts + [last]) == Concat(parts) + last
  {
    if parts == [] {
      assert parts + [last] == [last];
      assert [last][1..] == [];
    } else {
      assert (parts + [last])[1..] == parts[1..] + [last];
      ConcatAppend(parts[1..], last);
    }
  }

  /** Every piece occurs in the concatenation, none is dropped. */
  lemma {:induction false} ConcatContains(parts: seq<string>, k: nat)
    requires k < |parts|
    ensures Contains(Concat(parts), parts[k])
  {
    if k == 0 {
      assert Concat(parts)[0..|parts[0]|] == parts[0];
      assert OccursAt(Concat(parts), parts[0], 0);
    } else {
      ConcatContains(parts[1..], k - 1);
      ContainsInRight(parts[0], Concat(parts[1..]), parts[k]);
    }
  }

  /** `s.indexOf(c)`: the first index holding `c`, or -1. */
  function IndexOf(s: string, c: char): (r: int)
    ensures r == -1 <==> c !in s
    ensures r != -1 ==> 0 <= r < |s| && s[r] == c && c !in s[..r]
  {
    if s == [] then -1
    else if s[0] == c then 0
    else
      var k := IndexOf(s[1..], c);
      if k == -1 then -1
      else
        assert s[..k + 1] == [s[0]] + s[1..][..k];
        k + 1
  }

  /**
   * `s.replace(target, replacement)`, and `s.replaceAll(target, replacement)`
   * for a target with no regular-expression meta-characters: occurrences are
   * replaced from left to right without overlapping; the replaced text is not
   * scanned again. An empty target matches before every character and at the
   * end.
   */
  function ReplaceAll(s: string, target: string, replacement: string): string
    decreases |s|
  {
    if |target| == 0 then
      if s == [] then replacement else replacement + [s[0]] + ReplaceAll(s[1..], target, replacement)
    else if |s| < |target| then s
    else if s[..|target|] == target then replacement + ReplaceAll(s[|target|..], target, replacement)
    else [s[0]] + ReplaceAll(s[1..], target, replacement)
  }

  /** A character that does not start the target is kept. */
  lemma ReplaceAllKeepHead(c: char, s: string, target: string, replacement: string)
    requires |target| > 0 && target[0] != c
    ensures ReplaceAll([c] + s, target, replacement) == [c] + ReplaceAll(s, target, replacement)
  {
    var cs := [c] + s;
    assert cs[1..] == s;
    if |cs| >= |target| {
      assert cs[..|target|][0] == c;
    }
  }

  /** A prefix that never holds the target's first character is kept. */
  lemma {:induction false} ReplaceAllKeepPrefix(p: string, s: string, target: string, replacement: string)
    requires |target| > 0 && target[0] !in p
    ensures ReplaceAll(p + s, target, replacement) == p + ReplaceAll(s, target, replacement)
    decreases |p|
  {
    if p == [] {
      assert p + s == s;
    } else {
      var rest := ReplaceAll(s, target, replacement);
      calc {
        ReplaceAll(p + s, target, replacement);
        { assert p + s == [p[0]] + (p[1..] + s); }
        ReplaceAll([p[0]] + (p[1..] + s), target, replacement);
        { ReplaceAllKeepHead(p[0], p[1..] + s, target, replacement); }
        [p[0]] + ReplaceAll(p[1..] + s, target, replacement);
        { ReplaceAllKeepPrefix(p[1..], s, target, replacement); }
        [p[0]] + (p[1..] + rest);
        { assert [p[0]] + p[1..] == p; }
        p + rest;
      }
    }
  }

  /** An occurrence of the target at the front is replaced. */
  lemma ReplaceAllMatchHead(s: string, target: string, replacement: string)
    requires |target| > 0
    ensures ReplaceAll(target + s, target, replacement) == replacement + ReplaceAll(s, target, replacement)
  {
    var ts := target + s;
    assert ts[..|target|] == target && ts[|target|..] == s;
  }

  /** A single occurrence of the target, with its first character nowhere else, is replaced. */
  lemma ReplaceAllOnce(p: string, s: string, target: string, replacement: string)
    requires |target| > 0 && target[0] !in p && target[0] !in s
    ensures ReplaceAll(p + target + s, target, replacement) == p + replacement + s
  {
    assert p + target + s == p + (target + s);
    ReplaceAllKeepPrefix(p, target + s, target, replacement);
    ReplaceAllMatchHead(s, target, replacement);
    ReplaceAllAbsent(s, target, replacement);
    assert p + (replacement + s) == p + replacement + s;
  }

  /** A text that never holds the target's first character is left unchanged. */
  lemma {:induction false} ReplaceAllAbsent(s: string, target: string, replacement: string)
    requires |target| > 0 && target[0] !in s
    ensures ReplaceAll(s, target, replacement) == s
    decreases |s|
  {
    if |s| >= |target| {
      assert s[..|target|][0] == s[0];
      assert s[1..] == s[..][1..];
      ReplaceAllAbsent(s[1..], target, replacement);
      assert [s[0]] + s[1..] == s;
    }
  }

  /** An occurrence in the tail of a text is an occurrence one further on in the text. */
  lemma OccursInTail(s: string, sub: string, i: nat)
    requires |s| > 0 && OccursAt(s[1..], sub, i)
    ensures OccursAt(s, sub, i + 1)
  {
    assert s[i + 1..i + 1 + |sub|] == s[1..][i..i + |sub|];
  }

  /** A text that does not start with the target keeps its first character. */
  lemma ReplaceAllSkipHead(s: string, target: string, replacement: string)
    requires |target| > 0 && |s| > 0 && !OccursAt(s, target, 0)
    ensures ReplaceAll(s, target, replacement) == [s[0]] + ReplaceAll(s[1..], target, replacement)
  {
  }

  /** A text in which the target does not occur is left unchanged. */
  lemma {:induction false} ReplaceAllNotContained(s: string, target: string, replacement: string)
    requires |target| > 0 && !Contains(s, target)
    ensures ReplaceAll(s, target, replacement) == s
    decreases |s|
  {
    if |s| >= |target| {
      assert !OccursAt(s, target, 0);
      ReplaceAllSkipHead(s, target, replacement);
      forall i | 0 <= i <= |s[1..]| - |target| && OccursAt(s[1..], target, i)
        ensures false
      {
        OccursInTail(s, target, i);
      }
      ReplaceAllNotContained(s[1..], target, replacement);
      assert [s[0]] + s[1..] == s;
    }
  }

  /** A text that starts with the only occurrence of the target. */
  lemma ReplaceAllOnlyAtHead(target: string, b: string, replacement: string)
    requires |target| > 0
    requires forall i :: OccursAt(target + b, target, i) ==> i == 0
    ensures ReplaceAll(target + b, target, replacement) == replacement + b
  {
    ReplaceAllMatchHead(b, target, replacement);
    assert !Contains(b, target) by {
      forall i | 0 <= i <= |b| - |target| && OccursAt(b, target, i)
        ensures OccursAt(target + b, target, |target| + i)
      {
        assert (target + b)[|target| + i..|target| + i + |target|] == b[i..i + |target|];
      }
    }
    ReplaceAllNotContained(b, target, replacement);
  }

  /** The one occurrence of the target in `a + target + b` is replaced, and nothing else changes. */
  lemma {:induction false} ReplaceAllSingle(a: string, target: string, b: string, replacement: string)
    requires |target| > 0
    requires forall i :: OccursAt(a + target + b, target, i) ==> i == |a|
    ensures ReplaceAll(a + target + b, target, replacement) == a + replacement + b
    decreases |a|
  {
    var s := a + target + b;
    if a == [] {
      assert s == target + b;
      ReplaceAllOnlyAtHead(target, b, replacement);
      assert a + replacement + b == replacement + b;
    } else {
      assert !OccursAt(s, target, 0);
      ReplaceAllSkipHead(s, target, replacement);
      var s' := a[1..] + target + b;
      assert s[1..] == s';
      forall i: nat | OccursAt(s', target, i)
        ensures i == |a[1..]|
      {
        OccursInTail(s, target, i);
      }
      ReplaceAllSingle(a[1..], target, b, replacement);
      assert [a[0]] + (a[1..] + replacement + b) == a + replacement + b;
    }
  }

  /** Removing a one-character target from a text that ends with it and holds it nowhere else. */
  lemma {:induction false} ReplaceAllTrailing(s: string, c: char)
    requires c !in s
    ensures ReplaceAll(s + [c], [c], "") == s
    decreases |s|
  {
    if s == [] {
      assert [] + [c] == [c];
      assert [c][1..] == [];
    } else {
      assert (s + [c])[..1] == [s[0]];
      assert (s + [c])[1..] == s[1..] + [c];
      ReplaceAllTrailing(s[1..], c);
      assert [s[0]] + s[1..] == s;
    }
  }

  predicate IsAngle(c: char) {
    c == '<' || c == '>'
  }

  /** `s.replaceAll("[<>]", "")` */
  function StripAngles(s: string): (r: string)
    ensures forall i :: 0 <= i < |r| ==> !IsAngle(r[i])
  {
    if s == [] then []
    else (if IsAngle(s[0]) then [] else [s[0]]) + StripAngles(s[1..])
  }

  lemma {:induction false} StripAnglesAppend(a: string, b: string)
    ensures StripAngles(a + b) == StripAngles(a) + StripAngles(b)
  {
    if a != [] {
      var head := if IsAngle(a[0]) then [] else [a[0]];
      assert (a + b)[0] == a[0];
      assert (a + b)[1..] == a[1..] + b;
      assert StripAngles(a + b) == head + StripAngles(a[1..] + b);
      StripAnglesAppend(a[1..], b);
      assert StripAngles(a) == head + StripAngles(a[1..]);
    } else {
      assert a + b == b;
    }
  }

  /** `s` holds no '<' and no '>'. */
  predicate NoAngles(s: string) {
    forall i :: 0 <= i < |s| ==> !IsAngle(s[i])
  }

  lemma {:induction false} StripAnglesNone(s: string)
    requires NoAngles(s)
    ensures StripAngles(s) == s
  {
    if s != [] {
      StripAnglesNone(s[1..]);
      assert [s[0]] + s[1..] == s;
    }
  }

  /** Text without angle brackets on either side of `m` is kept as it is. */
  lemma StripAnglesAround(p: string, m: string, q: string)
    requires NoAngles(p) && NoAngles(q)
    ensures StripAngles(p + m + q) == p + StripAngles(m) + q
  {
    StripAnglesAppend(p + m, q);
    StripAnglesAppend(p, m);
    StripAnglesNone(p);
    StripAnglesNone(q);
  }

  /** ASCII case folding, as `Character.toLowerCase` does on ASCII letters. */
  function ToLowerAscii(c: char): char {
    if 'A' <= c <= 'Z' then (c as int + 32) as char else c
  }

  /** `a.equalsIgnoreCase(b)`, with case folding on ASCII letters only. */
  predicate EqualsIgnoreCase(a: string, b: string) {
    |a| == |b| && forall i :: 0 <= i < |a| ==> ToLowerAscii(a[i]) == ToLowerAscii(b[i])
  }

  // ---------------------------------------------------------------------------
  // split with the zero-width delimiter ((?<=T)|(?=T))

  /**
   * Position `p` of `s` matches the delimiter: a token ends at `p` (the
   * look-behind) or a token starts at `p` (the look-ahead).
   */
  predicate IsCut(s: string, isToken: string -> bool, p: nat)
    requires p <= |s|
  {
    || (exists i :: 0 <= i < p && isToken(s[i..p]))
    || (exists j :: p < j <= |s| && isToken(s[p..j]))
  }

  /**
   * The pieces of `s[start..]`, cut at every delimiter match at a position
   * `p..|s|-1`. A match at position 0 yields no leading empty piece and a
   * match at the end no trailing one, as `String.split` does (Java 8 on).
   */
  function Pieces(s: string, isToken: string -> bool, start: nat, p: nat): seq<string>
    requires start < p && start <= |s|
    decreases |s| - p
  {
    if p >= |s| then [s[start..]]
    else if IsCut(s, isToken, p) then [s[start..p]] + Pieces(s, isToken, p, p + 1)
    else Pieces(s, isToken, start, p + 1)
  }

  /** `s.split(String.format(WITH_DELIMITER, T))` */
  function Split(s: string, isToken: string -> bool): seq<string> {
    Pieces(s, isToken, 0, 1)
  }

  lemma {:induction false} PiecesConcat(s: string, isToken: string -> bool, start: nat, p: nat)
    requires start < p && start <= |s|
    ensures Concat(Pieces(s, isToken, start, p)) == s[start..]
    decreases |s| - p
  {
    if p >= |s| {
      assert [s[start..]][1..] == [];
    } else if IsCut(s, isToken, p) {
      var rest := Pieces(s, isToken, p, p + 1);
      PiecesConcat(s, isToken, p, p + 1);
      assert ([s[start..p]] + rest)[1..] == rest;
      assert s[start..p] + s[p..] == s[start..];
    } else {
      PiecesConcat(s, isToken, start, p + 1);
    }
  }

  /** The split loses no character: its pieces concatenate back to the input. */
  lemma SplitConcat(s: string, isToken: string -> bool)
    ensures Concat(Split(s, isToken)) == s
  {
    PiecesConcat(s, isToken, 0, 1);
  }

  lemma {:induction false} PiecesSkip(s: string, isToken: string -> bool, start: nat, p: nat, q: nat)
    requires start < p <= q <= |s|
    requires forall r :: p <= r < q ==> !IsCut(s, isToken, r)
    ensures Pieces(s, isToken, start, p) == Pieces(s, isToken, start, q)
    decreases q - p
  {
    if p < q {
      PiecesSkip(s, isToken, start, p + 1, q);
    }
  }

  /** A text in which the delimiter matches nowhere inside is a single piece. */
  lemma SplitNoCut(s: string, isToken: string -> bool)
    requires forall p :: 0 < p < |s| ==> !IsCut(s, isToken, p)
    ensures Split(s, isToken) == [s]
  {
    if |s| > 1 {
      PiecesSkip(s, isToken, 0, 1, |s|);
    }
  }

  /** Tokens open with '<', close with '>' and hold neither in between. */
  ghost predicate Delimited(isToken: string -> bool) {
    forall t :: isToken(t) ==>
      && 2 <= |t| && t[0] == '<' && t[|t| - 1] == '>'
      && forall i :: 0 < i < |t| - 1 ==> !IsAngle(t[i])
  }

  /** The delimiter can only match next to an angle bracket. */
  lemma CutNeedsAngle(s: string, isToken: string -> bool, p: nat)
    requires Delimited(isToken) && 0 < p < |s|
    ensures IsCut(s, isToken, p) ==> s[p - 1] == '>' || s[p] == '<'
  {
    if exists i :: 0 <= i < p && isToken(s[i..p]) {
      var i :| 0 <= i < p && isToken(s[i..p]);
      assert s[i..p][p - i - 1] == s[p - 1];
    } else if exists j :: p < j <= |s| && isToken(s[p..j]) {
      var j :| p < j <= |s| && isToken(s[p..j]);
      assert s[p..j][0] == s[p];
    }
  }

  /** The delimiter never matches strictly inside a token. */
  lemma NoCutInsideToken(s: string, isToken: string -> bool, i: nat, j: nat, p: nat)
    requires Delimited(isToken) && i < p < j <= |s| && isToken(s[i..j])
    ensures !IsCut(s, isToken, p)
  {
    var t := s[i..j];
    assert s[p - 1] == t[p - 1 - i] && s[p] == t[p - i];
    assert s[p - 1] != '>' && s[p] != '<';
    CutNeedsAngle(s, isToken, p);
  }

  lemma {:induction false} TokenInPieces(s: string, isToken: string -> bool, start: nat, p: nat, i: nat, j: nat)
    requires Delimited(isToken) && i < j <= |s| && isToken(s[i..j])
    requires start < p && start <= |s|
    requires start == i || p <= i
    requires start == i ==> p <= j
    requires start == i ==> forall r :: i < r < p ==> !IsCut(s, isToken, r)
    ensures s[i..j] in Pieces(s, isToken, start, p)
    decreases |s| - p
  {
    if p >= |s| {
      // only a piece opened at the token's start can reach the end here
      if start != i {
        assert false;
      }
      assert s[start..] == s[i..j];
    } else if p < i {
      if IsCut(s, isToken, p) {
        TokenInPieces(s, isToken, p, p + 1, i, j);
      } else {
        TokenInPieces(s, isToken, start, p + 1, i, j);
      }
    } else if p == i {
      assert start != i;
      assert IsCut(s, isToken, p) by {
        assert p < j <= |s| && isToken(s[p..j]);
      }
      TokenInPieces(s, isToken, p, p + 1, i, j);
    } else if p < j {
      assert start == i;
      NoCutInsideToken(s, isToken, i, j, p);
      TokenInPieces(s, isToken, start, p + 1, i, j);
    } else {
      assert start == i && p == j;
      assert IsCut(s, isToken, p) by {
        assert 0 <= i < p && isToken(s[i..p]);
      }
    }
  }

  /** A token occurring in the text comes out of the split as one whole piece. */
  lemma TokenIsWholePiece(s: string, isToken: string -> bool, i: nat, j: nat)
    requires Delimited(isToken) && i < j <= |s| && isToken(s[i..j])
    ensures s[i..j] in Split(s, isToken)
  {
    TokenInPieces(s, isToken, 0, 1, i, j);
  }
}
