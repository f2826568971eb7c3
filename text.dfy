/**
 * The JavaScript string primitives the simulation relies on: white space as
 * `String.prototype.trim` sees it, `trim`, `split` on one character,
 * `includes`, `replace` of the first occurrence of a character, and
 * `replace(/c/g, '')`.
 */
module Text {

  /** ECMAScript WhiteSpace and LineTerminator code points: what `trim` removes and `parseFloat` skips. */
  predicate IsWhite(c: char) {
    ('\t' <= c <= '\r') || c == ' ' || c == '\U{A0}' || c == '\U{1680}'
    || ('\U{2000}' <= c <= '\U{200A}') || ('\U{2028}' <= c <= '\U{2029}')
    || c == '\U{202F}' || c == '\U{205F}' || c == '\U{3000}' || c == '\U{FEFF}'
  }

  /** Every character of `s` is white space. */
  predicate AllWhite(s: string) {
    forall i :: 0 <= i < |s| ==> IsWhite(s[i])
  }

  /** `s` neither starts nor ends with white space. */
  predicate Trimmed(s: string) {
    s == [] || (!IsWhite(s[0]) && !IsWhite(s[|s| - 1]))
  }

  /** The number of white-space characters `s` starts with. */
  function LeadingWhite(s: string): (n: nat)
    ensures n <= |s|
    ensures forall i :: 0 <= i < n ==> IsWhite(s[i])
    ensures n == |s| || !IsWhite(s[n])
  {
    if |s| > 0 && IsWhite(s[0]) then
      var m := LeadingWhite(s[1..]);
      assert forall i :: 1 <= i < 1 + m ==> s[i] == s[1..][i - 1];
      1 + m
    else 0
  }

  /** The number of white-space characters `s` ends with. */
  function TrailingWhite(s: string): (n: nat)
    ensures n <= |s|
    ensures forall i :: |s| - n <= i < |s| ==> IsWhite(s[i])
    ensures n == |s| || !IsWhite(s[|s| - n - 1])
  {
    if |s| > 0 && IsWhite(s[|s| - 1]) then
      var m := TrailingWhite(s[..|s| - 1]);
      assert forall i :: |s| - 1 - m <= i < |s| - 1 ==> s[i] == s[..|s| - 1][i];
      1 + m
    else 0
  }

  /** `s` with its leading white space removed. */
  function TrimStart(s: string): (r: string)
    ensures |r| <= |s| && r == s[|s| - |r|..]
    ensures forall i :: 0 <= i < |s| - |r| ==> IsWhite(s[i])
    ensures r == [] || !IsWhite(r[0])
  {
    s[LeadingWhite(s)..]
  }

  /** `s` with its trailing white space removed. */
  function TrimEnd(s: string): (r: string)
    ensures |r| <= |s| && r == s[..|r|]
    ensures forall i :: |r| <= i < |s| ==> IsWhite(s[i])
    ensures r == [] || !IsWhite(r[|r| - 1])
  {
    s[..|s| - TrailingWhite(s)]
  }

  /**
   * `String.prototype.trim`: white space cut from both ends (what is cut is
   * white by the contracts of TrimStart and TrimEnd); the result is empty
   * exactly when `s` is all white space.
   */
  function Trim(s: string): (r: string)
    ensures Trimmed(r)
    ensures r == [] <==> AllWhite(s)
    ensures LeadingWhite(s) + |r| <= |s| && r == s[LeadingWhite(s)..LeadingWhite(s) + |r|]
    ensures AllWhite(s[..LeadingWhite(s)]) && AllWhite(s[LeadingWhite(s) + |r|..])
    ensures forall c :: c in r ==> c in s
  {
    TrimBothEnds(s);
    TrimEmptyIffWhite(s);
    TrimIsInfix(s);
    TrimEnd(TrimStart(s))
  }

  lemma {:induction false} TrimBothEnds(s: string)
    ensures Trimmed(TrimEnd(TrimStart(s)))
  {
    var a := TrimStart(s);
    var b := TrimEnd(a);
    if b != [] {
      assert b[0] == a[0];
    }
  }

  lemma {:induction false} TrimEmptyIffWhite(s: string)
    ensures TrimEnd(TrimStart(s)) == [] <==> AllWhite(s)
  {
    var a := TrimStart(s);
    var n := |s| - |a|;
    assert forall i :: n <= i < |s| ==> s[i] == a[i - n];
    assert a != [] ==> a[0] == s[n];
  }

  /** The trimmed text is the infix of `s` between its leading and its trailing white space. */
  lemma {:induction false} TrimIsInfix(s: string)
    ensures var r := TrimEnd(TrimStart(s)); var i := LeadingWhite(s);
      i + |r| <= |s| && r == s[i..i + |r|] && AllWhite(s[..i]) && AllWhite(s[i + |r|..])
    ensures forall c :: c in TrimEnd(TrimStart(s)) ==> c in s
  {
    var i := LeadingWhite(s);
    var a := TrimStart(s);
    var r := TrimEnd(a);
    assert a == s[i..];
    assert r == s[i..i + |r|];
    forall k | 0 <= k < i ensures IsWhite(s[..i][k]) {
    }
    var after := s[i + |r|..];
    forall k | 0 <= k < |after| ensures IsWhite(after[k]) {
      assert after[k] == a[|r| + k];
    }
    forall c | c in r ensures c in s {
      var k :| 0 <= k < |r| && r[k] == c;
      assert s[i + k] == c;
    }
  }

  /** The number of occurrences of `c` in `s`. */
  function Count(s: string, c: char): nat {
    if s == [] then 0 else (if s[0] == c then 1 else 0) + Count(s[1..], c)
  }

  /** `s.split(sep)` for a one-character separator: the pieces between separators, in order. */
  function Split(s: string, sep: char): (r: seq<string>)
    ensures |r| == Count(s, sep) + 1
    ensures forall k :: 0 <= k < |r| ==> sep !in r[k]
  {
    if s == [] then [""]
    else
      var rest := Split(s[1..], sep);
      if s[0] == sep then [""] + rest else [[s[0]] + rest[0]] + rest[1..]
  }

  /** `pieces.join(sep)`. */
  function Join(pieces: seq<string>, sep: char): string {
    if |pieces| == 0 then ""
    else if |pieces| == 1 then pieces[0]
    else pieces[0] + [sep] + Join(pieces[1..], sep)
  }

  /** Splitting loses nothing: joining the pieces with the separator gives the text back. */
  lemma {:induction false} JoinSplit(s: string, sep: char)
    ensures Join(Split(s, sep), sep) == s
  {
    if s != [] {
      var rest := Split(s[1..], sep);
      JoinSplit(s[1..], sep);
      if s[0] == sep {
        assert Split(s, sep) == [""] + rest;
        assert ([""] + rest)[1..] == rest;
      } else {
        if |rest| > 1 {
          assert ([[s[0]] + rest[0]] + rest[1..])[1..] == rest[1..];
        }
      }
    }
  }

  /** `s.includes(p)`: `p` occurs in `s` as a contiguous substring. */
  predicate Contains(s: string, p: string): (b: bool)
    ensures p == [] ==> b
    ensures b ==> |p| <= |s|
    ensures forall a, z :: s == a + p + z ==> b
  {
    assert forall a, z :: s == a + p + z ==> OccursAt(s, p, |a|) by {
      forall a, z | s == a + p + z ensures OccursAt(s, p, |a|) {
        assert s[|a|..|a| + |p|] == p;
      }
    }
    assert p == [] ==> OccursAt(s, p, 0);
    exists i :: 0 <= i <= |s| - |p| && OccursAt(s, p, i)
  }

  /** Conversely, a text that contains `p` splits around an occurrence of it. */
  lemma ContainsSplits(s: string, p: string)
    requires Contains(s, p)
    ensures exists a, z :: s == a + p + z
  {
    var i :| 0 <= i <= |s| - |p| && OccursAt(s, p, i);
    assert s == s[..i] + p + s[i + |p|..];
  }

  /** `s.includes(';')` for a one-character pattern is membership of that character. */
  lemma {:induction false} ContainsChar(s: string, c: char)
    ensures Contains(s, [c]) <==> c in s
  {
    if c in s {
      var i :| 0 <= i < |s| && s[i] == c;
      assert s[i..i + 1] == [c];
      assert OccursAt(s, [c], i);
    }
    if Contains(s, [c]) {
      var i :| 0 <= i <= |s| - 1 && OccursAt(s, [c], i);
      assert s[i..i + 1][0] == s[i];
    }
  }

  /** `p` occurs in `s` starting at position `i`. */
  predicate OccursAt(s: string, p: string, i: int) {
    0 <= i <= |s| - |p| && s[i..i + |p|] == p
  }

  /** `s.replace(/c/g, '')`: `s` with every `c` removed, everything else kept in order. */
  function RemoveAll(s: string, c: char): (r: string)
    ensures c !in r
    ensures forall d :: d in r <==> d in s && d != c
    ensures |r| == |s| - Count(s, c)
  {
    if s == [] then "" else (if s[0] == c then "" else [s[0]]) + RemoveAll(s[1..], c)
  }

  /** Removal distributes over concatenation, so the kept characters stay in their order. */
  lemma {:induction false} RemoveAllAppend(a: string, b: string, c: char)
    ensures RemoveAll(a + b, c) == RemoveAll(a, c) + RemoveAll(b, c)
  {
    if a == [] {
      assert a + b == b;
    } else {
      assert (a + b)[1..] == a[1..] + b;
      RemoveAllAppend(a[1..], b, c);
    }
  }

  /** One character is dropped exactly when it is `c`. */
  lemma RemoveAllChar(d: char, c: char)
    ensures RemoveAll([d], c) == if d == c then [] else [d]
  {
    assert [d][1..] == [];
  }

  /** `s.replace(from, to)` with a one-character pattern: only the first occurrence is replaced. */
  function ReplaceFirst(s: string, from: char, to: char): (r: string)
    ensures |r| == |s|
    ensures forall i :: 0 <= i < |s| ==> r[i] == (if s[i] == from && from !in s[..i] then to else s[i])
  {
    if s == [] then ""
    else if s[0] == from then
      assert forall i :: 1 <= i < |s| ==> s[..i][0] == from;
      [to] + s[1..]
    else
      var rest := ReplaceFirst(s[1..], from, to);
      assert forall i :: 1 <= i < |s| ==> (from in s[..i] <==> from in s[1..][..i - 1]) by {
        forall i | 1 <= i < |s| ensures from in s[..i] <==> from in s[1..][..i - 1] {
          assert s[..i] == [s[0]] + s[1..][..i - 1];
        }
      }
      [s[0]] + rest
  }

  /** Replacing the first occurrence of `from` when it follows a prefix free of it. */
  lemma {:induction false} ReplaceFirstAfter(a: string, b: string, from: char, to: char)
    requires from !in a
    ensures ReplaceFirst(a + ([from] + b), from, to) == a + ([to] + b)
  {
    if a != [] {
      assert (a + ([from] + b))[1..] == a[1..] + ([from] + b);
      ReplaceFirstAfter(a[1..], b, from, to);
      assert a == [a[0]] + a[1..];
    }
  }
}
