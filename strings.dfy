/**
 * The handful of Python string operations the encoder and the decoder use:
 * `str.split` on a one-character separator, the `in` substring test,
 * `str.strip`, `str.lower` and the decimal formatting of integers.
 */
module Strings {
  import opened Common

  /** Python's `s.split(sep)`: the pieces between separators, empty pieces kept. */
  function Split(s: string, sep: char): (parts: seq<string>)
    ensures |parts| >= 1
    ensures forall k :: 0 <= k < |parts| ==> sep !in parts[k]
    decreases |s|
  {
    if s == [] then [[]]
    else
      var rest := Split(s[1..], sep);
      if s[0] == sep then [[]] + rest
      else [[s[0]] + rest[0]] + rest[1..]
  }

  /** Python's `sep.join(parts)`. */
  function Join(parts: seq<string>, sep: char): string
    requires |parts| >= 1
  {
    if |parts| == 1 then parts[0] else parts[0] + [sep] + Join(parts[1..], sep)
  }

  /** Joining the pieces of a split gives the text back. */
  lemma {:induction false} JoinSplit(s: string, sep: char)
    ensures Join(Split(s, sep), sep) == s
    decreases |s|
  {
    if s != [] {
      var rest := Split(s[1..], sep);
      JoinSplit(s[1..], sep);
      if s[0] == sep {
        assert Split(s, sep) == [[]] + rest;
        assert ([[]] + rest)[1..] == rest;
      } else {
        var parts := Split(s, sep);
        assert parts == [[s[0]] + rest[0]] + rest[1..];
        if |rest| == 1 {
          assert Join(parts, sep) == [s[0]] + rest[0];
        } else {
          assert parts[1..] == rest[1..];
          assert Join(rest, sep) == rest[0] + [sep] + Join(rest[1..], sep);
          assert Join(parts, sep) == [s[0]] + rest[0] + [sep] + Join(rest[1..], sep);
        }
      }
    }
  }

  /** Text without the separator splits into itself. */
  lemma {:induction false} SplitNoSeparator(s: string, sep: char)
    requires sep !in s
    ensures Split(s, sep) == [s]
    decreases |s|
  {
    if s != [] {
      assert sep !in s[1..];
      SplitNoSeparator(s[1..], sep);
      assert [s[0]] + s[1..] == s;
    }
  }

  /** The piece before the first separator is split off whole. */
  lemma {:induction false} SplitAfterFirst(x: string, sep: char, y: string)
    requires sep !in x
    ensures Split(x + [sep] + y, sep) == [x] + Split(y, sep)
    decreases |x|
  {
    var s := x + [sep] + y;
    if x == [] {
      assert s[1..] == y;
    } else {
      assert s[1..] == x[1..] + [sep] + y;
      assert sep !in x[1..];
      SplitAfterFirst(x[1..], sep, y);
      assert [x[0]] + x[1..] == x;
    }
  }

  /** A split has a second piece exactly when the separator occurs. */
  lemma {:induction false} SplitHasSecondPiece(s: string, sep: char)
    ensures |Split(s, sep)| >= 2 <==> sep in s
    decreases |s|
  {
    if s != [] {
      SplitHasSecondPiece(s[1..], sep);
      assert s == [s[0]] + s[1..];
    }
  }

  /** `sub` occurs in `s` starting at index `k`. */
  predicate OccursAt(s: string, sub: string, k: nat)
  {
    k + |sub| <= |s| && s[k..k + |sub|] == sub
  }

  /** Python's `sub in s`. */
  function Contains(s: string, sub: string): bool
    decreases |s|
  {
    if |sub| <= |s| && s[..|sub|] == sub then true
    else if s == [] then false
    else Contains(s[1..], sub)
  }

  /** `sub in s` holds exactly when `sub` occurs in `s` at some index. */
  lemma {:induction false} ContainsOccurs(s: string, sub: string)
    ensures Contains(s, sub) <==> exists k: nat :: k + |sub| <= |s| && OccursAt(s, sub, k)
    decreases |s|
  {
    if |sub| <= |s| && s[..|sub|] == sub {
      assert OccursAt(s, sub, 0);
    } else if s != [] {
      ContainsOccurs(s[1..], sub);
      assert forall k: nat :: k + |sub| <= |s[1..]| ==> (OccursAt(s[1..], sub, k) <==> OccursAt(s, sub, k + 1));
      if Contains(s, sub) {
        var k: nat :| k + |sub| <= |s[1..]| && OccursAt(s[1..], sub, k);
        assert OccursAt(s, sub, k + 1);
      }
      if exists k: nat :: k + |sub| <= |s| && OccursAt(s, sub, k) {
        var k: nat :| k + |sub| <= |s| && OccursAt(s, sub, k);
        assert k != 0;
        assert OccursAt(s[1..], sub, k - 1);
      }
    }
  }

  /** Python's `s.lstrip(cs)`: drops the leading characters that are in `cs`. */
  function TrimStart(s: string, cs: set<char>): (r: string)
    ensures |r| <= |s| && r == s[|s| - |r|..]
    ensures forall k :: 0 <= k < |s| - |r| ==> s[k] in cs
    ensures r != [] ==> r[0] !in cs
    decreases |s|
  {
    if s != [] && s[0] in cs then TrimStart(s[1..], cs) else s
  }

  /** Python's `s.rstrip(cs)`: drops the trailing characters that are in `cs`. */
  function TrimEnd(s: string, cs: set<char>): (r: string)
    ensures |r| <= |s| && r == s[..|r|]
    ensures forall k :: |r| <= k < |s| ==> s[k] in cs
    ensures r != [] ==> r[|r| - 1] !in cs
    decreases |s|
  {
    if s != [] && s[|s| - 1] in cs then TrimEnd(s[..|s| - 1], cs) else s
  }

  /** Python's `s.strip(cs)`. */
  function Strip(s: string, cs: set<char>): string
  {
    TrimEnd(TrimStart(s, cs), cs)
  }

  /**
   * What `Strip` keeps: a contiguous part of `s`, everything around it is in `cs`,
   * and it neither starts nor ends with a character of `cs`.
   */
  lemma StripIsMaximalInfix(s: string, cs: set<char>)
    ensures exists a: nat, b: nat ::
              && a <= b <= |s| && Strip(s, cs) == s[a..b]
              && (forall k :: 0 <= k < a ==> s[k] in cs)
              && (forall k :: b <= k < |s| ==> s[k] in cs)
    ensures Strip(s, cs) != [] ==> Strip(s, cs)[0] !in cs && Strip(s, cs)[|Strip(s, cs)| - 1] !in cs
  {
    var t := TrimStart(s, cs);
    var r := TrimEnd(t, cs);
    var a := |s| - |t|;
    StripBounds(s, cs, a, a + |r|);
  }

  /** The two cut points of `Strip`, named. */
  lemma StripBounds(s: string, cs: set<char>, a: nat, b: nat)
    requires a == |s| - |TrimStart(s, cs)| && b == a + |Strip(s, cs)|
    ensures a <= b <= |s| && Strip(s, cs) == s[a..b]
    ensures forall k :: 0 <= k < a ==> s[k] in cs
    ensures forall k :: b <= k < |s| ==> s[k] in cs
  {
    StripInfix(s, cs, a, b);
    StripTail(s, cs, a, b);
  }

  lemma StripInfix(s: string, cs: set<char>, a: nat, b: nat)
    requires a == |s| - |TrimStart(s, cs)| && b == a + |Strip(s, cs)|
    ensures a <= b <= |s| && Strip(s, cs) == s[a..b]
  {
    var t := TrimStart(s, cs);
    var r := TrimEnd(t, cs);
    TakeOfDrop(s, a, |r|);
  }

  lemma StripTail(s: string, cs: set<char>, a: nat, b: nat)
    requires a == |s| - |TrimStart(s, cs)| && b == a + |Strip(s, cs)|
    ensures forall k :: b <= k < |s| ==> s[k] in cs
  {
    var t := TrimStart(s, cs);
    DropTail(s, t, TrimEnd(t, cs), cs, a);
  }

  /** What lies past a prefix `r` of the suffix `t` of `s` is what lies past it in `t`. */
  lemma DropTail(s: string, t: string, r: string, cs: set<char>, a: nat)
    requires a <= |s| && t == s[a..] && |r| <= |t|
    requires forall k :: |r| <= k < |t| ==> t[k] in cs
    ensures forall k :: a + |r| <= k < |s| ==> s[k] in cs
  {
    forall k | a + |r| <= k < |s|
      ensures s[k] in cs
    {
      assert s[k] == t[k - a];
    }
  }

  /** Stripping adds no character: what is not in `s` is not in `Strip(s, cs)`. */
  lemma StripWithout(s: string, cs: set<char>, c: char)
    requires c !in s
    ensures c !in Strip(s, cs)
  {
    var t := TrimStart(s, cs);
    assert t == s[|s| - |t|..];
    assert c !in t;
    var r := TrimEnd(t, cs);
    assert r == t[..|r|];
  }

  /** The characters Python's argument-less `str.strip()` removes (`str.isspace`). */
  const PyWhitespace: set<char> :=
    {'\t', '\n', '\U{0B}', '\U{0C}', '\r', '\U{1C}', '\U{1D}', '\U{1E}', '\U{1F}', ' ',
     '\U{85}', '\U{A0}', '\U{1680}', '\U{2000}', '\U{2001}', '\U{2002}', '\U{2003}', '\U{2004}',
     '\U{2005}', '\U{2006}', '\U{2007}', '\U{2008}', '\U{2009}', '\U{200A}', '\U{2028}',
     '\U{2029}', '\U{202F}', '\U{205F}', '\U{3000}'}

  function LowerChar(c: char): char
  {
    if 'A' <= c <= 'Z' then (c as int - 'A' as int + 'a' as int) as char else c
  }

  /** `str.lower`, on the ASCII letters. */
  function LowerAscii(s: string): (r: string)
    ensures |r| == |s| && forall k :: 0 <= k < |s| ==> r[k] == LowerChar(s[k])
  {
    if s == [] then [] else [LowerChar(s[0])] + LowerAscii(s[1..])
  }

  /** Python's `"".join(parts)`. */
  function Concat(parts: seq<string>): (r: string)
    ensures |r| == 0 <==> forall k :: 0 <= k < |parts| ==> parts[k] == []
  {
    if parts == [] then [] else parts[0] + Concat(parts[1..])
  }

  function DigitChar(d: nat): char
    requires d < 10
  {
    ('0' as int + d) as char
  }

  function DigitValue(c: char): nat
  {
    if '0' <= c <= '9' then c as int - '0' as int else 0
  }

  /** The decimal digits of `n`, as an f-string prints it. */
  function NatToString(n: nat): (s: string)
    ensures |s| >= 1 && forall k :: 0 <= k < |s| ==> '0' <= s[k] <= '9'
    ensures |s| > 1 ==> s[0] != '0'
  {
    if n < 10 then [DigitChar(n)] else NatToString(n / 10) + [DigitChar(n % 10)]
  }

  /** The decimal form of `x`, with a leading minus sign when negative. */
  function IntToString(x: int): string
  {
    if x < 0 then "-" + NatToString(-x) else NatToString(x)
  }

  /** Reads a string of decimal digits back. */
  function ParseNat(s: string): nat
  {
    if s == [] then 0 else ParseNat(s[..|s| - 1]) * 10 + DigitValue(s[|s| - 1])
  }

  /** The printed digits read back as the number printed. */
  lemma {:induction false} ParseNatToString(n: nat)
    ensures ParseNat(NatToString(n)) == n
  {
    if n >= 10 {
      var q, d := n / 10, n % 10;
      var s := NatToString(n);
      assert s == NatToString(q) + [DigitChar(d)];
      assert s[..|s| - 1] == NatToString(q);
      ParseNatToString(q);
      assert ParseNat(s) == q * 10 + d;
    }
  }
}
