/** Character classes and string helpers shared by the backend and frontend models.
    Regular expressions and JavaScript string methods used by the system are
    specialised here to the ASCII character predicates they stand for. */
module Text {

  predicate IsAsciiLetter(c: char) { 'a' <= c <= 'z' || 'A' <= c <= 'Z' }

  predicate IsDigit(c: char) { '0' <= c <= '9' }

  /** `\w` and `[a-zA-Z0-9_]`: an ASCII letter, a digit or an underscore. */
  predicate IsWordChar(c: char) { IsAsciiLetter(c) || IsDigit(c) || c == '_' }

  /** The characters JavaScript's `\s` and `String.prototype.trim` treat as white space. */
  predicate IsSpace(c: char)
  {
    || c == ' ' || c == '\t' || c == '\n' || c == '\r'
    || c == '\U{000B}' || c == '\U{000C}' || c == '\U{00A0}' || c == '\U{1680}'
    || ('\U{2000}' <= c <= '\U{200A}')
    || c == '\U{2028}' || c == '\U{2029}' || c == '\U{202F}' || c == '\U{205F}'
    || c == '\U{3000}' || c == '\U{FEFF}'
  }

  predicate AllWordChars(s: string) { forall i :: 0 <= i < |s| ==> IsWordChar(s[i]) }

  predicate NoSpace(s: string) { forall i :: 0 <= i < |s| ==> !IsSpace(s[i]) }

  /** ASCII lower-casing of one character (other characters are left alone). */
  function LowerChar(c: char): (r: char)
    ensures 'A' <= c <= 'Z' ==> 'a' <= r <= 'z'
    ensures !('A' <= c <= 'Z') ==> r == c
    ensures !('A' <= r <= 'Z')
  {
    if 'A' <= c <= 'Z' then (c as int - 'A' as int + 'a' as int) as char else c
  }

  function Lower(s: string): (r: string)
    ensures |r| == |s|
    ensures forall i :: 0 <= i < |s| ==> r[i] == LowerChar(s[i])
  {
    if s == [] then [] else [LowerChar(s[0])] + Lower(s[1..])
  }

  lemma LowerIdempotent(s: string)
    ensures Lower(Lower(s)) == Lower(s)
  {
  }

  lemma LowerKeepsSpaces(s: string)
    requires NoSpace(s)
    ensures NoSpace(Lower(s))
  {
  }

  predicate IsPrefix(p: string, s: string) { |p| <= |s| && s[..|p|] == p }

  /** `s.includes(sub)`: `sub` occurs in `s` at some position. */
  ghost predicate Contains(s: string, sub: string)
  {
    exists i :: OccursAt(s, sub, i)
  }

  predicate OccursAt(s: string, sub: string, i: int)
  {
    0 <= i <= |s| - |sub| && s[i..i + |sub|] == sub
  }

  /** `sub` occurs in `pre + sub` right after `pre`. */
  lemma OccursAfter(pre: string, sub: string)
    ensures OccursAt(pre + sub, sub, |pre|)
  {
    assert (pre + sub)[|pre|..|pre| + |sub|] == sub;
  }

  /** Every text occurs in itself at 0. */
  lemma OccursWhole(s: string)
    ensures OccursAt(s, s, 0)
  {
    assert s[0..|s|] == s;
  }

  /** `sub` occurs at the start of `sub + post`. */
  lemma OccursBefore(sub: string, post: string)
    ensures OccursAt(sub + post, sub, 0)
  {
    assert (sub + post)[..|sub|] == sub;
  }

  /** `sub` ends any text made of something followed by `sub`. */
  lemma OccursAtEnd(p: string, pre: string, sub: string)
    requires p == pre + sub
    ensures OccursAt(p, sub, |p| - |sub|)
  {
    OccursAfter(pre, sub);
  }

  /** An occurrence in the front part of a text is an occurrence in the text. */
  lemma OccursWithin(p: string, front: string, back: string, sub: string, i: int)
    requires p == front + back && OccursAt(front, sub, i)
    ensures OccursAt(p, sub, i)
  {
    OccursExtend(front, sub, i, back);
  }

  /** An occurrence survives text appended behind it. */
  lemma OccursExtend(s: string, sub: string, i: int, post: string)
    requires OccursAt(s, sub, i)
    ensures OccursAt(s + post, sub, i)
  {
    assert (s + post)[i..i + |sub|] == s[i..i + |sub|];
  }

  /** An occurrence moves right by the length of text put in front. */
  lemma OccursShift(pre: string, s: string, sub: string, i: int)
    requires OccursAt(s, sub, i)
    ensures OccursAt(pre + s, sub, |pre| + i)
  {
    assert (pre + s)[|pre| + i..|pre| + i + |sub|] == s[i..i + |sub|];
  }

  /** In `a + b + c + d + e + f + g` the first two parts sit at the start, one
      after the other, and the last part at the end. */
  lemma {:induction false} Framed(a: string, b: string, c: string, d: string, e: string, f: string, g: string)
    ensures var p := a + b + c + d + e + f + g;
      && OccursAt(p, a, 0) && OccursAt(p, b, |a|) && OccursAt(p, g, |p| - |g|)
  {
    var s1 := a + b;
    var s5 := s1 + c + d + e + f;
    OccursBefore(a, b);
    OccursAfter(a, b);
    OccursExtend(s1, a, 0, c + d + e + f + g);
    OccursExtend(s1, b, |a|, c + d + e + f + g);
    assert s1 + (c + d + e + f + g) == s5 + g;
    OccursAfter(s5, g);
  }

  /** Executable substring test, proved to agree with `Contains`. */
  function Includes(s: string, sub: string): (r: bool)
    ensures r <==> Contains(s, sub)
    decreases |s|
  {
    if IsPrefix(sub, s) then
      assert OccursAt(s, sub, 0);
      true
    else if s == [] then
      false
    else
      var rest := Includes(s[1..], sub);
      if rest then
        var i :| OccursAt(s[1..], sub, i);
        assert OccursAt(s, sub, i + 1) by {
          SliceOfTail(s, i + 1, |sub|);
        }
        true
      else
        assert !Contains(s, sub) by {
          forall i | 0 <= i <= |s| - |sub|
            ensures !OccursAt(s, sub, i)
          {
            if i > 0 {
              SliceOfTail(s, i, |sub|);
              assert !OccursAt(s[1..], sub, i - 1);
            }
          }
        }
        false
  }

  /** A slice of `s` away from its head is the same slice of its tail, one place earlier. */
  lemma SliceOfTail(s: string, i: nat, n: nat)
    requires 0 < i && i + n <= |s|
    ensures s[i..i + n] == s[1..][i - 1..i - 1 + n]
  {
    var x, y := s[i..i + n], s[1..][i - 1..i - 1 + n];
    forall k | 0 <= k < n ensures x[k] == y[k] {
      assert s[1..][i - 1 + k] == s[i + k];
    }
  }

  /** Case-insensitive containment as the source writes it:
      `a.toLowerCase().includes(b.toLowerCase())`, with ASCII case folding. */
  function IncludesIgnoringCase(s: string, sub: string): (r: bool)
    ensures r <==> Contains(Lower(s), Lower(sub))
  {
    Includes(Lower(s), Lower(sub))
  }

  function DropLeadingSpaces(s: string): (r: string)
    ensures |r| <= |s| && r == s[|s| - |r|..]
    ensures r == [] || !IsSpace(r[0])
    ensures forall i :: 0 <= i < |s| - |r| ==> IsSpace(s[i])
  {
    if s != [] && IsSpace(s[0]) then DropLeadingSpaces(s[1..]) else s
  }

  function DropTrailingSpaces(s: string): (r: string)
    ensures |r| <= |s| && r == s[..|r|]
    ensures r == [] || !IsSpace(r[|r| - 1])
    ensures forall i :: |r| <= i < |s| ==> IsSpace(s[i])
  {
    if s != [] && IsSpace(s[|s| - 1]) then DropTrailingSpaces(s[..|s| - 1]) else s
  }

  /** `s.trim()`: strip white space at both ends. */
  function Trim(s: string): (r: string)
    ensures r == [] || (!IsSpace(r[0]) && !IsSpace(r[|r| - 1]))
    ensures Contains(s, r)
    ensures r == [] <==> forall i :: 0 <= i < |s| ==> IsSpace(s[i])
  {
    var a := DropLeadingSpaces(s);
    var r := DropTrailingSpaces(a);
    assert OccursAt(s, r, |s| - |a|);
    assert r == [] ==> forall i :: 0 <= i < |s| ==> IsSpace(s[i]) by {
      if r == [] {
        assert a == [];
      }
    }
    assert r != [] ==> !IsSpace(s[|s| - |a|]);
    r
  }

  lemma {:induction false} DropLeadingIdle(s: string)
    requires s == [] || !IsSpace(s[0])
    ensures DropLeadingSpaces(s) == s
  {
  }

  /** A leading run of white space is dropped up to the first other character. */
  lemma {:induction false} DropLeadingRun(run: string, rest: string)
    requires forall i :: 0 <= i < |run| ==> IsSpace(run[i])
    requires rest == [] || !IsSpace(rest[0])
    ensures DropLeadingSpaces(run + rest) == rest
  {
    if run == [] {
      assert run + rest == rest;
      DropLeadingIdle(rest);
    } else {
      assert (run + rest)[1..] == run[1..] + rest;
      DropLeadingRun(run[1..], rest);
    }
  }

  lemma {:induction false} TrimIdempotent(s: string)
    ensures Trim(Trim(s)) == Trim(s)
  {
    var t := Trim(s);
    DropLeadingIdle(t);
    if t != [] {
      assert DropTrailingSpaces(t) == t;
    }
  }

  /** `parts.join(sep)`. */
  function Join(parts: seq<string>, sep: string): (r: string)
    ensures parts == [] ==> r == []
    ensures |parts| == 1 ==> r == parts[0]
  {
    if parts == [] then []
    else if |parts| == 1 then parts[0]
    else parts[0] + sep + Join(parts[1..], sep)
  }

  lemma {:induction false} JoinLength(parts: seq<string>, sep: string)
    requires parts != []
    ensures |Join(parts, sep)| == SumLengths(parts) + (|parts| - 1) * |sep|
  {
    if |parts| > 1 {
      JoinLength(parts[1..], sep);
    }
  }

  function SumLengths(parts: seq<string>): nat
  {
    if parts == [] then 0 else |parts[0]| + SumLengths(parts[1..])
  }

  function DigitChar(d: nat): (c: char)
    requires d < 10
    ensures IsDigit(c)
  {
    ('0' as int + d) as char
  }

  /** Decimal rendering of a natural number, as JavaScript prints it. */
  function NatToString(n: nat): (r: string)
    ensures |r| >= 1
    ensures forall i :: 0 <= i < |r| ==> IsDigit(r[i])
    ensures n < 10 <==> |r| == 1
    decreases n
  {
    if n < 10 then [DigitChar(n)] else NatToString(n / 10) + [DigitChar(n % 10)]
  }

  /** Decimal rendering of an integer, with a leading '-' when negative. */
  function IntToString(n: int): (r: string)
    ensures |r| >= 1
    ensures forall i :: 0 <= i < |r| ==> r[i] != ':'
    ensures r[0] == '-' <==> n < 0
  {
    if n < 0 then "-" + NatToString(-n) else NatToString(n)
  }

  lemma {:induction false} NatToStringInjective(a: nat, b: nat)
    requires NatToString(a) == NatToString(b)
    ensures a == b
    decreases a
  {
    var ra, rb := NatToString(a), NatToString(b);
    if a >= 10 {
      assert NatToString(a / 10) == ra[..|ra| - 1];
      assert NatToString(b / 10) == rb[..|rb| - 1];
      NatToStringInjective(a / 10, b / 10);
      assert DigitChar(a % 10) == DigitChar(b % 10);
    }
  }

  lemma {:induction false} IntToStringInjective(a: int, b: int)
    requires IntToString(a) == IntToString(b)
    ensures a == b
  {
    var ra := IntToString(a);
    if a < 0 && b < 0 {
      assert NatToString(-a) == ra[1..] == IntToString(b)[1..] == NatToString(-b);
      NatToStringInjective(-a, -b);
    } else if a >= 0 && b >= 0 {
      NatToStringInjective(a, b);
    }
  }

  /** Lexicographic order on strings by character code. */
  predicate LexLe(a: string, b: string)
    decreases |a|
  {
    a == [] || (b != [] && (a[0] < b[0] || (a[0] == b[0] && LexLe(a[1..], b[1..]))))
  }

  lemma {:induction false} LexLeTotal(a: string, b: string)
    ensures LexLe(a, b) || LexLe(b, a)
    decreases |a|
  {
    if a != [] && b != [] && a[0] == b[0] {
      LexLeTotal(a[1..], b[1..]);
    }
  }

  lemma {:induction false} LexLeTransitive(a: string, b: string, c: string)
    requires LexLe(a, b) && LexLe(b, c)
    ensures LexLe(a, c)
    decreases |a|
  {
    if a != [] && a[0] == b[0] && b[0] == c[0] {
      LexLeTransitive(a[1..], b[1..], c[1..]);
    }
  }

  lemma {:induction false} LexLeAntisymmetric(a: string, b: string)
    requires LexLe(a, b) && LexLe(b, a)
    ensures a == b
    decreases |a|
  {
    if a != [] {
      LexLeAntisymmetric(a[1..], b[1..]);
      assert a == [a[0]] + a[1..] && b == [b[0]] + b[1..];
    }
  }
}
