/**
  ASCII models of the Python string built-ins the board game relies on:
  `str.strip`, `str.lower`, `str.capitalize`, `str.split`, `str.join`,
  `int(str)` and `str(int)`.
*/
module Strings {
  import opened Optional

  /** `str.isspace` on one ASCII character: tab, line feed, vertical tab,
      form feed, carriage return, the separators 0x1C-0x1F, and space. */
  predicate IsSpace(c: char) {
    var k := c as int;
    (9 <= k <= 13) || (28 <= k <= 31) || k == 32
  }

  /** Leading whitespace removed. */
  function StripLeft(s: string): (r: string)
    ensures |r| <= |s|
    ensures r == [] || !IsSpace(r[0])
    decreases |s|
  {
    if s != [] && IsSpace(s[0]) then StripLeft(s[1..]) else s
  }

  /** `StripLeft(s)` is `s[k..]` where `s[..k]` is all blanks. */
  lemma {:induction false} StripLeftSlice(s: string)
    ensures forall i :: 0 <= i < |StripLeft(s)| ==> StripLeft(s)[i] == s[|s| - |StripLeft(s)| + i]
    ensures forall i :: 0 <= i < |s| - |StripLeft(s)| ==> IsSpace(s[i])
    decreases |s|
  {
    if s != [] && IsSpace(s[0]) {
      StripLeftSlice(s[1..]);
      forall i | 1 <= i < |s| - |StripLeft(s)| ensures IsSpace(s[i]) {
        assert s[i] == s[1..][i - 1];
      }
    }
  }

  /** Trailing whitespace removed. */
  function StripRight(s: string): (r: string)
    ensures |r| <= |s|
    ensures r == [] || !IsSpace(r[|r| - 1])
    decreases |s|
  {
    if s != [] && IsSpace(s[|s| - 1]) then StripRight(s[..|s| - 1]) else s
  }

  /** `StripRight(s)` is `s[..k]` where `s[k..]` is all blanks. */
  lemma {:induction false} StripRightSlice(s: string)
    ensures forall i :: 0 <= i < |StripRight(s)| ==> StripRight(s)[i] == s[i]
    ensures forall i :: |StripRight(s)| <= i < |s| ==> IsSpace(s[i])
    decreases |s|
  {
    if s != [] && IsSpace(s[|s| - 1]) {
      StripRightSlice(s[..|s| - 1]);
      forall i | |StripRight(s)| <= i < |s| - 1 ensures IsSpace(s[i]) {
        assert s[i] == s[..|s| - 1][i];
      }
    }
  }

  /** `s.strip()`: the result neither starts nor ends with a blank, and a
      string without surrounding blanks is left as it is. */
  function Strip(s: string): (r: string)
    ensures |r| <= |s|
    ensures r == [] || (!IsSpace(r[0]) && !IsSpace(r[|r| - 1]))
    ensures s != [] && !IsSpace(s[0]) && !IsSpace(s[|s| - 1]) ==> r == s
  {
    StripFacts(s);
    StripRight(StripLeft(s))
  }

  lemma StripFacts(s: string)
    ensures StripRight(StripLeft(s)) == []
      || (!IsSpace(StripRight(StripLeft(s))[0]) && !IsSpace(StripRight(StripLeft(s))[|StripRight(StripLeft(s))| - 1]))
    ensures s != [] && !IsSpace(s[0]) && !IsSpace(s[|s| - 1]) ==> StripRight(StripLeft(s)) == s
  {
    var l := StripLeft(s);
    var r := StripRight(l);
    if r != [] {
      StripRightSlice(l);
      assert r[0] == l[0];
    }
  }

  /** `s.strip()` is a slice of `s`: it starts `d` characters in. */
  lemma StripSlice(s: string) returns (d: nat)
    ensures d + |Strip(s)| <= |s|
    ensures forall i :: 0 <= i < |Strip(s)| ==> Strip(s)[i] == s[d + i]
  {
    var l := StripLeft(s);
    StripLeftSlice(s);
    StripRightSlice(l);
    d := |s| - |l|;
    forall i | 0 <= i < |Strip(s)| ensures Strip(s)[i] == s[d + i] {
      assert Strip(s)[i] == StripRight(l)[i] == l[i];
    }
  }

  /** `s.strip()` removes blanks and nothing else: it is the slice of `s`
      that starts `d` characters in, and all that is cut off on either side
      is blank. */
  lemma StripSpan(s: string) returns (d: nat)
    ensures d + |Strip(s)| <= |s|
    ensures Strip(s) == s[d..d + |Strip(s)|]
    ensures forall i :: 0 <= i < d ==> IsSpace(s[i])
    ensures forall i :: d + |Strip(s)| <= i < |s| ==> IsSpace(s[i])
  {
    var l := StripLeft(s);
    var r := StripRight(l);
    d := |s| - |l|;
    assert Strip(s) == r;
    assert forall i :: 0 <= i < d ==> IsSpace(s[i]) by {
      StripLeftSlice(s);
    }
    assert l == s[d..] by {
      StripLeftSlice(s);
      SliceFrom(l, s, d);
    }
    assert r == l[..|r|] && forall i :: |r| <= i < |l| ==> IsSpace(l[i]) by {
      StripRightSlice(l);
      SliceFrom(r, l, 0);
    }
    assert r == s[d..d + |r|];
    forall i | d + |r| <= i < |s| ensures IsSpace(s[i]) {
      assert s[i] == l[i - d];
    }
  }

  /** A text that matches `s` character by character from `d` on is that slice of `s`. */
  lemma SliceFrom(r: string, s: string, d: nat)
    requires d + |r| <= |s| && forall i :: 0 <= i < |r| ==> r[i] == s[d + i]
    ensures r == s[d..d + |r|]
    ensures d + |r| == |s| ==> r == s[d..]
  {}

  /** `s.strip()` is empty exactly when `s` is all blanks. */
  lemma StripEmpty(s: string)
    ensures Strip(s) == [] <==> forall i :: 0 <= i < |s| ==> IsSpace(s[i])
  {
    var l := StripLeft(s);
    var r := StripRight(l);
    var d := |s| - |l|;
    StripLeftSlice(s);
    StripRightSlice(l);
    if r == [] {
      assert l == [];
    } else {
      assert !IsSpace(s[d]) by { assert s[d] == l[0]; }
    }
  }

  /** A character that does not occur in `s` does not occur in `s.strip()`. */
  lemma StripKeepsOut(s: string, c: char)
    requires c !in s
    ensures c !in Strip(s)
  {
    var d := StripSlice(s);
    forall i | 0 <= i < |Strip(s)| ensures Strip(s)[i] != c {
      assert Strip(s)[i] == s[d + i];
    }
  }

  function LowerChar(c: char): char {
    if 'A' <= c <= 'Z' then (c as int + 32) as char else c
  }

  function UpperChar(c: char): char {
    if 'a' <= c <= 'z' then (c as int - 32) as char else c
  }

  /** `s.lower()` on ASCII text. */
  function Lower(s: string): (r: string)
    ensures |r| == |s|
  {
    seq(|s|, i requires 0 <= i < |s| => LowerChar(s[i]))
  }

  /** What lowering does to each character: no upper-case letter survives,
      an upper-case letter becomes the letter 32 code points above it, and
      every other character stays as it is. */
  lemma LowerCases(s: string)
    ensures forall i :: 0 <= i < |s| ==> !('A' <= Lower(s)[i] <= 'Z')
    ensures forall i :: 0 <= i < |s| && 'A' <= s[i] <= 'Z' ==> Lower(s)[i] as int == s[i] as int + 32
    ensures forall i :: 0 <= i < |s| && !('A' <= s[i] <= 'Z') ==> Lower(s)[i] == s[i]
  {
  }

  /** `s.capitalize()` on ASCII text: first character upper case, the rest lower case. */
  function Capitalize(s: string): (r: string)
    ensures |r| == |s|
    ensures s != [] ==> r[0] == UpperChar(s[0])
    ensures forall i :: 1 <= i < |s| ==> r[i] == LowerChar(s[i])
  {
    if s == [] then [] else [UpperChar(s[0])] + Lower(s[1..])
  }

  /** Capitalizing acts on each character by its place alone. */
  lemma CapitalizeAt(s: string, i: int)
    requires 0 <= i < |s|
    ensures Capitalize(s)[i] == if i == 0 then UpperChar(s[0]) else LowerChar(s[i])
  {
    if i > 0 {
      assert Capitalize(s)[i] == Lower(s[1..])[i - 1];
    }
  }

  /** `s` is already in capitalized form, stated character by character. */
  predicate Capitalized(s: string) {
    forall i :: 0 <= i < |s| ==> s[i] == (if i == 0 then UpperChar(s[i]) else LowerChar(s[i]))
  }

  /** A text is in capitalized form exactly when capitalizing leaves it unchanged. */
  lemma CapitalizedFixed(s: string)
    ensures Capitalized(s) <==> Capitalize(s) == s
  {
    if s != [] {
      var c := Capitalize(s);
      if Capitalize(s) == s {
        forall i | 0 <= i < |s| ensures s[i] == (if i == 0 then UpperChar(s[i]) else LowerChar(s[i])) {
          assert c[i] == s[i];
        }
      }
    }
  }

  /** Capitalizing twice is capitalizing once, and it never turns a
      non-blank first or last character into a blank. */
  lemma CapitalizeNormal(s: string)
    ensures Capitalized(Capitalize(s))
    ensures Capitalize(Capitalize(s)) == Capitalize(s)
    ensures s != [] && !IsSpace(s[0]) ==> !IsSpace(Capitalize(s)[0])
    ensures s != [] && !IsSpace(s[|s| - 1]) ==> !IsSpace(Capitalize(s)[|s| - 1])
  {
    if s != [] {
      var c := Capitalize(s);
      assert c[1..] == Lower(s[1..]);
      forall i | 0 <= i < |c| - 1 ensures Lower(c[1..])[i] == c[1..][i] {
        LowerCharTwice(s[1..][i]);
      }
      assert Lower(c[1..]) == c[1..];
      UpperCharTwice(s[0]);
      assert Capitalize(c) == [UpperChar(c[0])] + Lower(c[1..]);
      if !IsSpace(s[|s| - 1]) && |s| > 1 {
        assert c[|s| - 1] == LowerChar(s[|s| - 1]);
      }
    }
    CapitalizedFixed(Capitalize(s));
  }

  lemma LowerCharTwice(c: char)
    ensures LowerChar(LowerChar(c)) == LowerChar(c)
  {}

  lemma UpperCharTwice(c: char)
    ensures UpperChar(UpperChar(c)) == UpperChar(c)
  {}

  /** Position of the first `c` in `s`. */
  function IndexOf(s: string, c: char): (i: nat)
    requires c in s
    ensures i < |s| && s[i] == c && c !in s[..i]
  {
    if s[0] == c then 0 else 1 + IndexOf(s[1..], c)
  }

  /** `s.split(c, 1)` when `c` occurs in `s`: the text before and after the first `c`. */
  function SplitFirst(s: string, c: char): (r: (string, string))
    requires c in s
    ensures c !in r.0
  {
    var i := IndexOf(s, c);
    (s[..i], s[i + 1..])
  }

  /** The two sides of `s.split(c, 1)` with `c` between them give back `s`. */
  lemma SplitFirstJoin(s: string, c: char)
    requires c in s
    ensures SplitFirst(s, c).0 + [c] + SplitFirst(s, c).1 == s
  {
    var i := IndexOf(s, c);
    assert s == s[..i] + [c] + s[i + 1..];
  }

  /** A text split at the first separator it contains gives back its two sides. */
  lemma SplitFirstOf(a: string, c: char, b: string)
    requires c !in a
    ensures c in a + [c] + b && SplitFirst(a + [c] + b, c) == (a, b)
  {
    var s := a + [c] + b;
    assert s[..|a|] == a;
    assert s[|a|] == c;
    var i := IndexOf(s, c);
    assert forall j :: 0 <= j < i ==> s[..i][j] == s[j];
    assert i == |a|;
    assert s[|a| + 1..] == b;
  }

  /** `x + ": " + y` split at its first colon, when `x` has none, gives
      `x` and the rest with its blank. */
  lemma SplitAtColon(x: string, y: string)
    requires ':' !in x
    ensures ':' in x + ": " + y && SplitFirst(x + ": " + y, ':') == (x, " " + y)
  {
    assert x + ": " + y == x + [':'] + (" " + y);
    SplitFirstOf(x, ':', " " + y);
  }

  /** A concatenation of two non-empty texts starts like the first and ends like the second. */
  lemma ConcatEnds(x: string, y: string)
    requires x != [] && y != []
    ensures (x + y)[0] == x[0] && (x + y)[|x + y| - 1] == y[|y| - 1]
  {}

  /** Text that starts with a non-blank and ends with a non-blank is left as it is by `strip`. */
  lemma StripConcat(x: string, y: string)
    requires x != [] && y != [] && !IsSpace(x[0]) && !IsSpace(y[|y| - 1])
    ensures Strip(x + y) == x + y
  {
    ConcatEnds(x, y);
  }

  /** `sep.join(parts)`. */
  function Join(parts: seq<string>, sep: string): (r: string)
    ensures parts == [] ==> r == ""
    ensures |parts| >= 1 ==> parts[0] <= r
    ensures |parts| >= 2 ==> parts[0] + sep <= r
  {
    if |parts| == 0 then ""
    else if |parts| == 1 then parts[0]
    else parts[0] + sep + Join(parts[1..], sep)
  }

  /** `s.split(c)`: the pieces between the separators; joining them with the
      separator gives back `s`, and no piece holds the separator. */
  function Split(s: string, c: char): (parts: seq<string>)
    ensures |parts| >= 1
    ensures Join(parts, [c]) == s
    ensures forall k :: 0 <= k < |parts| ==> c !in parts[k]
    decreases |s|
  {
    if c in s then
      SplitFirstJoin(s, c);
      var (left, right) := SplitFirst(s, c);
      [left] + Split(right, c)
    else
      [s]
  }

  /** Splitting the join of separator-free pieces gives the pieces back. */
  lemma {:induction false} SplitJoin(parts: seq<string>, c: char)
    requires |parts| >= 1
    requires forall k :: 0 <= k < |parts| ==> c !in parts[k]
    ensures Split(Join(parts, [c]), c) == parts
    decreases |parts|
  {
    if |parts| > 1 {
      var tail := parts[1..];
      var rest := Join(tail, [c]);
      var s := Join(parts, [c]);
      assert s == parts[0] + [c] + rest;
      assert c !in parts[0];
      SplitFirstOf(parts[0], c, rest);
      assert Split(s, c) == [parts[0]] + Split(rest, c);
      assert forall k :: 0 <= k < |tail| ==> c !in tail[k] by {
        forall k | 0 <= k < |tail| ensures c !in tail[k] {
          assert tail[k] == parts[k + 1];
        }
      }
      SplitJoin(tail, c);
      assert parts == [parts[0]] + tail;
    }
  }

  predicate IsDigit(c: char) {
    '0' <= c <= '9'
  }

  predicate AllDigits(s: string) {
    forall i :: 0 <= i < |s| ==> IsDigit(s[i])
  }

  function DigitValue(c: char): nat
    requires IsDigit(c)
  {
    c as int - '0' as int
  }

  function DigitChar(d: nat): (c: char)
    requires d < 10
    ensures IsDigit(c) && DigitValue(c) == d
  {
    ('0' as int + d) as char
  }

  /** Decimal value of a digit string, most significant digit first. */
  function DigitsValue(s: string): nat
    requires AllDigits(s)
    decreases |s|
  {
    if s == [] then 0 else DigitsValue(s[..|s| - 1]) * 10 + DigitValue(s[|s| - 1])
  }

  /** `int(s)` on an already stripped ASCII string: an optional `+` or `-`
      followed by at least one decimal digit; anything else raises, here `None`. */
  function ParseInt(s: string): (r: Option<int>)
    ensures r.Some? <==>
      (|s| >= 1 && AllDigits(s)) || (|s| >= 2 && (s[0] == '+' || s[0] == '-') && AllDigits(s[1..]))
    ensures r.Some? && r.value < 0 ==> s[0] == '-'
    ensures |s| >= 1 && AllDigits(s) ==> r == Some(DigitsValue(s))
    ensures |s| >= 2 && (s[0] == '+' || s[0] == '-') && AllDigits(s[1..]) ==>
      r == Some(if s[0] == '-' then -(DigitsValue(s[1..]) as int) else DigitsValue(s[1..]) as int)
  {
    if |s| >= 2 && (s[0] == '+' || s[0] == '-') && AllDigits(s[1..]) then
      var v: int := DigitsValue(s[1..]);
      Some(if s[0] == '-' then -v else v)
    else if |s| >= 1 && AllDigits(s) then
      Some(DigitsValue(s))
    else
      None
  }

  /** `str(n)` for a natural number: decimal digits without leading zeros. */
  function NatToString(n: nat): (s: string)
    ensures |s| >= 1 && AllDigits(s)
    ensures |s| > 1 ==> s[0] != '0'
    decreases n
  {
    if n < 10 then [DigitChar(n)] else NatToString(n / 10) + [DigitChar(n % 10)]
  }

  /** `str(n)`: a minus sign for negative numbers, then the digits. */
  function IntToString(n: int): (s: string)
    ensures |s| >= 1
    ensures n >= 0 && |s| > 1 ==> s[0] != '0'
    ensures n < 0 ==> |s| >= 2 && s[1] != '0'
    ensures IsDigit(s[|s| - 1])
    ensures IsDigit(s[0]) || (s[0] == '-' && n < 0)
    ensures forall i :: 1 <= i < |s| ==> IsDigit(s[i])
  {
    if n < 0 then "-" + NatToString(-n) else NatToString(n)
  }

  lemma {:induction false} DigitsOfNat(n: nat)
    ensures DigitsValue(NatToString(n)) == n
    decreases n
  {
    var s := NatToString(n);
    if n >= 10 {
      DigitsOfNat(n / 10);
      assert s[..|s| - 1] == NatToString(n / 10);
    }
  }

  /** `int(str(n)) == n`: reading back a written integer gives the integer. */
  lemma ParseIntToString(n: int)
    ensures ParseInt(IntToString(n)) == Some(n)
  {
    var s := IntToString(n);
    if n < 0 {
      assert s[1..] == NatToString(-n);
      DigitsOfNat(-n);
    } else {
      DigitsOfNat(n);
    }
  }
}
