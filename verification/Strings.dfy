/** The string operations the services use: strings.Contains, Split on one character, Join, TrimSpace, Trim. */
module Strings {

  predicate At(s: string, sub: string, i: nat) {
    i + |sub| <= |s| && s[i..i + |sub|] == sub
  }

  /** `strings.Contains(s, sub)`. */
  predicate Contains(s: string, sub: string) {
    exists i: nat :: i + |sub| <= |s| && At(s, sub, i)
  }

  lemma ContainsInside(a: string, s: string, b: string, sub: string)
    requires Contains(s, sub)
    ensures Contains(a + s + b, sub)
  {
    var i: nat :| i + |sub| <= |s| && At(s, sub, i);
    var whole := a + s + b;
    assert At(whole, sub, |a| + i);
  }

  lemma PrefixContains(p: string, s: string, sub: string)
    requires p <= s && Contains(p, sub)
    ensures Contains(s, sub)
  {
    ContainsInside("", p, s[|p|..], sub);
    assert "" + p + s[|p|..] == s;
  }

  lemma AcrossHasSeparator(a: string, sep: char, b: string, sub: string, i: nat)
    requires i <= |a| < i + |sub| <= |a + [sep] + b| && At(a + [sep] + b, sub, i)
    ensures sep in sub
  {
    assert sub[|a| - i] == (a + [sep] + b)[i..i + |sub|][|a| - i] == sep;
  }

  /** A word without the separator is contained in a text exactly when it is contained in one of the two parts
      around a separator. */
  lemma ContainsAround(a: string, sep: char, b: string, sub: string)
    requires sep !in sub && sub != ""
    ensures Contains(a + [sep] + b, sub) <==> Contains(a, sub) || Contains(b, sub)
  {
    var whole := a + [sep] + b;
    if Contains(a, sub) {
      ContainsInside("", a, [sep] + b, sub);
      assert "" + a + ([sep] + b) == whole;
    }
    if Contains(b, sub) {
      ContainsInside(a + [sep], b, "", sub);
      assert (a + [sep]) + b + "" == whole;
    }
    if Contains(whole, sub) {
      var i: nat :| i + |sub| <= |whole| && At(whole, sub, i);
      if i + |sub| <= |a| {
        assert a[i..i + |sub|] == whole[i..i + |sub|];
        assert At(a, sub, i);
      } else if i > |a| {
        var j := i - |a| - 1;
        assert b[j..j + |sub|] == whole[i..i + |sub|];
        assert At(b, sub, j);
      } else {
        AcrossHasSeparator(a, sep, b, sub, i);
      }
    }
  }

  /** `strings.Split(s, sep)` for a one-character separator. */
  function Split(s: string, sep: char): (parts: seq<string>)
    ensures |parts| >= 1
    ensures forall i :: 0 <= i < |parts| ==> sep !in parts[i]
    decreases |s|
  {
    if s == "" then [""]
    else if s[0] == sep then [""] + Split(s[1..], sep)
    else
      var rest := Split(s[1..], sep);
      [[s[0]] + rest[0]] + rest[1..]
  }

  /** `strings.Join(parts, sep)`. */
  function Join(parts: seq<string>, sep: char): string {
    if parts == [] then ""
    else if |parts| == 1 then parts[0]
    else parts[0] + [sep] + Join(parts[1..], sep)
  }

  lemma {:induction false} SplitNone(s: string, sep: char)
    requires sep !in s
    ensures Split(s, sep) == [s]
  {
    if s != "" {
      SplitNone(s[1..], sep);
      assert s == [s[0]] + s[1..];
    }
  }

  lemma {:induction false} SplitFirst(a: string, sep: char, b: string)
    requires sep !in a
    ensures Split(a + [sep] + b, sep) == [a] + Split(b, sep)
  {
    var s := a + [sep] + b;
    if a == "" {
    } else {
      assert s[1..] == a[1..] + [sep] + b;
      SplitFirst(a[1..], sep, b);
      assert a == [a[0]] + a[1..];
    }
  }

  /** Splitting undoes joining on parts without the separator, unless there are no parts at all. */
  lemma {:induction false} SplitJoin(parts: seq<string>, sep: char)
    requires forall i :: 0 <= i < |parts| ==> sep !in parts[i]
    ensures Split(Join(parts, sep), sep) == if parts == [] then [""] else parts
  {
    if |parts| == 1 {
      SplitNone(parts[0], sep);
    } else if |parts| > 1 {
      SplitJoin(parts[1..], sep);
      SplitFirst(parts[0], sep, Join(parts[1..], sep));
    }
  }

  /** White space as `strings.TrimSpace` understands it. */
  predicate IsSpace(c: char) {
    var u := c as int;
    9 <= u <= 13 || u == 32 || u == 0x85 || u == 0xA0 || u == 0x1680 || 0x2000 <= u <= 0x200a
    || u == 0x2028 || u == 0x2029 || u == 0x202f || u == 0x205f || u == 0x3000
  }

  function TrimLeft(s: string): (r: string)
    ensures r != "" ==> !IsSpace(r[0])
  {
    if s != "" && IsSpace(s[0]) then TrimLeft(s[1..]) else s
  }

  function TrimRight(s: string): (r: string)
    ensures r != "" ==> !IsSpace(r[|r| - 1])
  {
    if s != "" && IsSpace(s[|s| - 1]) then TrimRight(s[..|s| - 1]) else s
  }

  function TrimSpace(s: string): string {
    TrimRight(TrimLeft(s))
  }

  predicate AllSpaces(s: string) {
    forall i :: 0 <= i < |s| ==> IsSpace(s[i])
  }

  /** Trimming takes white space from both ends and leaves none there. */
  lemma TrimSpaceIs(s: string) returns (a: string, b: string)
    ensures s == a + TrimSpace(s) + b && AllSpaces(a) && AllSpaces(b)
    ensures var r := TrimSpace(s); r != "" ==> !IsSpace(r[0]) && !IsSpace(r[|r| - 1])
  {
    var t := TrimLeft(s);
    a := TrimLeftIs(s);
    b := TrimRightIs(t);
    assert a + (TrimSpace(s) + b) == a + TrimSpace(s) + b;
    assert TrimSpace(s) != "" ==> TrimSpace(s)[0] == t[0];
  }

  lemma {:induction false} TrimLeftIs(s: string) returns (a: string)
    ensures s == a + TrimLeft(s) && AllSpaces(a)
  {
    a := "";
    if s != "" && IsSpace(s[0]) {
      var rest := TrimLeftIs(s[1..]);
      a := [s[0]] + rest;
    }
  }

  lemma {:induction false} TrimRightIs(s: string) returns (b: string)
    ensures s == TrimRight(s) + b && AllSpaces(b)
  {
    b := "";
    if s != "" && IsSpace(s[|s| - 1]) {
      var n := |s| - 1;
      var rest := TrimRightIs(s[..n]);
      b := rest + [s[n]];
      assert s == s[..n] + [s[n]] == TrimRight(s) + b;
    }
  }

  /** `strings.Trim(s, c)` for a one-character cutset. */
  function TrimCharLeft(s: string, c: char): string {
    if s != "" && s[0] == c then TrimCharLeft(s[1..], c) else s
  }

  function TrimCharRight(s: string, c: char): string {
    if s != "" && s[|s| - 1] == c then TrimCharRight(s[..|s| - 1], c) else s
  }

  function TrimChar(s: string, c: char): string {
    TrimCharRight(TrimCharLeft(s, c), c)
  }
}
