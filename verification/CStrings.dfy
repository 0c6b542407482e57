/** The C library's string functions, as functions of the string a pointer designates.
    A pointer into a buffer designates the bytes up to the next NUL. */
module CStrings {
  datatype Option<+T> = None | Some(value: T)

  const NUL: char := '\0'

  /** The C string at the start of `s`: everything before the first NUL. */
  function CutNul(s: string): (r: string)
    ensures r <= s && NUL !in r
    ensures |r| < |s| ==> s[|r|] == NUL
  {
    if s == [] || s[0] == NUL then [] else [s[0]] + CutNul(s[1..])
  }

  predicate Blank(c: char) { c == ' ' || c == '\t' }

  /** strpbrk(s, " \t"), as an offset; the length of `s` when there is no such byte. */
  function FindBlank(s: string): (k: nat)
    ensures k <= |s|
    ensures forall i :: 0 <= i < k ==> !Blank(s[i])
    ensures k < |s| ==> Blank(s[k])
  {
    if s == [] || Blank(s[0]) then 0 else 1 + FindBlank(s[1..])
  }

  /** strchr(s, c), as an offset; the length of `s` when there is no such byte. */
  function FindChar(s: string, c: char): (k: nat)
    ensures k <= |s|
    ensures c !in s[..k]
    ensures k < |s| ==> s[k] == c
  {
    if s == [] || s[0] == c then 0 else 1 + FindChar(s[1..], c)
  }

  /** strspn(s, "\t"). */
  function Tabs(s: string): (k: nat)
    ensures k <= |s|
    ensures forall i :: 0 <= i < k ==> s[i] == '\t'
    ensures k < |s| ==> s[k] != '\t'
  {
    if s == [] || s[0] != '\t' then 0 else 1 + Tabs(s[1..])
  }

  function Lower(c: char): char {
    if 'A' <= c <= 'Z' then (c as int + 32) as char else c
  }

  /** Two characters compare equal exactly if they are the same, or a capital and its small letter. */
  lemma LowerIff(a: char, b: char)
    ensures Lower(a) == Lower(b) <==>
      a == b || ('A' <= a <= 'Z' && b as int == a as int + 32) || ('A' <= b <= 'Z' && a as int == b as int + 32)
  {}

  /** strcasecmp(a, b) == 0. */
  predicate EqNoCase(a: string, b: string) {
    |a| == |b| && forall i :: 0 <= i < |a| ==> Lower(a[i]) == Lower(b[i])
  }

  function Take(s: string, n: nat): string { if |s| <= n then s else s[..n] }

  /** strncasecmp(a, b, n) == 0: the terminator counts as a byte of a string shorter than n. */
  predicate EqNoCaseN(a: string, b: string, n: nat) {
    EqNoCase(Take(a, n), Take(b, n))
  }

  /** The C string of a buffer that holds the NUL-free `t` and then a NUL. */
  lemma CutNulIs(s: string, t: string)
    requires NUL !in t && t <= s
    requires |t| < |s| ==> s[|t|] == NUL
    ensures CutNul(s) == t
  {}

  /** Bytes after a NUL do not change the C string in front of it. */
  lemma CutNulPrefix(a: string, s: string)
    requires NUL in a && a <= s
    ensures CutNul(s) == CutNul(a) && |CutNul(a)| < |a|
  {}

  lemma FindBlankIs(s: string, k: nat)
    requires k <= |s| && forall i :: 0 <= i < k ==> !Blank(s[i])
    requires k < |s| ==> Blank(s[k])
    ensures FindBlank(s) == k
  {}

  lemma FindCharIs(s: string, c: char, k: nat)
    requires k <= |s| && c !in s[..k]
    requires k < |s| ==> s[k] == c
    ensures FindChar(s, c) == k
  {}

  /** What atol returns: blanks, an optional sign, digits; saturating at the ends of long. */
  function Digits(s: string, acc: nat): (r: nat)
  {
    if s == [] || !('0' <= s[0] <= '9') then acc
    else Digits(s[1..], 10 * acc + (s[0] as int - '0' as int))
  }

  function SkipSpaces(s: string): string {
    if s != [] && (s[0] == ' ' || 9 <= s[0] as int <= 13) then SkipSpaces(s[1..]) else s
  }

  function Atol(s: string): int {
    var t := SkipSpaces(s);
    var v: int := if t != [] && t[0] == '-' then -(Digits(t[1..], 0) as int)
             else if t != [] && t[0] == '+' then Digits(t[1..], 0)
             else Digits(t, 0);
    if v < -0x8000_0000_0000_0000 then -0x8000_0000_0000_0000
    else if v > 0x7fff_ffff_ffff_ffff then 0x7fff_ffff_ffff_ffff
    else v
  }

  /** The conversion of a wider integer to int. */
  function ToInt32(v: int): (r: int)
    ensures -0x8000_0000 <= r < 0x8000_0000
    ensures (v - r) % 0x1_0000_0000 == 0
  {
    var m := v % 0x1_0000_0000;
    if m < 0x8000_0000 then m else m - 0x1_0000_0000
  }
}
