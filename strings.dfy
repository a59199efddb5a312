/**
 * The handful of Python `str` operations the extractor relies on (`in`, `replace`, `split`,
 * `strip`, `lower`), with Python's meaning written out, and the substring search the regular
 * expressions rely on.
 */
module Strings {
  import opened Wrappers

  /** `lit` occurs in `s` starting at index `p`. */
  predicate IsPrefixAt(lit: string, s: string, p: nat) {
    p + |lit| <= |s| && s[p..p + |lit|] == lit
  }

  /** Python's `sub in s` for two strings. */
  predicate Contains(s: string, sub: string) {
    exists p :: 0 <= p <= |s| && IsPrefixAt(sub, s, p)
  }

  /** `lit` occurs at `i` and nowhere before `i`. */
  predicate FirstAt(lit: string, s: string, i: nat) {
    IsPrefixAt(lit, s, i) && forall q: nat :: q < i ==> !IsPrefixAt(lit, s, q)
  }

  /** Python's `s.find(lit, from)`: the leftmost index at or after `from` where `lit` occurs. */
  function IndexOf(s: string, lit: string, from: nat): (r: Option<nat>)
    ensures r.Some? ==> from <= r.value && IsPrefixAt(lit, s, r.value)
    ensures r.Some? ==> forall q: nat :: from <= q < r.value ==> !IsPrefixAt(lit, s, q)
    ensures r.None? ==> forall q: nat :: from <= q ==> !IsPrefixAt(lit, s, q)
    decreases |s| - from
  {
    if from + |lit| > |s| then None
    else if IsPrefixAt(lit, s, from) then Some(from)
    else IndexOf(s, lit, from + 1)
  }

  /**
   * Python's `s.replace(pat, rep)`: find the leftmost occurrence of `pat`, copy what precedes
   * it, emit `rep`, and carry on after the occurrence, so occurrences never overlap.
   */
  function Replace(s: string, pat: string, rep: string): string
    requires pat != []
    decreases |s|
  {
    match IndexOf(s, pat, 0)
    case None => s
    case Some(i) => s[..i] + rep + Replace(s[i + |pat|..], pat, rep)
  }

  /** A string without the pattern comes back from `replace` unchanged. */
  lemma ReplaceAbsent(s: string, pat: string, rep: string)
    requires pat != []
    requires !Contains(s, pat)
    ensures Replace(s, pat, rep) == s
  {
  }

  /** An occurrence of `pat` in `s` uses only characters of `s`. */
  lemma ContainsChar(s: string, pat: string)
    requires pat != [] && Contains(s, pat)
    ensures pat[0] in s
  {
    var p :| 0 <= p <= |s| && IsPrefixAt(pat, s, p);
    assert s[p..p + |pat|][0] == s[p];
  }

  /** The output of `replace` only holds characters of the input and of the replacement. */
  lemma {:induction false} ReplaceChars(s: string, pat: string, rep: string, c: char)
    requires pat != []
    requires c !in s && c !in rep
    ensures c !in Replace(s, pat, rep)
    decreases |s|
  {
    match IndexOf(s, pat, 0)
    case None =>
    case Some(i) =>
      assert c !in s[..i];
      assert c !in s[i + |pat|..];
      ReplaceChars(s[i + |pat|..], pat, rep, c);
  }

  /** ASCII lower-casing of one character. */
  function LowerChar(c: char): char {
    if 'A' <= c <= 'Z' then (c as int + 32) as char else c
  }

  /** `s.lower()` on the ASCII letters. */
  function Lower(s: string): string {
    seq(|s|, i requires 0 <= i < |s| => LowerChar(s[i]))
  }

  /** `lit` occurs at `p` when case is ignored (`re.IGNORECASE` on ASCII letters). */
  predicate CiPrefixAt(lit: string, s: string, p: nat) {
    p + |lit| <= |s| && Lower(s[p..p + |lit|]) == Lower(lit)
  }

  /** The characters Python's `str.isspace()` accepts, by code point. */
  predicate IsSpace(c: char) {
    var n := c as int;
    n == 0x20 || 0x09 <= n <= 0x0D || 0x1C <= n <= 0x1F || n == 0x85 || n == 0xA0 ||
    n == 0x1680 || 0x2000 <= n <= 0x200A || n == 0x2028 || n == 0x2029 ||
    n == 0x202F || n == 0x205F || n == 0x3000
  }

  /** Removes the leading characters `drop` accepts (the left half of `str.strip`). */
  function TrimStart(s: string, drop: char -> bool): (r: string)
    ensures |r| <= |s| && r == s[|s| - |r|..]
    ensures forall i :: 0 <= i < |s| - |r| ==> drop(s[i])
    ensures r == [] || !drop(r[0])
    decreases |s|
  {
    if s != [] && drop(s[0]) then TrimStart(s[1..], drop) else s
  }

  /** Removes the trailing characters `drop` accepts (the right half of `str.strip`). */
  function TrimEnd(s: string, drop: char -> bool): (r: string)
    ensures |r| <= |s| && r == s[..|r|]
    ensures forall i :: |r| <= i < |s| ==> drop(s[i])
    ensures r == [] || !drop(r[|r| - 1])
    decreases |s|
  {
    if s != [] && drop(s[|s| - 1]) then TrimEnd(s[..|s| - 1], drop) else s
  }

  /** Python's `s.strip(chars)`, the characters given as a predicate. */
  function Strip(s: string, drop: char -> bool): string {
    TrimEnd(TrimStart(s, drop), drop)
  }

  /** `s.strip()`: strips whitespace. */
  function StripSpace(s: string): string {
    Strip(s, IsSpace)
  }

  /** `strip` leaves nothing exactly when every character is one it removes. */
  lemma StripEmptyIff(s: string, drop: char -> bool)
    ensures Strip(s, drop) == [] <==> forall i :: 0 <= i < |s| ==> drop(s[i])
  {
    if k :| 0 <= k < |s| && !drop(s[k]) {
      StripKeeps(s, drop, k);
    } else {
      StripAllDropped(s, drop);
    }
  }

  /** A character `strip` does not remove keeps the result non-empty. */
  lemma StripKeeps(s: string, drop: char -> bool, k: nat)
    requires k < |s| && !drop(s[k])
    ensures Strip(s, drop) != []
  {
    var t := TrimStart(s, drop);
    assert |s| - |t| <= k;
    assert t[k - (|s| - |t|)] == s[k];
    assert t != [] && !drop(t[0]);
  }

  /** When `strip` removes every character, nothing is left. */
  lemma StripAllDropped(s: string, drop: char -> bool)
    requires forall i :: 0 <= i < |s| ==> drop(s[i])
    ensures Strip(s, drop) == []
  {
  }

  /** Python's `s.split(sep)`: always at least one part, and no part holds `sep`. */
  function Split(s: string, sep: char): (parts: seq<string>)
    ensures |parts| >= 1
    ensures forall k :: 0 <= k < |parts| ==> sep !in parts[k]
    decreases |s|
  {
    if s == [] then [""]
    else
      var rest := Split(s[1..], sep);
      if s[0] == sep then [""] + rest
      else [[s[0]] + rest[0]] + rest[1..]
  }

  /** `sep.join(parts)`. */
  function Join(parts: seq<string>, sep: char): string
    requires |parts| >= 1
  {
    if |parts| == 1 then parts[0] else parts[0] + [sep] + Join(parts[1..], sep)
  }

  /** Splitting loses nothing: joining the parts back gives the original string. */
  lemma {:induction false} JoinSplit(s: string, sep: char)
    ensures Join(Split(s, sep), sep) == s
    decreases |s|
  {
    if s != [] {
      var rest := Split(s[1..], sep);
      JoinSplit(s[1..], sep);
      if s[0] == sep {
        assert ([""] + rest)[1..] == rest;
      } else if |rest| > 1 {
        assert ([[s[0]] + rest[0]] + rest[1..])[1..] == rest[1..];
      }
    }
  }

  /** The first part of `s.split(sep)` is the longest prefix of `s` without `sep`. */
  lemma {:induction false} SplitHead(s: string, sep: char)
    ensures Split(s, sep)[0] <= s
    ensures |Split(s, sep)[0]| == |s| || s[|Split(s, sep)[0]|] == sep
    decreases |s|
  {
    if s != [] && s[0] != sep {
      SplitHead(s[1..], sep);
    }
  }

  /** A string without the separator splits into itself alone. */
  lemma {:induction false} SplitNoSep(s: string, sep: char)
    requires sep !in s
    ensures Split(s, sep) == [s]
    decreases |s|
  {
    if s != [] {
      SplitNoSep(s[1..], sep);
      assert [s[0]] + s[1..] == s;
    }
  }

  /** Splitting at the first separator: the part before it, then the split of the rest. */
  lemma {:induction false} SplitAt(a: string, b: string, sep: char)
    requires sep !in a
    ensures Split(a + [sep] + b, sep) == [a] + Split(b, sep)
    decreases |a|
  {
    var s := a + [sep] + b;
    if a == [] {
      assert s[1..] == b;
    } else {
      assert s[1..] == a[1..] + [sep] + b;
      SplitAt(a[1..], b, sep);
      assert [a[0]] + a[1..] == a;
    }
  }
}
