/**
  The Python string built-ins the gateway relies on: `str.strip()`, `str.title()`
  and `str.rstrip("/")`.

  Assumption: the model follows Python's semantics on ASCII text. A character outside
  ASCII is treated as an uncased, non-whitespace character; Python's Unicode tables
  (which can, for instance, change the length of a string under `title()`) are not
  modelled.
*/
module Text {

  /** `str.isspace()` on ASCII: tab, line feed, vertical tab, form feed, carriage return,
      the four information separators 0x1C-0x1F, and space. */
  predicate IsSpace(c: char) {
    var n := c as int;
    n == 32 || 9 <= n <= 13 || 28 <= n <= 31
  }

  /** Every character of `s` is whitespace (vacuously true of the empty string). */
  predicate AllSpace(s: string) {
    forall k :: 0 <= k < |s| ==> IsSpace(s[k])
  }

  predicate IsUpper(c: char) { 'A' <= c <= 'Z' }

  predicate IsLower(c: char) { 'a' <= c <= 'z' }

  /** Cased in Python's sense; on ASCII the cased characters are exactly the letters. */
  predicate IsCased(c: char) { IsUpper(c) || IsLower(c) }

  function Upper(c: char): char {
    if IsLower(c) then (c as int - 32) as char else c
  }

  function Lower(c: char): char {
    if IsUpper(c) then (c as int + 32) as char else c
  }

  /** The number of whitespace characters `s` starts with. */
  function Leading(s: string): (n: nat)
    ensures n <= |s|
    ensures forall k :: 0 <= k < n ==> IsSpace(s[k])
    ensures n < |s| ==> !IsSpace(s[n])
  {
    if s != [] && IsSpace(s[0]) then 1 + Leading(s[1..]) else 0
  }

  /** The number of whitespace characters `s` ends with. */
  function Trailing(s: string): (n: nat)
    ensures n <= |s|
    ensures forall k :: |s| - n <= k < |s| ==> IsSpace(s[k])
    ensures n < |s| ==> !IsSpace(s[|s| - n - 1])
  {
    if s != [] && IsSpace(s[|s| - 1]) then 1 + Trailing(s[..|s| - 1]) else 0
  }

  /** Leading whitespace is determined by the first non-whitespace character. */
  lemma LeadingUnique(s: string, n: nat)
    requires n <= |s| && (forall k :: 0 <= k < n ==> IsSpace(s[k]))
    requires n < |s| ==> !IsSpace(s[n])
    ensures Leading(s) == n
  {
  }

  /** Trailing whitespace is determined by the last non-whitespace character. */
  lemma TrailingUnique(s: string, n: nat)
    requires n <= |s| && (forall k :: |s| - n <= k < |s| ==> IsSpace(s[k]))
    requires n < |s| ==> !IsSpace(s[|s| - n - 1])
    ensures Trailing(s) == n
  {
  }

  /** `str.strip()`: whitespace removed at both ends. The result is the part of `s` between
      a whitespace-only prefix and a whitespace-only suffix, and it neither starts nor ends
      with whitespace; it is empty exactly when `s` holds nothing but whitespace. */
  function Strip(s: string): (r: string)
    ensures var i := Leading(s);
      i + |r| <= |s| && r == s[i..i + |r|]
      && (forall k :: 0 <= k < i ==> IsSpace(s[k]))
      && (forall k :: i + |r| <= k < |s| ==> IsSpace(s[k]))
    ensures r != [] ==> !IsSpace(r[0]) && !IsSpace(r[|r| - 1])
    ensures r == [] <==> AllSpace(s)
  {
    var i := Leading(s);
    var t := s[i..];
    StripSlice(s, i, t, |t| - Trailing(t));
    t[..|t| - Trailing(t)]
  }

  lemma StripSlice(s: string, i: nat, t: string, m: nat)
    requires i == Leading(s) && t == s[i..] && m == |t| - Trailing(t)
    ensures i + m <= |s| && t[..m] == s[i..i + m]
    ensures forall k :: i + m <= k < |s| ==> IsSpace(s[k])
    ensures m > 0 ==> !IsSpace(t[..m][0]) && !IsSpace(t[..m][m - 1])
    ensures m == 0 <==> AllSpace(s)
  {
    StripSliceTail(s, i, t, m);
    StripSliceEnds(s, i, t, m);
    StripSliceEmpty(s, i, t, m);
  }

  lemma StripSliceTail(s: string, i: nat, t: string, m: nat)
    requires i <= |s| && t == s[i..] && m <= |t| && (forall k :: m <= k < |t| ==> IsSpace(t[k]))
    ensures forall k :: i + m <= k < |s| ==> IsSpace(s[k])
  {
    forall k | i + m <= k < |s| ensures IsSpace(s[k]) {
      assert s[k] == t[k - i];
    }
  }

  lemma StripSliceEnds(s: string, i: nat, t: string, m: nat)
    requires i == Leading(s) && t == s[i..] && m == |t| - Trailing(t)
    ensures m > 0 ==> !IsSpace(t[..m][0]) && !IsSpace(t[..m][m - 1])
  {
    if m > 0 {
      assert t[..m][0] == s[i];
      assert t[..m][m - 1] == t[|t| - Trailing(t) - 1];
    }
  }

  lemma SliceHead(s: string, i: nat)
    ensures i < |s| ==> s[i..][0] == s[i]
  {
  }

  lemma StripSliceEmpty(s: string, i: nat, t: string, m: nat)
    requires i == Leading(s) && t == s[i..] && m == |t| - Trailing(t)
    ensures m == 0 <==> AllSpace(s)
  {
    SliceHead(s, i);
    if m > 0 {
      assert !IsSpace(s[i]);
    }
  }

  /** Reference characterisation of `Strip`: surrounding any text that neither starts nor
      ends with whitespace by whitespace-only padding, then stripping, gives that text back. */
  lemma StripPadded(pre: string, core: string, post: string)
    requires AllSpace(pre) && AllSpace(post)
    requires core != [] ==> !IsSpace(core[0]) && !IsSpace(core[|core| - 1])
    ensures Strip(pre + core + post) == core
  {
    var s := pre + core + post;
    if core == [] {
      assert AllSpace(s) by {
        forall k | 0 <= k < |s| ensures IsSpace(s[k]) {
          if k >= |pre| { assert s[k] == post[k - |pre|]; } else { assert s[k] == pre[k]; }
        }
      }
    } else {
      assert s[|pre|] == core[0];
      assert forall k :: 0 <= k < |pre| ==> s[k] == pre[k];
      LeadingUnique(s, |pre|);
      var t := s[|pre|..];
      assert t == core + post;
      assert t[|core| - 1] == core[|core| - 1];
      assert forall k :: |core| <= k < |t| ==> t[k] == post[k - |core|];
      TrailingUnique(t, |post|);
      assert t[..|core|] == core;
    }
  }

  /** Stripping twice is stripping once. */
  lemma StripIdempotent(s: string)
    ensures Strip(Strip(s)) == Strip(s)
  {
    var r := Strip(s);
    assert AllSpace([]);
    StripPadded([], r, []);
    assert [] + r + [] == r;
  }

  /** The upper- or lower-casing `str.title()` applies to `c`, given whether the character
      before it is cased. */
  function TitleChar(c: char, afterCased: bool): char {
    if afterCased then Lower(c) else Upper(c)
  }

  /** `str.title()` continued from a point where the previous character was (or was not) cased. */
  function TitleFrom(s: string, prevCased: bool): (r: string)
    ensures |r| == |s|
    ensures forall k :: 0 <= k < |s| ==>
      r[k] == TitleChar(s[k], if k == 0 then prevCased else IsCased(s[k - 1]))
  {
    if s == [] then [] else [TitleChar(s[0], prevCased)] + TitleFrom(s[1..], IsCased(s[0]))
  }

  /** `str.title()`: a letter at the start of `s` or right after a non-letter is uppercased,
      every other letter is lowercased, and every other character is left alone; the length
      never changes. */
  function Title(s: string): (r: string)
    ensures |r| == |s|
    ensures forall k :: 0 <= k < |s| ==>
      r[k] == if k > 0 && IsCased(s[k - 1]) then Lower(s[k]) else Upper(s[k])
  {
    TitleFrom(s, false)
  }

  /** `str.rstrip("/")`: every trailing slash removed. What is removed is slashes only, and
      the result does not end in a slash. */
  function RStripSlash(s: string): (r: string)
    ensures |r| <= |s| && r == s[..|r|]
    ensures forall k :: |r| <= k < |s| ==> s[k] == '/'
    ensures r == [] || r[|r| - 1] != '/'
  {
    if s != [] && s[|s| - 1] == '/' then RStripSlash(s[..|s| - 1]) else s
  }

  /** Appending slashes to a string without a trailing slash does not change what
      `RStripSlash` returns. */
  lemma {:induction false} RStripSlashPadded(core: string, tail: string)
    requires core == [] || core[|core| - 1] != '/'
    requires forall k :: 0 <= k < |tail| ==> tail[k] == '/'
    ensures RStripSlash(core + tail) == core
    decreases |tail|
  {
    if tail == [] {
      assert core + tail == core;
    } else {
      var t := tail[..|tail| - 1];
      assert (core + tail)[..|core + tail| - 1] == core + t;
      RStripSlashPadded(core, t);
    }
  }

  /** Any number of extra trailing slashes in a base URL are irrelevant. */
  lemma RStripSlashIgnoresExtraSlashes(s: string, tail: string)
    requires forall k :: 0 <= k < |tail| ==> tail[k] == '/'
    ensures RStripSlash(s + tail) == RStripSlash(s)
  {
    var r := RStripSlash(s);
    var rest := s[|r|..] + tail;
    assert s + tail == r + rest;
    forall k | 0 <= k < |rest| ensures rest[k] == '/' {
      if k < |s| - |r| { assert rest[k] == s[|r| + k]; }
    }
    RStripSlashPadded(r, rest);
  }
}
