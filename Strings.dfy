/**
 * String primitives of JavaScript, restricted to ASCII: letter case, whitespace,
 * `startsWith`, `includes`, `trim`, `replace(/\s+/g, '_')` and the decimal rendering
 * of a non-negative integer.
 */
module Strings {

  /** ASCII `toLowerCase` of one character; every other character is left alone. */
  function LowerChar(c: char): char {
    if 'A' <= c <= 'Z' then (c as int + 32) as char else c
  }

  /** ASCII `toUpperCase` of one character. */
  function UpperChar(c: char): char {
    if 'a' <= c <= 'z' then (c as int - 32) as char else c
  }

  /** `s.toLowerCase()` with ASCII case folding. */
  function Lower(s: string): (r: string)
    ensures |r| == |s|
    ensures forall i :: 0 <= i < |s| ==> r[i] == LowerChar(s[i])
  {
    seq(|s|, i requires 0 <= i < |s| => LowerChar(s[i]))
  }

  lemma LowerAppend(a: string, b: string)
    ensures Lower(a + b) == Lower(a) + Lower(b)
  {
  }

  lemma LowerIdempotent(s: string)
    ensures Lower(Lower(s)) == Lower(s)
  {
  }

  /** The characters JavaScript's `\s` and `trim` treat as white space, restricted to ASCII. */
  predicate IsSpace(c: char) {
    c == ' ' || c == '\t' || c == '\n' || c == '\r' || c == '\U{000B}' || c == '\U{000C}'
  }

  predicate IsDigit(c: char) {
    '0' <= c <= '9'
  }

  predicate IsAsciiLetter(c: char) {
    'a' <= c <= 'z' || 'A' <= c <= 'Z'
  }

  /** `s.startsWith(prefix)` */
  predicate StartsWith(s: string, prefix: string) {
    |prefix| <= |s| && s[..|prefix|] == prefix
  }

  /** `sub` occurs in `s` starting at index `i`. */
  predicate OccursAt(s: string, i: int, sub: string) {
    0 <= i && i + |sub| <= |s| && s[i..i + |sub|] == sub
  }

  /** `s.includes(sub)` */
  predicate Includes(s: string, sub: string) {
    exists i :: 0 <= i <= |s| && OccursAt(s, i, sub)
  }

  /** Drops the white space at the front of `s`. */
  function DropLeadingSpaces(s: string): (r: string)
    ensures |r| <= |s|
    ensures r == s[|s| - |r|..]
    ensures r == [] || !IsSpace(r[0])
    ensures forall i :: 0 <= i < |s| - |r| ==> IsSpace(s[i])
  {
    if s == [] || !IsSpace(s[0]) then s else DropLeadingSpaces(s[1..])
  }

  /** Drops the white space at the back of `s`. */
  function DropTrailingSpaces(s: string): (r: string)
    ensures |r| <= |s|
    ensures r == s[..|r|]
    ensures r == [] || !IsSpace(r[|r| - 1])
    ensures forall i :: |r| <= i < |s| ==> IsSpace(s[i])
  {
    if s == [] || !IsSpace(s[|s| - 1]) then s else DropTrailingSpaces(s[..|s| - 1])
  }

  /** `s.trim()`. */
  function Trim(s: string): string {
    DropTrailingSpaces(DropLeadingSpaces(s))
  }

  /** `s.trim()` is empty exactly when `s` is made of white space only. */
  lemma TrimEmpty(s: string)
    ensures Trim(s) == [] <==> forall i :: 0 <= i < |s| ==> IsSpace(s[i])
  {
    var t := DropLeadingSpaces(s);
    if t != [] {
      assert s[|s| - |t|] == t[0];
    }
  }

  predicate AllSpaces(s: string) {
    forall i :: 0 <= i < |s| ==> IsSpace(s[i])
  }

  /** White space around a text that neither starts nor ends with white space is what `trim` removes. */
  lemma {:induction false} TrimPadded(p: string, c: string, q: string)
    requires AllSpaces(p) && AllSpaces(q)
    requires c == [] || (!IsSpace(c[0]) && !IsSpace(c[|c| - 1]))
    ensures Trim(p + c + q) == c
  {
    if c == [] {
      assert p + c + q == p + q;
      TrimOfSpaces(p, q);
    } else {
      var r := c + q;
      assert r[0] == c[0];
      assert p + c + q == p + r;
      DropLeadingPadding(p, r);
      DropTrailingPadding(c, q);
    }
  }

  lemma TrimOfSpaces(p: string, q: string)
    requires AllSpaces(p) && AllSpaces(q)
    ensures Trim(p + q) == []
  {
    assert AllSpaces(p + q) by {
      assert forall i :: 0 <= i < |p + q| ==> (p + q)[i] == if i < |p| then p[i] else q[i - |p|];
    }
    TrimEmpty(p + q);
  }

  lemma {:induction false} DropLeadingPadding(p: string, rest: string)
    requires AllSpaces(p) && (rest == [] || !IsSpace(rest[0]))
    ensures DropLeadingSpaces(p + rest) == rest
  {
    if p != [] {
      assert (p + rest)[1..] == p[1..] + rest;
      DropLeadingPadding(p[1..], rest);
    } else {
      assert p + rest == rest;
    }
  }

  lemma {:induction false} DropTrailingPadding(c: string, q: string)
    requires AllSpaces(q) && (c == [] || !IsSpace(c[|c| - 1]))
    ensures DropTrailingSpaces(c + q) == c
  {
    if q != [] {
      assert (c + q)[..|c + q| - 1] == c + q[..|q| - 1];
      DropTrailingPadding(c, q[..|q| - 1]);
    } else {
      assert c + q == c;
    }
  }

  /** `s.replace(/\s+/g, '_')`: every maximal run of white space becomes one `_`. */
  function SqueezeSpaces(s: string): (r: string)
    ensures |r| <= |s|
    decreases |s|
  {
    if s == [] then []
    else if IsSpace(s[0]) then "_" + SqueezeSpaces(DropLeadingSpaces(s[1..]))
    else [s[0]] + SqueezeSpaces(s[1..])
  }

  /** No white space is left after squeezing. */
  lemma {:induction false} SqueezedNoSpace(s: string)
    ensures forall i :: 0 <= i < |SqueezeSpaces(s)| ==> !IsSpace(SqueezeSpaces(s)[i])
    decreases |s|
  {
    if s != [] {
      var t := if IsSpace(s[0]) then DropLeadingSpaces(s[1..]) else s[1..];
      var head := if IsSpace(s[0]) then "_" else [s[0]];
      SqueezedNoSpace(t);
      assert SqueezeSpaces(s) == head + SqueezeSpaces(t);
    }
  }

  /** A text without white space is left as it is. */
  lemma {:induction false} SqueezeSpaceFree(s: string)
    requires forall i :: 0 <= i < |s| ==> !IsSpace(s[i])
    ensures SqueezeSpaces(s) == s
  {
    if s != [] {
      SqueezeSpaceFree(s[1..]);
    }
  }

  /**
   * Squeezing keeps a text without white space as it is and turns the run of white space after
   * it into one `_`; the rest is squeezed on its own.
   */
  lemma {:induction false} SqueezeRun(a: string, w: string, b: string)
    requires forall i :: 0 <= i < |a| ==> !IsSpace(a[i])
    requires |w| > 0 && AllSpaces(w)
    requires b == [] || !IsSpace(b[0])
    ensures SqueezeSpaces(a + w + b) == a + "_" + SqueezeSpaces(b)
    decreases |a|
  {
    if a == [] {
      assert a + w + b == w + b;
      SqueezeRunFront(w, b);
    } else {
      var rest := a[1..] + w + b;
      assert a + w + b == [a[0]] + rest;
      SqueezeKeeps(a[0], rest);
      SqueezeRun(a[1..], w, b);
      assert a == [a[0]] + a[1..];
    }
  }

  /** A character other than white space is copied. */
  lemma SqueezeKeeps(c: char, r: string)
    requires !IsSpace(c)
    ensures SqueezeSpaces([c] + r) == [c] + SqueezeSpaces(r)
  {
    assert ([c] + r)[0] == c && ([c] + r)[1..] == r;
  }

  /** A run of white space in front becomes one `_`. */
  lemma SqueezeRunFront(w: string, b: string)
    requires |w| > 0 && AllSpaces(w)
    requires b == [] || !IsSpace(b[0])
    ensures SqueezeSpaces(w + b) == "_" + SqueezeSpaces(b)
  {
    var s := w + b;
    assert s[0] == w[0] && s[1..] == w[1..] + b;
    assert AllSpaces(w[1..]) by {
      forall i | 0 <= i < |w[1..]| ensures IsSpace(w[1..][i]) {
        assert w[1..][i] == w[i + 1];
      }
    }
    DropLeadingPadding(w[1..], b);
  }

  /** The decimal digit for `d`. */
  function DigitChar(d: nat): (c: char)
    requires d < 10
    ensures IsDigit(c)
  {
    ('0' as int + d) as char
  }

  /** `String(n)` for a non-negative integer `n`: its decimal digits, most significant first. */
  function NatToString(n: nat): (r: string)
    ensures |r| > 0
    ensures forall i :: 0 <= i < |r| ==> IsDigit(r[i])
  {
    if n < 10 then [DigitChar(n)] else NatToString(n / 10) + [DigitChar(n % 10)]
  }

  /** The value of a non-empty string of decimal digits. */
  function DigitsValue(s: string): nat
    requires forall i :: 0 <= i < |s| ==> IsDigit(s[i])
  {
    if s == [] then 0
    else
      assert IsDigit(s[|s| - 1]);
      DigitsValue(s[..|s| - 1]) * 10 + (s[|s| - 1] as int - '0' as int)
  }

  /** Reading the digits back recovers the number. */
  lemma {:induction false} NatToStringRoundTrip(n: nat)
    ensures DigitsValue(NatToString(n)) == n
  {
    if n >= 10 {
      NatToStringRoundTrip(n / 10);
      var s := NatToString(n);
      assert s[..|s| - 1] == NatToString(n / 10);
    }
  }
}
