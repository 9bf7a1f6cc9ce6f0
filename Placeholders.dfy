/**
 * The placeholder substitution both the browser and the `process-template` function use:
 * `text.replace(new RegExp(pattern, 'gi'), value)` for a literal pattern such as `{{nome}}`,
 * applied once per entry of an ordered table of (pattern, value) pairs.
 *
 * The regular expression is matched case-insensitively (ASCII folding) and globally: the text
 * is scanned left to right, each match is replaced by the value, scanning resumes after the
 * match, and the inserted value is not scanned again by the same pattern.
 */
module Placeholders {
  import opened Strings

  /** The placeholder `{{key}}`. */
  function Brace(key: string): (p: string)
    ensures |p| == |key| + 4
    ensures p[..2] == "{{" && p[|p| - 2..] == "}}" && p[2..|p| - 2] == key
  {
    "{{" + key + "}}"
  }

  predicate BraceFree(s: string) {
    forall i :: 0 <= i < |s| ==> s[i] != '{' && s[i] != '}'
  }

  /** `p` is `{{key}}` for a key without braces (every key of the two field tables). */
  predicate IsPlaceholder(p: string) {
    |p| >= 4 && p[..2] == "{{" && p[|p| - 2..] == "}}" && BraceFree(p[2..|p| - 2])
  }

  /** The pattern `p`, with flag `i`, matches `s` at index `i`. */
  predicate MatchAt(s: string, i: int, p: string) {
    0 <= i && i + |p| <= |s| && forall d :: 0 <= d < |p| ==> LowerChar(s[i + d]) == LowerChar(p[d])
  }

  /** No case variant of `p` occurs anywhere in `s`. */
  predicate NoMatch(s: string, p: string) {
    forall i :: 0 <= i < |s| ==> !MatchAt(s, i, p)
  }

  /** Some character of `p` is `c` up to ASCII case. */
  predicate FoldsInto(c: char, p: string) {
    exists k :: 0 <= k < |p| && LowerChar(p[k]) == LowerChar(c)
  }

  /**
   * `s.replace(new RegExp(p, 'gi'), v)` where `p` has no special characters for the regular
   * expression engine and `v` has no `$` (so it is inserted literally).
   */
  function ReplaceAll(s: string, p: string, v: string): string
    requires |p| > 0
    decreases |s|
  {
    if s == [] then []
    else if MatchAt(s, 0, p) then v + ReplaceAll(s[|p|..], p, v)
    else [s[0]] + ReplaceAll(s[1..], p, v)
  }

  // ---------------------------------------------------------------------------------------
  // Facts about matching

  /** Matching compares the window with the pattern character by character, up to case. */
  lemma MatchAtChars(s: string, i: int, p: string, d: int)
    requires 0 <= i && 0 <= d < |p| && i + d < |s|
    ensures MatchAt(s, i, p) ==> LowerChar(s[i + d]) == LowerChar(p[d])
  {
  }

  lemma MatchShift(s: string, k: int, i: int, p: string)
    requires 0 <= k <= |s| && 0 <= i
    ensures MatchAt(s[k..], i, p) <==> MatchAt(s, i + k, p)
  {
  }

  lemma MatchPrefix(a: string, b: string, i: int, p: string)
    requires 0 <= i && i + |p| <= |a|
    ensures MatchAt(a + b, i, p) <==> MatchAt(a, i, p)
  {
  }

  lemma MatchSuffix(a: string, b: string, i: int, p: string)
    requires 0 <= i
    ensures MatchAt(a + b, |a| + i, p) <==> MatchAt(b, i, p)
  {
    MatchShift(a + b, |a|, i, p);
    assert (a + b)[|a|..] == b;
  }

  /** The braces of a placeholder are exactly its first two and its last two characters. */
  lemma PlaceholderBraces(p: string, i: int)
    requires IsPlaceholder(p) && 0 <= i < |p|
    ensures p[i] == '{' <==> i < 2
    ensures p[i] == '}' <==> |p| - 2 <= i
  {
    if 2 <= i < |p| - 2 {
      assert p[i] == p[2..|p| - 2][i - 2];
    } else if i < 2 {
      assert p[i] == p[..2][i];
    } else {
      assert p[i] == p[|p| - 2..][i - (|p| - 2)];
    }
  }

  /** `p` does not match at `i` because the characters at offset `d` differ. */
  lemma Mismatch(s: string, i: int, p: string, d: int)
    requires 0 <= i && 0 <= d < |p| && i + d < |s| && LowerChar(s[i + d]) != LowerChar(p[d])
    ensures !MatchAt(s, i, p)
  {
    MatchAtChars(s, i, p, d);
  }

  // ---------------------------------------------------------------------------------------
  // The shape of a replacement

  /** The first index at which `p` matches `s`, or `|s|` when it matches nowhere. */
  lemma {:induction false} FirstMatch(s: string, p: string) returns (j: nat)
    requires |p| > 0
    ensures j <= |s|
    ensures forall i :: 0 <= i < j ==> !MatchAt(s, i, p)
    ensures j < |s| ==> MatchAt(s, j, p)
  {
    j := 0;
    while j < |s| && !MatchAt(s, j, p)
      invariant j <= |s|
      invariant forall i :: 0 <= i < j ==> !MatchAt(s, i, p)
    {
      j := j + 1;
    }
  }

  /** The scan copies every character in front of the first match unchanged. */
  lemma {:induction false} CopyPrefix(s: string, p: string, v: string, j: int)
    requires |p| > 0 && 0 <= j <= |s|
    requires forall i :: 0 <= i < j ==> !MatchAt(s, i, p)
    ensures ReplaceAll(s, p, v) == s[..j] + ReplaceAll(s[j..], p, v)
    decreases j
  {
    if j > 0 {
      var s1 := s[1..];
      forall i | 0 <= i < j - 1 ensures !MatchAt(s1, i, p) {
        MatchShift(s, 1, i, p);
      }
      CopyPrefix(s1, p, v, j - 1);
      assert s1[j - 1..] == s[j..];
      assert s[..j] == [s[0]] + s1[..j - 1];
    }
  }

  /** At a match the scan emits the value and resumes right after the match. */
  lemma ReplaceAtMatch(s: string, p: string, v: string, j: int)
    requires |p| > 0 && 0 <= j < |s| && MatchAt(s, j, p)
    requires forall i :: 0 <= i < j ==> !MatchAt(s, i, p)
    ensures ReplaceAll(s, p, v) == s[..j] + v + ReplaceAll(s[j + |p|..], p, v)
  {
    CopyPrefix(s, p, v, j);
    MatchShift(s, j, 0, p);
    assert s[j..][|p|..] == s[j + |p|..];
  }

  /** A text in which no case variant of `p` occurs is returned unchanged. */
  lemma ReplaceNoMatch(s: string, p: string, v: string)
    requires |p| > 0 && NoMatch(s, p)
    ensures ReplaceAll(s, p, v) == s
  {
    CopyPrefix(s, p, v, |s|);
    assert s[..|s|] == s;
  }

  /**
   * When no match of `p` straddles the boundary between `a` and `b`, the two halves are
   * rewritten independently.
   */
  lemma {:induction false} ReplaceSplit(a: string, b: string, p: string, v: string)
    requires |p| > 0
    requires forall i :: 0 <= i < |a| && |a| < i + |p| ==> !MatchAt(a + b, i, p)
    ensures ReplaceAll(a + b, p, v) == ReplaceAll(a, p, v) + ReplaceAll(b, p, v)
    decreases |a|
  {
    if a == [] {
      assert a + b == b;
    } else if MatchAt(a + b, 0, p) {
      assert |p| <= |a|;
      MatchPrefix(a, b, 0, p);
      var a' := a[|p|..];
      assert (a + b)[|p|..] == a' + b;
      forall i | 0 <= i < |a'| && |a'| < i + |p| ensures !MatchAt(a' + b, i, p) {
        MatchShift(a + b, |p|, i, p);
      }
      ReplaceSplit(a', b, p, v);
    } else {
      if |p| <= |a| {
        MatchPrefix(a, b, 0, p);
      }
      var a' := a[1..];
      assert (a + b)[1..] == a' + b;
      assert (a + b)[0] == a[0];
      forall i | 0 <= i < |a'| && |a'| < i + |p| ensures !MatchAt(a' + b, i, p) {
        MatchShift(a + b, 1, i, p);
      }
      ReplaceSplit(a', b, p, v);
    }
  }

  /** Replacement does not depend on the letter case in which the pattern is written. */
  lemma {:induction false} ReplacePatternCase(s: string, p: string, q: string, v: string)
    requires |p| > 0 && Lower(p) == Lower(q)
    ensures ReplaceAll(s, p, v) == ReplaceAll(s, q, v)
    decreases |s|
  {
    if s != [] {
      if MatchAt(s, 0, p) {
        ReplacePatternCase(s[|p|..], p, q, v);
      } else {
        ReplacePatternCase(s[1..], p, q, v);
      }
    }
  }

  // ---------------------------------------------------------------------------------------
  // What survives a replacement

  /**
   * If every case variant of `q` in `s` sits where `p` matches too, and `v` can neither
   * contain `q` nor complete one across its ends, then no case variant of `q` is left after
   * `p` is replaced by `v`. With `q == p`: replacing `p` removes all its case variants.
   */
  lemma {:induction false} ReplaceAvoids(s: string, p: string, v: string, q: string)
    requires |p| > 0 && |q| > 0 && |v| > 0
    requires !FoldsInto(v[0], q) && !FoldsInto(v[|v| - 1], q) && NoMatch(v, q)
    requires forall i :: 0 <= i < |s| && MatchAt(s, i, q) ==> MatchAt(s, i, p)
    ensures NoMatch(ReplaceAll(s, p, v), q)
    decreases |s|
  {
    var r := ReplaceAll(s, p, v);
    if s == [] {
    } else if MatchAt(s, 0, p) {
      var s' := s[|p|..];
      forall i | 0 <= i < |s'| && MatchAt(s', i, q) ensures MatchAt(s', i, p) {
        MatchShift(s, |p|, i, q);
        MatchShift(s, |p|, i, p);
      }
      ReplaceAvoids(s', p, v, q);
      var r' := ReplaceAll(s', p, v);
      assert r == v + r';
      forall i | 0 <= i < |r| ensures !MatchAt(r, i, q) {
        if i < |v| {
          if i + |q| <= |v| {
            MatchPrefix(v, r', i, q);
          } else {
            MatchAtChars(r, i, q, |v| - 1 - i);
            assert r[|v| - 1] == v[|v| - 1];
          }
        } else {
          MatchSuffix(v, r', i - |v|, q);
        }
      }
    } else {
      var s1 := s[1..];
      forall i | 0 <= i < |s1| && MatchAt(s1, i, q) ensures MatchAt(s1, i, p) {
        MatchShift(s, 1, i, q);
        MatchShift(s, 1, i, p);
      }
      ReplaceAvoids(s1, p, v, q);
      var r1 := ReplaceAll(s1, p, v);
      assert r == [s[0]] + r1;
      forall i | 0 <= i < |r| ensures !MatchAt(r, i, q) {
        if i == 0 {
          HeadWindow(s, p, v, q);
        } else {
          MatchSuffix([s[0]], r1, i - 1, q);
        }
      }
    }
  }

  /** The window at the front of a replaced text, when `p` does not match at the front. */
  lemma HeadWindow(s: string, p: string, v: string, q: string)
    requires |p| > 0 && |q| > 0 && |v| > 0 && s != []
    requires !FoldsInto(v[0], q)
    requires MatchAt(s, 0, q) ==> MatchAt(s, 0, p)
    requires !MatchAt(s, 0, p)
    ensures !MatchAt(ReplaceAll(s, p, v), 0, q)
  {
    var j := FirstMatch(s, p);
    if j == |s| {
      ReplaceNoMatch(s, p, v);
    } else {
      HeadWindowAtMatch(s, p, v, q, j);
    }
  }

  /** The front window when the first match of `p` is at `j`, after the front. */
  lemma HeadWindowAtMatch(s: string, p: string, v: string, q: string, j: nat)
    requires |p| > 0 && |q| > 0 && |v| > 0 && j < |s|
    requires MatchAt(s, j, p) && forall i :: 0 <= i < j ==> !MatchAt(s, i, p)
    requires !FoldsInto(v[0], q) && !MatchAt(s, 0, q)
    ensures !MatchAt(ReplaceAll(s, p, v), 0, q)
  {
    ReplaceAtMatch(s, p, v, j);
    FrontSwap(s, j, v, ReplaceAll(s[j + |p|..], p, v), q);
  }

  /** Replacing what follows the first `j` characters of `s` by `v + rest`: the front window. */
  lemma FrontSwap(s: string, j: nat, v: string, rest: string, q: string)
    requires j <= |s| && |q| > 0 && |v| > 0 && !FoldsInto(v[0], q) && !MatchAt(s, 0, q)
    ensures !MatchAt(s[..j] + v + rest, 0, q)
  {
    var tail := v + rest;
    assert tail[0] == v[0];
    assert s[..j] + s[j..] == s;
    assert s[..j] + v + rest == s[..j] + tail;
    FrontWindow(s[..j], tail, s[j..], q);
  }

  /**
   * Swapping what follows `x` for a text whose first character is not in `q` cannot create
   * a match of `q` at the front.
   */
  lemma FrontWindow(x: string, t: string, u: string, q: string)
    requires |q| > 0 && |t| > 0 && !FoldsInto(t[0], q)
    requires !MatchAt(x + u, 0, q)
    ensures !MatchAt(x + t, 0, q)
  {
    if |q| <= |x| {
      MatchPrefix(x, t, 0, q);
      MatchPrefix(x, u, 0, q);
    } else {
      MatchAtChars(x + t, 0, q, |x|);
      assert (x + t)[|x|] == t[0];
    }
  }

  /** A placeholder is never matched by another placeholder's pattern. */
  lemma TokenNoMatch(t: string, p: string)
    requires IsPlaceholder(t) && IsPlaceholder(p) && Lower(t) != Lower(p)
    ensures NoMatch(t, p)
  {
    PlaceholderBraces(p, 0);
    PlaceholderBraces(p, 1);
    PlaceholderBraces(t, 2);
    forall i | 0 <= i < |t| ensures !MatchAt(t, i, p) {
      MatchAtChars(t, i, p, 0);
      PlaceholderBraces(t, i);
      if i == 1 {
        MatchAtChars(t, 1, p, 1);
      } else if i == 0 && |p| <= |t| {
        PlaceholderBraces(p, |p| - 1);
        PlaceholderBraces(p, |p| - 2);
        MatchAtChars(t, 0, p, |p| - 1);
        MatchAtChars(t, 0, p, |p| - 2);
        PlaceholderBraces(t, |p| - 1);
        PlaceholderBraces(t, |p| - 2);
      }
    }
  }

  /** No match of pattern `p` can straddle the front of a placeholder that follows `a`. */
  lemma NoStraddleBefore(a: string, rest: string, p: string)
    requires IsPlaceholder(p) && |rest| >= 2 && rest[..2] == "{{"
    ensures forall i :: 0 <= i < |a| && |a| < i + |p| ==> !MatchAt(a + rest, i, p)
  {
    forall i | 0 <= i < |a| && |a| < i + |p| ensures !MatchAt(a + rest, i, p) {
      var d := |a| - i;
      assert (a + rest)[i + d] == rest[0] == '{';
      MatchAtChars(a + rest, i, p, d);
      PlaceholderBraces(p, d);
      if d == 1 {
        assert (a + rest)[i + 2] == rest[1] == '{';
        MatchAtChars(a + rest, i, p, 2);
        PlaceholderBraces(p, 2);
      }
    }
  }

  /** No match of pattern `p` can straddle the back of placeholder `t`. */
  lemma NoStraddleAfter(t: string, b: string, p: string)
    requires IsPlaceholder(t) && IsPlaceholder(p)
    ensures forall i :: 0 <= i < |t| && |t| < i + |p| ==> !MatchAt(t + b, i, p)
  {
    PlaceholderBraces(p, 0);
    PlaceholderBraces(p, 1);
    forall i | 0 <= i < |t| && |t| < i + |p| ensures !MatchAt(t + b, i, p) {
      MatchAtChars(t + b, i, p, 0);
      assert (t + b)[i] == t[i];
      PlaceholderBraces(t, i);
      if i == 1 {
        MatchAtChars(t + b, 1, p, 1);
        assert (t + b)[2] == t[2];
        PlaceholderBraces(t, 2);
      } else if i == 0 {
        MatchAtChars(t + b, 0, p, |t| - 2);
        assert (t + b)[|t| - 2] == t[|t| - 2];
        PlaceholderBraces(t, |t| - 2);
        PlaceholderBraces(p, |t| - 2);
      }
    }
  }

  /**
   * Replacing one placeholder's case variants leaves every other placeholder `t` standing
   * where it was, whatever the replacement value.
   */
  lemma ReplaceKeepsToken(a: string, t: string, b: string, p: string, v: string)
    requires IsPlaceholder(t) && IsPlaceholder(p) && Lower(t) != Lower(p)
    ensures ReplaceAll(a + t + b, p, v) == ReplaceAll(a, p, v) + t + ReplaceAll(b, p, v)
  {
    assert (t + b)[..2] == "{{" by { assert (t + b)[..2] == t[..2]; }
    KeepsTokenFront(a, t + b, p, v);
    KeepsTokenBack(t, b, p, v);
    assert a + t + b == a + (t + b);
  }

  /** The text in front of a placeholder is rewritten on its own. */
  lemma KeepsTokenFront(a: string, rest: string, p: string, v: string)
    requires IsPlaceholder(p) && |rest| >= 2 && rest[..2] == "{{"
    ensures ReplaceAll(a + rest, p, v) == ReplaceAll(a, p, v) + ReplaceAll(rest, p, v)
  {
    NoStraddleBefore(a, rest, p);
    ReplaceSplit(a, rest, p, v);
  }

  /** A placeholder other than `p` is kept, and the text after it is rewritten on its own. */
  lemma KeepsTokenBack(t: string, b: string, p: string, v: string)
    requires IsPlaceholder(t) && IsPlaceholder(p) && Lower(t) != Lower(p)
    ensures ReplaceAll(t + b, p, v) == t + ReplaceAll(b, p, v)
  {
    NoStraddleAfter(t, b, p);
    ReplaceSplit(t, b, p, v);
    TokenNoMatch(t, p);
    ReplaceNoMatch(t, p, v);
  }

  /**
   * One pass does not remove every case variant of a placeholder: with an empty value the
   * text around a removed match can close up into a new one.
   */
  lemma ReplaceCanReformPlaceholder(s: string, p: string)
    requires s == "{{no{{nome}}me}}" && p == "{{nome}}"
    ensures ReplaceAll(s, p, "") == p
  {
    ReformFront(s, p);
    ReformAtMatch(s, p);
    ReplaceNoMatch(s[12..], p, "");
    ReformJoin(s, p);
  }

  /** No window before index 4 of the counterexample matches `{{nome}}`. */
  lemma ReformFront(s: string, p: string)
    requires s == "{{no{{nome}}me}}" && p == "{{nome}}"
    ensures forall i :: 0 <= i < 4 ==> !MatchAt(s, i, p)
    ensures MatchAt(s, 4, p)
  {
    Mismatch(s, 0, p, 4);
    Mismatch(s, 1, p, 4);
    Mismatch(s, 2, p, 0);
    Mismatch(s, 3, p, 0);
  }

  /** The first match of the counterexample, at index 4, is removed. */
  lemma ReformAtMatch(s: string, p: string)
    requires s == "{{no{{nome}}me}}" && p == "{{nome}}"
    requires forall i :: 0 <= i < 4 ==> !MatchAt(s, i, p)
    requires MatchAt(s, 4, p)
    ensures ReplaceAll(s, p, "") == s[..4] + ReplaceAll(s[12..], p, "")
  {
    ReplaceAtMatch(s, p, "", 4);
  }

  /** What is left around the removed match spells the pattern again. */
  lemma ReformJoin(s: string, p: string)
    requires s == "{{no{{nome}}me}}" && p == "{{nome}}"
    requires ReplaceAll(s, p, "") == s[..4] + ReplaceAll(s[12..], p, "")
    requires ReplaceAll(s[12..], p, "") == s[12..]
    ensures ReplaceAll(s, p, "") == p
  {
  }

  // ---------------------------------------------------------------------------------------
  // A table of replacements applied in order

  /** One entry of a replacement table: every case variant of `pattern` becomes `value`. */
  datatype Rule = Rule(pattern: string, value: string)

  predicate ValidRules(rules: seq<Rule>) {
    forall i :: 0 <= i < |rules| ==> |rules[i].pattern| > 0
  }

  /** The rules' patterns are placeholders, none of them a case variant of `t`. */
  predicate PlaceholderRulesAvoid(rules: seq<Rule>, t: string) {
    forall i :: 0 <= i < |rules| ==> IsPlaceholder(rules[i].pattern) && Lower(rules[i].pattern) != Lower(t)
  }

  /** The loop `for (const [p, v] of rules) text = text.replace(new RegExp(p, 'gi'), v)`. */
  function ApplyRules(s: string, rules: seq<Rule>): string
    requires ValidRules(rules)
    decreases |rules|
  {
    if rules == [] then s else ApplyRules(ReplaceAll(s, rules[0].pattern, rules[0].value), rules[1..])
  }

  /**
   * Rules run in table order, each over the whole output of the ones before it, so text
   * that an earlier value introduced is matched by later patterns.
   */
  lemma {:induction false} ApplyRulesAppend(s: string, xs: seq<Rule>, ys: seq<Rule>)
    requires ValidRules(xs) && ValidRules(ys)
    ensures ValidRules(xs + ys)
    ensures ApplyRules(s, xs + ys) == ApplyRules(ApplyRules(s, xs), ys)
    decreases |xs|
  {
    if xs == [] {
      assert xs + ys == ys;
    } else {
      assert (xs + ys)[1..] == xs[1..] + ys;
      ApplyRulesAppend(ReplaceAll(s, xs[0].pattern, xs[0].value), xs[1..], ys);
    }
  }

  /** Applying a table is applying its first `k` rules, then the rest. */
  lemma ApplyRulesSplitAt(s: string, rules: seq<Rule>, k: nat)
    requires ValidRules(rules) && k <= |rules|
    ensures ApplyRules(s, rules) == ApplyRules(ApplyRules(s, rules[..k]), rules[k..])
  {
    assert rules == rules[..k] + rules[k..];
    ApplyRulesAppend(s, rules[..k], rules[k..]);
  }

  /** A text in which no pattern of the table occurs comes out unchanged. */
  lemma {:induction false} ApplyRulesNoMatch(s: string, rules: seq<Rule>)
    requires ValidRules(rules)
    requires forall i :: 0 <= i < |rules| ==> NoMatch(s, rules[i].pattern)
    ensures ApplyRules(s, rules) == s
    decreases |rules|
  {
    if rules != [] {
      ReplaceNoMatch(s, rules[0].pattern, rules[0].value);
      ApplyRulesNoMatch(s, rules[1..]);
    }
  }

  /**
   * A placeholder `t` that no rule names passes through verbatim, and the text on either side
   * of it is rewritten as if `t` were not there; no condition on the values is needed.
   */
  lemma {:induction false} ApplyRulesKeepToken(a: string, t: string, b: string, rules: seq<Rule>)
    requires IsPlaceholder(t) && ValidRules(rules) && PlaceholderRulesAvoid(rules, t)
    ensures ApplyRules(a + t + b, rules) == ApplyRules(a, rules) + t + ApplyRules(b, rules)
    decreases |rules|
  {
    if rules != [] {
      ReplaceKeepsToken(a, t, b, rules[0].pattern, rules[0].value);
      ApplyRulesKeepToken(ReplaceAll(a, rules[0].pattern, rules[0].value), t,
                          ReplaceAll(b, rules[0].pattern, rules[0].value), rules[1..]);
    }
  }

  // ---------------------------------------------------------------------------------------
  // Tables keyed by field name, as both field maps are written

  /** One entry `key: value` of a field map; its pattern is `{{key}}`. */
  datatype Field = Field(key: string, value: string)

  /** The replacement table of a field map, in the map's insertion order. */
  function KeyRules(fields: seq<Field>): (rules: seq<Rule>)
    ensures |rules| == |fields|
    ensures forall i :: 0 <= i < |fields| ==> rules[i] == Rule(Brace(fields[i].key), fields[i].value)
    ensures ValidRules(rules)
  {
    seq(|fields|, i requires 0 <= i < |fields| => Rule(Brace(fields[i].key), fields[i].value))
  }

  /**
   * `for (const [key, value] of Object.entries(fieldMap)) text = text.replace(new RegExp(`{{${key}}}`,
   * 'gi'), value)`: each entry rewrites the text the entries before it produced.
   */
  method ReplaceFields(text: string, fields: seq<Field>) returns (processed: string)
    ensures processed == ApplyRules(text, KeyRules(fields))
  {
    processed := text;
    ghost var rules := KeyRules(fields);
    for i := 0 to |fields|
      invariant ApplyRules(processed, rules[i..]) == ApplyRules(text, rules)
    {
      assert rules[i..][0] == Rule(Brace(fields[i].key), fields[i].value);
      assert rules[i..][1..] == rules[i + 1..];
      processed := ReplaceAll(processed, Brace(fields[i].key), fields[i].value);
    }
    assert rules[|fields|..] == [];
  }

  predicate KeyChar(c: char) {
    'a' <= c <= 'z' || c == '_'
  }

  /** A field name as both field maps write them: lower-case letters and `_`. */
  predicate LowerKey(k: string) {
    |k| > 0 && forall i :: 0 <= i < |k| ==> KeyChar(k[i])
  }

  /** Folding the case of `{{key}}` folds the key and leaves the braces alone. */
  lemma LowerBrace(k: string)
    ensures Lower(Brace(k)) == Brace(Lower(k))
  {
    assert Lower(Brace(k)) == Lower("{{") + Lower(k) + Lower("}}") by {
      LowerAppend("{{" + k, "}}");
      LowerAppend("{{", k);
    }
  }

  /**
   * The rule table of a field map with lower-case keys: every pattern is a placeholder already
   * in lower case, and two entries with different keys have patterns that differ up to case,
   * so no rule matches another's placeholder.
   */
  lemma KeyRulesArePlaceholders(fields: seq<Field>)
    requires forall i :: 0 <= i < |fields| ==> LowerKey(fields[i].key)
    ensures forall i :: 0 <= i < |fields| ==>
              IsPlaceholder(KeyRules(fields)[i].pattern) && Lower(KeyRules(fields)[i].pattern) == KeyRules(fields)[i].pattern
    ensures forall i, j :: 0 <= i < |fields| && 0 <= j < |fields| && fields[i].key != fields[j].key ==>
              Lower(KeyRules(fields)[i].pattern) != Lower(KeyRules(fields)[j].pattern)
  {
    var rules := KeyRules(fields);
    forall i | 0 <= i < |fields|
      ensures IsPlaceholder(rules[i].pattern) && Lower(rules[i].pattern) == rules[i].pattern
    {
      LowerKeyFolded(fields[i].key);
    }
    forall i, j | 0 <= i < |fields| && 0 <= j < |fields| && fields[i].key != fields[j].key
      ensures Lower(rules[i].pattern) != Lower(rules[j].pattern)
    {
      LowerKeyFolded(fields[i].key);
      LowerKeyFolded(fields[j].key);
      assert rules[i].pattern[2..|rules[i].pattern| - 2] != rules[j].pattern[2..|rules[j].pattern| - 2];
    }
  }

  /** `{{key}}` of a lower-case key is a placeholder that case folding leaves alone. */
  lemma LowerKeyFolded(k: string)
    requires LowerKey(k)
    ensures IsPlaceholder(Brace(k)) && Lower(Brace(k)) == Brace(k)
  {
    LowerBrace(k);
    assert Lower(k) == k;
    assert Brace(k)[2..|Brace(k)| - 2] == k;
  }

  /** A text without braces contains no case variant of any placeholder. */
  lemma BraceFreeNoMatch(s: string, p: string)
    requires BraceFree(s) && IsPlaceholder(p)
    ensures NoMatch(s, p)
  {
    forall i | 0 <= i < |s| ensures !MatchAt(s, i, p) {
      if i + |p| <= |s| {
        MatchAtChars(s, i, p, 0);
      }
    }
  }

  /**
   * A placeholder whose key, up to case, is the name of no field of a lower-case field map
   * passes through the substitution verbatim, and the text around it is substituted as if it
   * were not there; nothing is required of the values.
   */
  lemma UnknownPlaceholderSurvives(a: string, key: string, b: string, fields: seq<Field>)
    requires BraceFree(key)
    requires forall i :: 0 <= i < |fields| ==> LowerKey(fields[i].key) && fields[i].key != Lower(key)
    ensures ApplyRules(a + Brace(key) + b, KeyRules(fields))
         == ApplyRules(a, KeyRules(fields)) + Brace(key) + ApplyRules(b, KeyRules(fields))
  {
    var rules := KeyRules(fields);
    LowerBrace(key);
    assert IsPlaceholder(Brace(key)) by {
      assert Brace(key)[2..|Brace(key)| - 2] == key;
    }
    forall i | 0 <= i < |rules|
      ensures IsPlaceholder(rules[i].pattern) && Lower(rules[i].pattern) != Lower(Brace(key))
    {
      var k := fields[i].key;
      LowerBrace(k);
      assert Lower(k) == k;
      assert Brace(k)[2..|Brace(k)| - 2] == k;
      assert Brace(Lower(key))[2..|Brace(Lower(key))| - 2] == Lower(key);
    }
    ApplyRulesKeepToken(a, Brace(key), b, rules);
  }
}
