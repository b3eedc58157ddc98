/**
  The handful of Python `str` operations the modelled code relies on:
  `startswith`, `in`, `replace`, `split` on one character, `join`,
  ASCII `upper` and the decimal subset of `float(...)`.
 */
module Strings {
  import opened Wrappers

  /** `s.startswith(p)` */
  predicate StartsWith(s: string, p: string) {
    |p| <= |s| && s[..|p|] == p
  }

  /** `p in s` for strings: `p` occurs somewhere in `s`. */
  predicate Contains(s: string, p: string)
    decreases |s|
  {
    StartsWith(s, p) || (|s| > 0 && Contains(s[1..], p))
  }

  /** `s.replace(pat, rep)`: every non-overlapping occurrence of `pat`,
      scanning from the left, is replaced by `rep`. */
  function ReplaceAll(s: string, pat: string, rep: string): string
    requires |pat| > 0
    decreases |s|
  {
    if |s| == 0 then ""
    else if StartsWith(s, pat) then rep + ReplaceAll(s[|pat|..], pat, rep)
    else [s[0]] + ReplaceAll(s[1..], pat, rep)
  }

  /** A string in which `pat` does not occur is left as it is by `replace`. */
  lemma {:induction false} ReplaceAllAbsent(s: string, pat: string, rep: string)
    requires |pat| > 0
    requires !Contains(s, pat)
    ensures ReplaceAll(s, pat, rep) == s
    decreases |s|
  {
    if |s| > 0 {
      ReplaceAllAbsent(s[1..], pat, rep);
    }
  }

  /** An occurrence at the front is replaced, and the scan resumes after it. */
  lemma ReplaceAllAtPattern(pat: string, rest: string, rep: string)
    requires |pat| > 0
    ensures ReplaceAll(pat + rest, pat, rep) == rep + ReplaceAll(rest, pat, rep)
  {
    assert StartsWith(pat + rest, pat);
    assert (pat + rest)[|pat|..] == rest;
  }

  /** A character that cannot start the pattern is kept and the scan moves on. */
  lemma ReplaceAllPastChar(c: char, rest: string, pat: string, rep: string)
    requires |pat| > 0 && pat[0] != c
    ensures ReplaceAll([c] + rest, pat, rep) == [c] + ReplaceAll(rest, pat, rep)
  {
    assert !StartsWith([c] + rest, pat);
    assert ([c] + rest)[1..] == rest;
  }

  /** `replace` introduces no character that neither `s` nor `rep` holds. */
  lemma {:induction false} ReplaceAllKeepsCharOut(s: string, pat: string, rep: string, c: char)
    requires |pat| > 0
    requires c !in s && c !in rep
    ensures c !in ReplaceAll(s, pat, rep)
    decreases |s|
  {
    if |s| > 0 {
      if StartsWith(s, pat) {
        assert forall k :: 0 <= k < |s[|pat|..]| ==> s[|pat|..][k] == s[|pat| + k];
        ReplaceAllKeepsCharOut(s[|pat|..], pat, rep, c);
      } else {
        assert forall k :: 0 <= k < |s[1..]| ==> s[1..][k] == s[1 + k];
        ReplaceAllKeepsCharOut(s[1..], pat, rep, c);
      }
    }
  }

  /** `s` with every `c` removed, the rest in order. */
  function Without(s: string, c: char): (r: string)
    ensures |r| <= |s|
    ensures forall x :: x in r <==> x in s && x != c
  {
    if s == [] then []
    else (if s[0] == c then [] else [s[0]]) + Without(s[1..], c)
  }

  /** Replacing a one-character pattern by nothing removes that character. */
  lemma {:induction false} ReplaceAllDeletesChar(s: string, c: char)
    ensures ReplaceAll(s, [c], "") == Without(s, c)
    decreases |s|
  {
    if |s| > 0 {
      ReplaceAllDeletesChar(s[1..], c);
      assert s[..1] == [s[0]];
      assert StartsWith(s, [c]) <==> s[0] == c;
    }
  }

  /** `s.split(sep)` with an explicit one-character separator: the pieces
      between separators, empty pieces included; never an empty list. */
  function Split(s: string, sep: char): (r: seq<string>)
    ensures |r| >= 1
  {
    if s == [] then [""]
    else
      var rest := Split(s[1..], sep);
      if s[0] == sep then [""] + rest else [[s[0]] + rest[0]] + rest[1..]
  }

  /** `sep.join(ts)` */
  function Join(ts: seq<string>, sep: string): string {
    if |ts| == 0 then ""
    else if |ts| == 1 then ts[0]
    else ts[0] + sep + Join(ts[1..], sep)
  }

  /** Joining the pieces of a split gives the string back. */
  lemma {:induction false} JoinSplit(s: string, sep: char)
    ensures Join(Split(s, sep), [sep]) == s
  {
    if s != [] {
      var rest := Split(s[1..], sep);
      JoinSplit(s[1..], sep);
      if s[0] == sep {
        assert Split(s, sep) == [""] + rest;
        assert ([""] + rest)[1..] == rest;
      } else {
        var r := Split(s, sep);
        assert r == [[s[0]] + rest[0]] + rest[1..];
        if |rest| == 1 {
          assert Join(r, [sep]) == [s[0]] + rest[0];
        } else {
          assert r[1..] == rest[1..];
          assert Join(rest, [sep]) == rest[0] + [sep] + Join(rest[1..], [sep]);
          assert Join(r, [sep]) == [s[0]] + rest[0] + [sep] + Join(rest[1..], [sep]);
        }
      }
    }
  }

  /** No piece of a split holds the separator. */
  lemma {:induction false} SplitPiecesHaveNoSep(s: string, sep: char)
    ensures forall k :: 0 <= k < |Split(s, sep)| ==> sep !in Split(s, sep)[k]
  {
    if s != [] {
      SplitPiecesHaveNoSep(s[1..], sep);
    }
  }

  /** Every character of every piece of a split is a character of the string. */
  lemma {:induction false} SplitPiecesFromString(s: string, sep: char)
    ensures forall k, c :: 0 <= k < |Split(s, sep)| && c in Split(s, sep)[k] ==> c in s
  {
    if s != [] {
      SplitPiecesFromString(s[1..], sep);
      var rest := Split(s[1..], sep);
      forall k, c | 0 <= k < |Split(s, sep)| && c in Split(s, sep)[k]
        ensures c in s
      {
        if s[0] != sep && k == 0 {
          assert c in [s[0]] + rest[0];
          assert c == s[0] || c in rest[0];
        } else if s[0] == sep {
          assert Split(s, sep)[k] == ([""] + rest)[k];
          if k > 0 { assert Split(s, sep)[k] == rest[k - 1]; }
        } else {
          assert Split(s, sep)[k] == rest[k];
        }
        assert c in s[1..] || c == s[0];
      }
    }
  }

  /** Splitting `t + u` where `t` holds no separator glues `t` onto the
      first piece of `u`. */
  lemma {:induction false} SplitPrefixWithoutSep(t: string, u: string, sep: char)
    requires sep !in t
    ensures Split(t + u, sep) == [t + Split(u, sep)[0]] + Split(u, sep)[1..]
    decreases |t|
  {
    if t != [] {
      assert (t + u)[1..] == t[1..] + u;
      assert (t + u)[0] == t[0];
      SplitPrefixWithoutSep(t[1..], u, sep);
      assert [t[0]] + (t[1..] + Split(u, sep)[0]) == t + Split(u, sep)[0];
    } else {
      assert t + u == u;
      assert t + Split(u, sep)[0] == Split(u, sep)[0];
      assert Split(u, sep) == [Split(u, sep)[0]] + Split(u, sep)[1..];
    }
  }

  /** Splitting a join of pieces that hold no separator gives the pieces back. */
  lemma {:induction false} SplitJoin(ts: seq<string>, sep: char)
    requires |ts| >= 1
    requires forall k :: 0 <= k < |ts| ==> sep !in ts[k]
    ensures Split(Join(ts, [sep]), sep) == ts
  {
    if |ts| == 1 {
      SplitPrefixWithoutSep(ts[0], "", sep);
      assert ts[0] + "" == ts[0];
    } else {
      SplitJoin(ts[1..], sep);
      var j := Join(ts[1..], [sep]);
      assert Join(ts, [sep]) == ts[0] + ([sep] + j);
      SplitPrefixWithoutSep(ts[0], [sep] + j, sep);
      assert ([sep] + j)[1..] == j;
      assert Split([sep] + j, sep) == [""] + Split(j, sep);
      assert ts[0] + "" == ts[0];
    }
  }

  /** ASCII part of Python's `str.upper`: 'a'..'z' become 'A'..'Z'. */
  function UpperChar(c: char): (u: char)
    ensures 'a' <= c <= 'z' ==> 'A' <= u <= 'Z' && u as int - 'A' as int == c as int - 'a' as int
    ensures !('a' <= c <= 'z') ==> u == c
  {
    if 'a' <= c <= 'z' then (c as int - 32) as char else c
  }

  /** `s.upper()`, restricted to ASCII letters. */
  function Upper(s: string): string {
    seq(|s|, i requires 0 <= i < |s| => UpperChar(s[i]))
  }

  predicate IsDigit(c: char) {
    '0' <= c <= '9'
  }

  predicate AllDigits(s: string) {
    forall i :: 0 <= i < |s| ==> IsDigit(s[i])
  }

  /** The value of a string of decimal digits. */
  function DigitsValue(s: string): nat
    requires AllDigits(s)
  {
    if s == [] then 0
    else DigitsValue(s[..|s| - 1]) * 10 + (s[|s| - 1] as int - '0' as int)
  }

  function Pow10(n: nat): (p: nat)
    ensures p >= 1
  {
    if n == 0 then 1 else 10 * Pow10(n - 1)
  }

  /** Digits with at most one '.', and at least one digit overall. */
  function ParseUnsigned(s: string): Option<real> {
    var parts := Split(s, '.');
    if |parts| == 1 then
      if parts[0] != "" && AllDigits(parts[0]) then Some(DigitsValue(parts[0]) as real) else None
    else if |parts| == 2 && AllDigits(parts[0]) && AllDigits(parts[1]) && (parts[0] != "" || parts[1] != "") then
      Some(DigitsValue(parts[0]) as real + DigitsValue(parts[1]) as real / Pow10(|parts[1]|) as real)
    else
      None
  }

  /** `float(s)` for strings of the form [+|-] digits [. digits], such as
      "0.08", ".08", "-3" or "5."; `None` stands for Python's ValueError. */
  function ParseDecimal(s: string): Option<real> {
    if |s| > 0 && s[0] == '-' then
      match ParseUnsigned(s[1..])
      case Some(x) => Some(-x)
      case None => None
    else if |s| > 0 && s[0] == '+' then ParseUnsigned(s[1..])
    else ParseUnsigned(s)
  }

  /** Every accepted string holds a digit, so a string without digits
      (such as "abc") is a ValueError. */
  lemma {:induction false} ParseUnsignedNeedsDigit(s: string)
    requires forall i :: 0 <= i < |s| ==> !IsDigit(s[i])
    ensures ParseUnsigned(s) == None
  {
    var parts := Split(s, '.');
    SplitPiecesFromString(s, '.');
    forall k | 0 <= k < |parts| && parts[k] != ""
      ensures !AllDigits(parts[k])
    {
      var c := parts[k][0];
      assert c in parts[k];
      assert c in s;
      assert !IsDigit(c);
    }
  }

  lemma ParseDecimalNeedsDigit(s: string)
    requires forall i :: 0 <= i < |s| ==> !IsDigit(s[i])
    ensures ParseDecimal(s) == None
  {
    if |s| > 0 && (s[0] == '-' || s[0] == '+') {
      ParseUnsignedNeedsDigit(s[1..]);
    } else {
      ParseUnsignedNeedsDigit(s);
    }
  }

}
