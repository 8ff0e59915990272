/**
 The Python `str` built-ins the invoice parser and the upload handler rely on,
 restricted to ASCII: `isspace`, `lower`, `strip`, `split(sep)`, the substring
 test `sub in s` and `endswith`.
 */
module PyText {

  /** `c.isspace()` on ASCII: tab, line feed, vertical tab, form feed, carriage
      return (9..13), the information separators 0x1C..0x1F and space (32). The
      `\s` class of Python's `re` module matches the same ASCII characters. */
  predicate IsSpace(c: char) {
    9 <= c as int <= 13 || 28 <= c as int <= 32
  }

  /** ASCII case folding of one character. */
  function LowerChar(c: char): (r: char)
    ensures IsSpace(r) == IsSpace(c)
    ensures !('A' <= r <= 'Z')
  {
    if 'A' <= c <= 'Z' then (c as int + 32) as char else c
  }

  /** `s.lower()` on ASCII. */
  function Lower(s: string): (r: string)
    ensures |r| == |s|
  {
    if s == [] then [] else [LowerChar(s[0])] + Lower(s[1..])
  }

  /** `s.lower()` folds each character on its own. */
  lemma {:induction false} LowerAt(s: string, i: nat)
    requires i < |s|
    ensures Lower(s)[i] == LowerChar(s[i])
  {
    if i > 0 {
      LowerAt(s[1..], i - 1);
    }
  }

  /** Number of whitespace characters at the front of `s`. */
  function LeadingSpaces(s: string): (n: nat)
    ensures n <= |s|
  {
    if s != [] && IsSpace(s[0]) then 1 + LeadingSpaces(s[1..]) else 0
  }

  /** Number of whitespace characters at the back of `s`. */
  function TrailingSpaces(s: string): (n: nat)
    ensures n <= |s|
  {
    if s != [] && IsSpace(s[|s| - 1]) then 1 + TrailingSpaces(s[..|s| - 1]) else 0
  }

  /** `LeadingSpaces` counts the whole whitespace run at the front. */
  lemma {:induction false} LeadingSpacesRun(s: string)
    ensures forall i :: 0 <= i < LeadingSpaces(s) ==> IsSpace(s[i])
    ensures LeadingSpaces(s) < |s| ==> !IsSpace(s[LeadingSpaces(s)])
  {
    if s != [] && IsSpace(s[0]) {
      LeadingSpacesRun(s[1..]);
      assert forall i :: 1 <= i < |s| ==> s[i] == s[1..][i - 1];
    }
  }

  /** `TrailingSpaces` counts the whole whitespace run at the back. */
  lemma {:induction false} TrailingSpacesRun(s: string)
    ensures forall i :: |s| - TrailingSpaces(s) <= i < |s| ==> IsSpace(s[i])
    ensures TrailingSpaces(s) < |s| ==> !IsSpace(s[|s| - 1 - TrailingSpaces(s)])
  {
    if s != [] && IsSpace(s[|s| - 1]) {
      TrailingSpacesRun(s[..|s| - 1]);
    }
  }

  /** `s.strip()`: the slice of `s` between its leading and its trailing
      whitespace (`StripShape` states what that slice is). */
  function Strip(s: string): (r: string)
    ensures |r| <= |s|
  {
    var lo := LeadingSpaces(s);
    var t := s[lo..];
    t[..|t| - TrailingSpaces(t)]
  }

  /** What `strip` removes is whitespace, and what it keeps neither starts
      nor ends with whitespace. */
  lemma StripShape(s: string)
    ensures exists lo, hi ::
              && 0 <= lo <= hi <= |s| && Strip(s) == s[lo..hi]
              && (forall i :: 0 <= i < lo ==> IsSpace(s[i]))
              && (forall i :: hi <= i < |s| ==> IsSpace(s[i]))
    ensures Strip(s) != [] ==> !IsSpace(Strip(s)[0]) && !IsSpace(Strip(s)[|Strip(s)| - 1])
  {
    var lo := LeadingSpaces(s);
    var t := s[lo..];
    var hi := lo + |t| - TrailingSpaces(t);
    LeadingSpacesRun(s);
    TrailingSpacesRun(t);
    assert Strip(s) == s[lo..hi];
    assert forall i :: hi <= i < |s| ==> s[i] == t[i - lo];
  }

  /** `s.split(sep)`: the pieces of `s` between occurrences of `sep`; there is
      always at least one piece, and no piece contains `sep`. */
  function Split(s: string, sep: char): (parts: seq<string>)
    ensures |parts| >= 1
    ensures forall i :: 0 <= i < |parts| ==> sep !in parts[i]
  {
    if s == [] then [[]]
    else
      var rest := Split(s[1..], sep);
      if s[0] == sep then [[]] + rest else [[s[0]] + rest[0]] + rest[1..]
  }

  /** `sep.join(parts)`, the inverse of `Split`. */
  function Join(parts: seq<string>, sep: char): string {
    if parts == [] then []
    else if |parts| == 1 then parts[0]
    else parts[0] + [sep] + Join(parts[1..], sep)
  }

  /** Splitting loses nothing: joining the pieces back gives the input. */
  lemma {:induction false} JoinSplit(s: string, sep: char)
    ensures Join(Split(s, sep), sep) == s
  {
    if s != [] {
      var rest := Split(s[1..], sep);
      JoinSplit(s[1..], sep);
      if s[0] == sep {
        assert Split(s, sep) == [[]] + rest;
        assert ([[]] + rest)[1..] == rest;
      } else {
        var parts := [[s[0]] + rest[0]] + rest[1..];
        assert Split(s, sep) == parts;
        if |rest| == 1 {
          assert parts == [[s[0]] + rest[0]];
          assert s == [s[0]] + s[1..];
        } else {
          assert parts[1..] == rest[1..];
          assert Join(rest, sep) == rest[0] + [sep] + Join(rest[1..], sep);
          assert s == [s[0]] + s[1..];
        }
      }
    }
  }

  /** A string without `sep` splits into itself alone. */
  lemma {:induction false} SplitWithout(s: string, sep: char)
    requires sep !in s
    ensures Split(s, sep) == [s]
  {
    if s != [] {
      SplitWithout(s[1..], sep);
      assert [s[0]] + s[1..] == s;
    }
  }

  /** A piece that ends at the first `sep` comes off the front. */
  lemma {:induction false} SplitFirst(a: string, sep: char, b: string)
    requires sep !in a
    ensures Split(a + [sep] + b, sep) == [a] + Split(b, sep)
  {
    if a == [] {
      assert ([sep] + b)[1..] == b;
    } else {
      SplitFirst(a[1..], sep, b);
      assert (a + [sep] + b)[1..] == a[1..] + [sep] + b;
      assert [a[0]] + a[1..] == a;
    }
  }

  /** `sub` occurs in `s` starting at index `i`. */
  predicate OccursAt(s: string, sub: string, i: int) {
    0 <= i && i + |sub| <= |s| && s[i..i + |sub|] == sub
  }

  /** Python's `sub in s`: `sub` occurs somewhere in `s`. */
  predicate Contains(s: string, sub: string) {
    exists i | 0 <= i <= |s| - |sub| :: OccursAt(s, sub, i)
  }

  /** `lit` stands at position `i` of `s` once `s` is lower-cased: compared
      character by character, ignoring ASCII case. */
  predicate LiteralAt(s: string, i: nat, lit: string)
    decreases |lit|
  {
    lit == [] || (i < |s| && LowerChar(s[i]) == lit[0] && LiteralAt(s, i + 1, lit[1..]))
  }

  /** `lit` stands at some position `p` or later of the lower-cased `s`. */
  predicate LiteralFrom(s: string, lit: string, p: nat)
    decreases |s| - p
  {
    p + |lit| <= |s| && (LiteralAt(s, p, lit) || LiteralFrom(s, lit, p + 1))
  }

  /** Comparing character by character under `LowerChar` is comparing with
      the lower-cased string. */
  lemma {:induction false} LiteralAtLower(s: string, i: nat, lit: string)
    requires i <= |s|
    ensures LiteralAt(s, i, lit) <==> OccursAt(Lower(s), lit, i)
    decreases |lit|
  {
    var low := Lower(s);
    if lit != [] && i < |s| {
      LowerAt(s, i);
      LiteralAtLower(s, i + 1, lit[1..]);
      if i + |lit| <= |s| {
        assert low[i..i + |lit|] == [low[i]] + low[i + 1..i + |lit|];
        assert lit == [lit[0]] + lit[1..];
      }
    }
  }

  /** `lit in s.lower()` is the search for `lit` under `LowerChar`. */
  lemma {:induction false} LiteralFromLower(s: string, lit: string, p: nat)
    requires p <= |s|
    ensures LiteralFrom(s, lit, p) <==> exists i :: p <= i && OccursAt(Lower(s), lit, i)
    decreases |s| - p
  {
    if p + |lit| <= |s| {
      LiteralAtLower(s, p, lit);
      if p < |s| {
        LiteralFromLower(s, lit, p + 1);
      }
      if LiteralAt(s, p, lit) {
        assert OccursAt(Lower(s), lit, p);
      }
    }
  }

  /** The substring test on the lower-cased string, as a case-folding search. */
  lemma ContainsLower(s: string, lit: string)
    ensures Contains(Lower(s), lit) == LiteralFrom(s, lit, 0)
  {
    LiteralFromLower(s, lit, 0);
  }

  /** Where `lit` stands, its `k`-th character stands `k` places further on. */
  lemma {:induction false} LiteralAtChar(s: string, i: nat, lit: string, k: nat)
    requires LiteralAt(s, i, lit) && k < |lit|
    ensures i + k < |s| && LowerChar(s[i + k]) == lit[k]
    decreases |lit|
  {
    if k > 0 {
      LiteralAtChar(s, i + 1, lit[1..], k - 1);
    }
  }

  /** `lit` stands at `i` when each of its characters does. */
  lemma {:induction false} LiteralAtByChars(s: string, i: nat, lit: string)
    requires i + |lit| <= |s| && forall k :: 0 <= k < |lit| ==> LowerChar(s[i + k]) == lit[k]
    ensures LiteralAt(s, i, lit)
    decreases |lit|
  {
    if lit != [] {
      LiteralAtByChars(s, i + 1, lit[1..]);
    }
  }

  /** A word one of whose letters never occurs in `s`, in either case, is not
      found in `s`. */
  lemma {:induction false} LiteralAbsent(s: string, lit: string, k: nat, p: nat)
    requires k < |lit| && forall j :: 0 <= j < |s| ==> LowerChar(s[j]) != lit[k]
    ensures !LiteralFrom(s, lit, p)
    decreases |s| - p
  {
    if p + |lit| <= |s| {
      if LiteralAt(s, p, lit) {
        LiteralAtChar(s, p, lit, k);
      }
      LiteralAbsent(s, lit, k, p + 1);
    }
  }

  /** A word found from `q` on is found from any earlier position. */
  lemma {:induction false} LiteralFromEarlier(s: string, lit: string, p: nat, q: nat)
    requires p <= q && LiteralFrom(s, lit, q)
    ensures LiteralFrom(s, lit, p)
    decreases q - p
  {
    if p < q {
      LiteralFromEarlier(s, lit, p + 1, q);
    }
  }

  /** `strip` leaves a string alone that neither starts nor ends with whitespace. */
  lemma StripUnchanged(s: string)
    requires s != [] ==> !IsSpace(s[0]) && !IsSpace(s[|s| - 1])
    ensures Strip(s) == s
  {
  }

  /** `s.endswith(suffix)`. */
  predicate EndsWith(s: string, suffix: string) {
    |suffix| <= |s| && s[|s| - |suffix|..] == suffix
  }

  /** `s.endswith(suffix)` is an occurrence of `suffix` at the last possible place. */
  lemma EndsWithAt(s: string, suffix: string)
    requires |suffix| <= |s|
    ensures EndsWith(s, suffix) <==> OccursAt(s, suffix, |s| - |suffix|)
  {
  }
}
