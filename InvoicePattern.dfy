/**
 The invoice-number pattern of `parse_invoice_text`,

     invoice\s*(?:#|no\.?|number)?\s*[:#]?\s*(\S+)      (case-insensitive)

 written as a backtracking matcher over a character sequence. Each piece of
 the pattern yields the positions where it may end, in the order Python's
 `re` engine tries them: a greedy `\s*` tries its longest run first, an
 optional piece tries to match before it tries to match nothing, and `no\.?`
 tries `no.` before `no`. `FirstOf` takes the first position from which the
 rest of the pattern succeeds, which is exactly how the engine backtracks.
 `Search` is `re.search`: the leftmost starting position that matches.
 */
module InvoicePattern {
  import opened Wrappers
  import opened PyText

  /** Capture group 1 as the half-open index range [start, end) of the line. */
  datatype Span = Span(start: nat, end: nat)

  const Keyword: string := "invoice"

  /** `[:#]`. */
  predicate IsSeparator(c: char) {
    c == ':' || c == '#'
  }

  /** The end of the run of whitespace that starts at `i`. */
  function SpaceEnd(s: string, i: nat): (j: nat)
    ensures i <= j
    ensures i <= |s| ==> j <= |s| && (j < |s| ==> !IsSpace(s[j]))
    ensures i > |s| ==> j == i
    decreases |s| - i
  {
    if i < |s| && IsSpace(s[i]) then SpaceEnd(s, i + 1) else i
  }

  /** The end of the run of non-whitespace that starts at `i`. */
  function WordEnd(s: string, i: nat): (j: nat)
    ensures i <= j
    ensures i <= |s| ==> j <= |s| && (j < |s| ==> IsSpace(s[j]))
    ensures i > |s| ==> j == i
    decreases |s| - i
  {
    if i < |s| && !IsSpace(s[i]) then WordEnd(s, i + 1) else i
  }

  /** Everything `SpaceEnd` skips is whitespace. */
  lemma {:induction false} SpaceEndRun(s: string, i: nat)
    ensures forall k :: i <= k < SpaceEnd(s, i) ==> IsSpace(s[k])
    decreases |s| - i
  {
    if i < |s| && IsSpace(s[i]) {
      SpaceEndRun(s, i + 1);
    }
  }

  /** Everything `WordEnd` skips is non-whitespace. */
  lemma {:induction false} WordEndRun(s: string, i: nat)
    ensures forall k :: i <= k < WordEnd(s, i) ==> !IsSpace(s[k])
    decreases |s| - i
  {
    if i < |s| && !IsSpace(s[i]) {
      WordEndRun(s, i + 1);
    }
  }

  /** The positions `hi, hi - 1, ..., lo`, greediest first. */
  function Descending(hi: nat, lo: nat): (d: seq<nat>)
    requires lo <= hi
    ensures |d| == hi - lo + 1
    decreases hi - lo
  {
    if hi == lo then [lo] else [hi] + Descending(hi - 1, lo)
  }

  /** `Descending(hi, lo)` counts down from `hi` one step at a time. */
  lemma {:induction false} DescendingAt(hi: nat, lo: nat)
    requires lo <= hi
    ensures forall k :: 0 <= k < |Descending(hi, lo)| ==> Descending(hi, lo)[k] == hi - k
    decreases hi - lo
  {
    if hi != lo {
      DescendingAt(hi - 1, lo);
    }
  }

  /** `\s*` from `i`: every end of a whitespace run from `i`, longest first. */
  function Spaces(s: string, i: nat): seq<nat> {
    Descending(SpaceEnd(s, i), i)
  }

  /** `(?:#|no\.?|number)?` from `i`: the alternatives in order, then nothing. */
  function Prefix(s: string, i: nat): seq<nat> {
    (if LiteralAt(s, i, "#") then [i + 1] else [])
    + (if LiteralAt(s, i, "no") then (if LiteralAt(s, i + 2, ".") then [i + 3, i + 2] else [i + 2]) else [])
    + (if LiteralAt(s, i, "number") then [i + 6] else [])
    + [i]
  }

  /** `[:#]?` from `i`: the separator if there is one, then nothing. */
  function Separator(s: string, i: nat): seq<nat> {
    if i < |s| && IsSeparator(s[i]) then [i + 1, i] else [i]
  }

  /** `(\S+)` from `i`: the greedy run of non-whitespace, which needs one character. */
  function Capture(s: string, i: nat): Option<Span> {
    if i < |s| && !IsSpace(s[i]) then Some(Span(i, WordEnd(s, i))) else None
  }

  /** The first candidate end position from which the rest of the pattern, `rest`, matches. */
  function FirstOf(cands: seq<nat>, rest: nat -> Option<Span>): Option<Span> {
    if cands == [] then None
    else if rest(cands[0]).Some? then rest(cands[0])
    else FirstOf(cands[1..], rest)
  }

  /** `\s*(\S+)` from `i`. */
  function AfterSeparator(s: string, i: nat): Option<Span> {
    FirstOf(Spaces(s, i), (e: nat) => Capture(s, e))
  }

  /** `[:#]?\s*(\S+)` from `i`. */
  function AfterSpaces(s: string, i: nat): Option<Span> {
    FirstOf(Separator(s, i), (d: nat) => AfterSeparator(s, d))
  }

  /** `\s*[:#]?\s*(\S+)` from `i`. */
  function AfterPrefix(s: string, i: nat): Option<Span> {
    FirstOf(Spaces(s, i), (c: nat) => AfterSpaces(s, c))
  }

  /** `(?:#|no\.?|number)?\s*[:#]?\s*(\S+)` from `i`. */
  function AfterKeywordSpaces(s: string, i: nat): Option<Span> {
    FirstOf(Prefix(s, i), (b: nat) => AfterPrefix(s, b))
  }

  /** Everything after the literal `invoice`, from `i`. */
  function AfterKeyword(s: string, i: nat): Option<Span> {
    FirstOf(Spaces(s, i), (a: nat) => AfterKeywordSpaces(s, a))
  }

  /** `re.search` from position `p` on: the group of the leftmost match. */
  function SearchFrom(s: string, p: nat): Option<Span>
    decreases |s| - p
  {
    if p + |Keyword| > |s| then None
    else if LiteralAt(s, p, Keyword) && AfterKeyword(s, p + |Keyword|).Some? then AfterKeyword(s, p + |Keyword|)
    else SearchFrom(s, p + 1)
  }

  /** `invoice_pattern.search(s)`, reduced to where group 1 lies. */
  function Search(s: string): Option<Span> {
    SearchFrom(s, 0)
  }

  // ---------------------------------------------------------------------------
  // A deterministic description of the same match
  // ---------------------------------------------------------------------------

  /** Some non-whitespace character is left at or after `i`. */
  predicate Leaves(s: string, i: nat) {
    SpaceEnd(s, i) < |s|
  }

  /** `g` spans a maximal run of non-whitespace characters of `s`: it is not
      empty, holds no whitespace and is followed by whitespace or the end. */
  predicate IsToken(s: string, g: Span) {
    && g.start < g.end <= |s|
    && (forall k :: g.start <= k < g.end ==> !IsSpace(s[k]))
    && (g.end == |s| || IsSpace(s[g.end]))
  }

  /** The token, i.e. the maximal non-whitespace run, that starts at `i`. */
  function Word(s: string, i: nat): Span {
    Span(i, WordEnd(s, i))
  }

  /** Where the optional prefix ends when the match goes on from `a`: the
      longest of `#`, `no.`, `no`, `number` that still leaves a non-whitespace
      character after it, and no prefix at all otherwise. */
  function PrefixEnd(s: string, a: nat): (b: nat)
    requires a < |s| && !IsSpace(s[a])
    ensures a <= b && Leaves(s, b)
  {
    if LiteralAt(s, a, "#") && Leaves(s, a + 1) then a + 1
    else if LiteralAt(s, a, "no") && LiteralAt(s, a + 2, ".") && Leaves(s, a + 3) then a + 3
    else if LiteralAt(s, a, "no") && Leaves(s, a + 2) then a + 2
    else if LiteralAt(s, a, "number") && Leaves(s, a + 6) then a + 6
    else a
  }

  /** The group of a match that starts after the keyword at `i`, described
      without backtracking: whitespace is always skipped in full; the prefix
      ends at `PrefixEnd`; a `:` or `#` after it is consumed only when a
      non-whitespace character follows, otherwise it becomes the token's first
      character. There is a match exactly when something other than
      whitespace follows `i`. */
  function Reference(s: string, i: nat): Option<Span> {
    var a := SpaceEnd(s, i);
    if a >= |s| then None
    else
      var c := SpaceEnd(s, PrefixEnd(s, a));
      if IsSeparator(s[c]) && Leaves(s, c + 1) then Some(Word(s, SpaceEnd(s, c + 1)))
      else Some(Word(s, c))
  }

  // ---------------------------------------------------------------------------
  // Lemmas
  // ---------------------------------------------------------------------------

  /** The deterministic description yields a group exactly when a
      non-whitespace character follows `i`, and the group is a whole token
      after `i`. */
  lemma ReferenceShape(s: string, i: nat)
    ensures Reference(s, i).Some? <==> Leaves(s, i)
    ensures Reference(s, i).Some? ==> IsToken(s, Reference(s, i).value) && i <= Reference(s, i).value.start
  {
    var a := SpaceEnd(s, i);
    if a < |s| {
      var c := SpaceEnd(s, PrefixEnd(s, a));
      if IsSeparator(s[c]) && Leaves(s, c + 1) {
        WordEndRun(s, SpaceEnd(s, c + 1));
      } else {
        WordEndRun(s, c);
      }
    }
  }

  /** `FirstOf` is `None` when every candidate fails. */
  lemma {:induction false} FirstOfNone(cands: seq<nat>, rest: nat -> Option<Span>)
    requires forall k :: 0 <= k < |cands| ==> rest(cands[k]).None?
    ensures FirstOf(cands, rest).None?
  {
    if cands != [] {
      FirstOfNone(cands[1..], rest);
    }
  }

  /** `FirstOf` on a non-empty list of candidates tries the first one, then the others. */
  lemma FirstOfCons(x: nat, tail: seq<nat>, rest: nat -> Option<Span>)
    ensures FirstOf([x] + tail, rest) == if rest(x).Some? then rest(x) else FirstOf(tail, rest)
  {
    assert ([x] + tail)[1..] == tail;
  }

  /** Inside a whitespace run, the run ends where it ends from its start. */
  lemma {:induction false} SpaceEndInside(s: string, i: nat, k: nat)
    requires i <= k <= SpaceEnd(s, i)
    ensures SpaceEnd(s, k) == SpaceEnd(s, i)
    decreases |s| - i
  {
    if i < k {
      SpaceEndInside(s, i + 1, k);
    }
  }

  /** `\s*(\S+)` takes the whole whitespace run, then the token after it. */
  lemma AfterSeparatorIs(s: string, i: nat)
    ensures AfterSeparator(s, i) == if Leaves(s, i) then Some(Word(s, SpaceEnd(s, i))) else None
  {
    var d := Spaces(s, i);
    if !Leaves(s, i) {
      SpaceEndRun(s, i);
      DescendingAt(SpaceEnd(s, i), i);
      forall k | 0 <= k < |d| ensures Capture(s, d[k]).None? {
      }
      FirstOfNone(d, (e: nat) => Capture(s, e));
    }
  }

  /** `[:#]?\s*(\S+)` consumes a separator only when a token follows it. */
  lemma AfterSpacesIs(s: string, i: nat)
    ensures AfterSpaces(s, i) ==
      if i < |s| && IsSeparator(s[i]) && Leaves(s, i + 1) then Some(Word(s, SpaceEnd(s, i + 1)))
      else if Leaves(s, i) then Some(Word(s, SpaceEnd(s, i)))
      else None
  {
    AfterSeparatorIs(s, i);
    if i < |s| && IsSeparator(s[i]) {
      AfterSeparatorIs(s, i + 1);
      assert Separator(s, i) == [i + 1] + [i];
      FirstOfCons(i + 1, [i], (d: nat) => AfterSeparator(s, d));
      FirstOfCons(i, [], (d: nat) => AfterSeparator(s, d));
    } else {
      assert Separator(s, i) == [i] + [];
      FirstOfCons(i, [], (d: nat) => AfterSeparator(s, d));
    }
  }

  /** After the prefix, `\s*` never needs to give back whitespace. */
  lemma AfterPrefixIs(s: string, i: nat)
    ensures AfterPrefix(s, i) == AfterSpaces(s, SpaceEnd(s, i))
  {
    var c0 := SpaceEnd(s, i);
    var d := Spaces(s, i);
    AfterSpacesIs(s, c0);
    if !Leaves(s, i) {
      assert !Leaves(s, c0) by { SpaceEndInside(s, i, c0); }
      DescendingAt(c0, i);
      forall k | 0 <= k < |d| ensures AfterSpaces(s, d[k]).None? {
        SpaceEndInside(s, i, d[k]);
        AfterSpacesIs(s, d[k]);
      }
      FirstOfNone(d, (c: nat) => AfterSpaces(s, c));
    } else {
      SpaceEndInside(s, i, c0);
    }
  }

  /** The rest of the pattern matches after the prefix exactly when a token is left. */
  lemma AfterPrefixSome(s: string, b: nat)
    ensures AfterPrefix(s, b).Some? == Leaves(s, b)
  {
    AfterPrefixIs(s, b);
    SpaceEndInside(s, b, SpaceEnd(s, b));
    AfterSpacesIs(s, SpaceEnd(s, b));
  }

  /** The candidate ends of the optional prefix at a non-whitespace position:
      at most one alternative applies, since they differ in their first two
      characters. */
  lemma PrefixCases(s: string, a: nat)
    requires a < |s| && !IsSpace(s[a])
    ensures LiteralAt(s, a, "#") ==> Prefix(s, a) == [a + 1] + [a]
    ensures LiteralAt(s, a, "no") && LiteralAt(s, a + 2, ".") ==> Prefix(s, a) == [a + 3] + ([a + 2] + [a]) && Leaves(s, a + 2)
    ensures LiteralAt(s, a, "no") && !LiteralAt(s, a + 2, ".") ==> Prefix(s, a) == [a + 2] + [a]
    ensures LiteralAt(s, a, "number") ==> Prefix(s, a) == [a + 6] + [a]
    ensures !LiteralAt(s, a, "#") && !LiteralAt(s, a, "no") && !LiteralAt(s, a, "number") ==> Prefix(s, a) == [a] + []
  {
    var h := LiteralAt(s, a, "#");
    var n := LiteralAt(s, a, "no");
    var u := LiteralAt(s, a, "number");
  }

  /** The prefix alternatives are tried in order until one leaves a token. */
  lemma AfterKeywordSpacesIs(s: string, a: nat)
    requires a < |s| && !IsSpace(s[a])
    ensures AfterKeywordSpaces(s, a) == AfterPrefix(s, PrefixEnd(s, a))
  {
    var rest := (b: nat) => AfterPrefix(s, b);
    PrefixCases(s, a);
    FirstOfCons(a, [], rest);
    if LiteralAt(s, a, "#") {
      AfterKeywordSpacesHash(s, a);
    } else if LiteralAt(s, a, "no") {
      if LiteralAt(s, a + 2, ".") {
        AfterKeywordSpacesNoDot(s, a);
      } else {
        FirstOfCons(a + 2, [a], rest);
        AfterPrefixSome(s, a + 2);
        assert PrefixEnd(s, a) == if Leaves(s, a + 2) then a + 2 else a;
      }
    } else if LiteralAt(s, a, "number") {
      FirstOfCons(a + 6, [a], rest);
      AfterPrefixSome(s, a + 6);
      assert !LiteralAt(s, a, "#");
      assert PrefixEnd(s, a) == if Leaves(s, a + 6) then a + 6 else a;
    } else {
      assert PrefixEnd(s, a) == a;
    }
  }

  lemma AfterKeywordSpacesHash(s: string, a: nat)
    requires a < |s| && !IsSpace(s[a]) && LiteralAt(s, a, "#")
    ensures AfterKeywordSpaces(s, a) == AfterPrefix(s, PrefixEnd(s, a))
  {
    var rest := (b: nat) => AfterPrefix(s, b);
    PrefixCases(s, a);
    FirstOfCons(a, [], rest);
    FirstOfCons(a + 1, [a], rest);
    AfterPrefixSome(s, a + 1);
    assert PrefixEnd(s, a) == if Leaves(s, a + 1) then a + 1 else a;
  }

  lemma AfterKeywordSpacesNoDot(s: string, a: nat)
    requires a < |s| && !IsSpace(s[a]) && LiteralAt(s, a, "no") && LiteralAt(s, a + 2, ".")
    ensures AfterKeywordSpaces(s, a) == AfterPrefix(s, PrefixEnd(s, a))
  {
    var rest := (b: nat) => AfterPrefix(s, b);
    PrefixCases(s, a);
    FirstOfCons(a, [], rest);
    FirstOfCons(a + 3, [a + 2] + [a], rest);
    FirstOfCons(a + 2, [a], rest);
    AfterPrefixSome(s, a + 3);
    AfterPrefixSome(s, a + 2);
    assert !LiteralAt(s, a, "#");
    assert PrefixEnd(s, a) == if Leaves(s, a + 3) then a + 3 else a + 2;
  }

  /** The backtracking matcher and the deterministic description agree. */
  lemma AfterKeywordIsReference(s: string, i: nat)
    ensures AfterKeyword(s, i) == Reference(s, i)
  {
    var a0 := SpaceEnd(s, i);
    var d := Spaces(s, i);
    if a0 < |s| {
      AfterKeywordSpacesIs(s, a0);
      var b := PrefixEnd(s, a0);
      AfterPrefixIs(s, b);
      AfterSpacesIs(s, SpaceEnd(s, b));
    } else {
      SpaceEndRun(s, i);
      DescendingAt(a0, i);
      forall k | 0 <= k < |d| ensures AfterKeywordSpaces(s, d[k]).None? {
        var a := d[k];
        assert a == a0 || IsSpace(s[a]);
        assert Prefix(s, a) == [a] + [];
        FirstOfCons(a, [], (b: nat) => AfterPrefix(s, b));
        SpaceEndInside(s, i, a);
        AfterPrefixIs(s, a);
        AfterSpacesIs(s, SpaceEnd(s, a));
      }
      FirstOfNone(d, (a: nat) => AfterKeywordSpaces(s, a));
    }
  }

  /** The pattern matches at `p`: the keyword stands there and some
      non-whitespace character follows it somewhere. */
  predicate MatchesAt(s: string, p: nat) {
    LiteralAt(s, p, Keyword) && Leaves(s, p + |Keyword|)
  }

  /** The leftmost position at or after `p` where the pattern matches. */
  function LeftmostMatch(s: string, p: nat): Option<nat>
    decreases |s| - p
  {
    if p + |Keyword| > |s| then None
    else if MatchesAt(s, p) then Some(p)
    else LeftmostMatch(s, p + 1)
  }

  /** `LeftmostMatch` finds a match, the first one at or after `p`, exactly
      when there is one. */
  lemma {:induction false} LeftmostMatchIsLeftmost(s: string, p: nat)
    ensures LeftmostMatch(s, p).None? <==> forall r :: p <= r ==> !MatchesAt(s, r)
    ensures LeftmostMatch(s, p).Some? ==>
              var q := LeftmostMatch(s, p).value;
              p <= q && MatchesAt(s, q) && forall r :: p <= r < q ==> !MatchesAt(s, r)
    decreases |s| - p
  {
    if p + |Keyword| > |s| {
      forall r | p <= r
        ensures !MatchesAt(s, r)
      {
        MatchesAtFits(s, r);
      }
      assert LeftmostMatch(s, p) == None;
    } else if MatchesAt(s, p) {
      assert LeftmostMatch(s, p) == Some(p);
    } else {
      LeftmostMatchIsLeftmost(s, p + 1);
      assert LeftmostMatch(s, p) == LeftmostMatch(s, p + 1);
    }
  }

  /** A match leaves room for the keyword and a character after it. */
  lemma MatchesAtFits(s: string, r: nat)
    ensures MatchesAt(s, r) ==> r + |Keyword| < |s|
  {
  }

  /** The group of the match whose keyword stands at `q`, if any. */
  function GroupAt(s: string, q: Option<nat>): Option<Span> {
    match q
    case None => None
    case Some(p) => Reference(s, p + |Keyword|)
  }

  /** `SearchFrom` finds the leftmost position at or after `p` where the
      pattern matches, and the group there is the one `Reference` describes;
      it finds nothing exactly when there is no such position. */
  lemma {:induction false} SearchFromLeftmost(s: string, p: nat)
    ensures SearchFrom(s, p) == GroupAt(s, LeftmostMatch(s, p))
    decreases |s| - p
  {
    if p + |Keyword| <= |s| {
      if MatchesAt(s, p) {
        SearchFromFound(s, p);
      } else {
        SearchFromNext(s, p);
        SearchFromLeftmost(s, p + 1);
        assert LeftmostMatch(s, p) == LeftmostMatch(s, p + 1);
      }
    } else {
      assert LeftmostMatch(s, p) == None;
    }
  }

  lemma SearchFromHere(s: string, p: nat)
    requires MatchesAt(s, p)
    ensures SearchFrom(s, p) == Reference(s, p + |Keyword|)
  {
    var i := p + |Keyword|;
    assert i <= |s|;
    var g := AfterKeyword(s, i);
    assert g == Reference(s, i) && g.Some? by {
      AfterKeywordIsReference(s, i);
      ReferenceShape(s, i);
    }
  }

  /** At a match, the search and the leftmost match agree on the spot. */
  lemma SearchFromFound(s: string, p: nat)
    requires MatchesAt(s, p)
    ensures SearchFrom(s, p) == GroupAt(s, LeftmostMatch(s, p))
  {
    MatchesAtFits(s, p);
    assert LeftmostMatch(s, p) == Some(p);
    assert GroupAt(s, Some(p)) == Reference(s, p + |Keyword|);
    SearchFromHere(s, p);
  }

  lemma SearchFromNext(s: string, p: nat)
    requires p + |Keyword| <= |s| && !MatchesAt(s, p)
    ensures SearchFrom(s, p) == SearchFrom(s, p + 1)
  {
    AfterKeywordIsReference(s, p + |Keyword|);
  }

  /** `re.search` reports the leftmost match: there is a match exactly when the
      keyword is followed, somewhere after it, by a non-whitespace character;
      the group is then a whole token that starts after the first such
      keyword, as `Reference` describes it. */
  lemma SearchIsLeftmost(s: string)
    ensures Search(s).None? <==> forall q :: 0 <= q ==> !MatchesAt(s, q)
    ensures Search(s).Some? <==> LeftmostMatch(s, 0).Some?
    ensures Search(s).Some? ==>
              var q := LeftmostMatch(s, 0).value;
              && MatchesAt(s, q) && (forall r :: 0 <= r < q ==> !MatchesAt(s, r))
              && Search(s) == Reference(s, q + |Keyword|)
              && IsToken(s, Search(s).value) && q + |Keyword| <= Search(s).value.start
  {
    SearchFromLeftmost(s, 0);
    LeftmostMatchIsLeftmost(s, 0);
    if LeftmostMatch(s, 0).Some? {
      ReferenceShape(s, LeftmostMatch(s, 0).value + |Keyword|);
    }
  }

  /** Every group `Search` reports is a whole token of the line. */
  lemma SearchToken(s: string)
    requires Search(s).Some?
    ensures IsToken(s, Search(s).value)
  {
    SearchIsLeftmost(s);
  }

  // ---------------------------------------------------------------------------
  // Case-insensitivity
  // ---------------------------------------------------------------------------

  /** `a` and `b` differ at most in the ASCII case of their letters:
      `a.lower() == b.lower()`. */
  predicate SameUpToCase(a: string, b: string) {
    Lower(a) == Lower(b)
  }

  lemma {:induction false} SpaceEndUpToCase(a: string, b: string, i: nat)
    requires SameUpToCase(a, b)
    ensures SpaceEnd(a, i) == SpaceEnd(b, i)
    decreases |a| - i
  {
    if i < |a| {
      CharUpToCase(a, b, i);
      SpaceEndUpToCase(a, b, i + 1);
    }
  }

  lemma {:induction false} WordEndUpToCase(a: string, b: string, i: nat)
    requires SameUpToCase(a, b)
    ensures WordEnd(a, i) == WordEnd(b, i)
    decreases |a| - i
  {
    if i < |a| {
      CharUpToCase(a, b, i);
      WordEndUpToCase(a, b, i + 1);
    }
  }

  lemma {:induction false} LiteralAtUpToCase(a: string, b: string, i: nat, lit: string)
    requires SameUpToCase(a, b)
    ensures LiteralAt(a, i, lit) == LiteralAt(b, i, lit)
    decreases |lit|
  {
    if lit != [] && i < |a| {
      CharUpToCase(a, b, i);
      LiteralAtUpToCase(a, b, i + 1, lit[1..]);
    }
  }

  lemma PrefixEndUpToCase(a: string, b: string, x: nat)
    requires SameUpToCase(a, b) && x < |a| && !IsSpace(a[x]) && !IsSpace(b[x])
    ensures PrefixEnd(a, x) == PrefixEnd(b, x)
  {
    LiteralAtUpToCase(a, b, x, "#");
    LiteralAtUpToCase(a, b, x, "no");
    LiteralAtUpToCase(a, b, x + 2, ".");
    LiteralAtUpToCase(a, b, x, "number");
    SpaceEndUpToCase(a, b, x + 1);
    SpaceEndUpToCase(a, b, x + 2);
    SpaceEndUpToCase(a, b, x + 3);
    SpaceEndUpToCase(a, b, x + 6);
  }

  lemma CharUpToCase(a: string, b: string, k: nat)
    requires SameUpToCase(a, b) && k < |a|
    ensures LowerChar(a[k]) == LowerChar(b[k])
    ensures IsSpace(a[k]) == IsSpace(b[k]) && IsSeparator(a[k]) == IsSeparator(b[k])
  {
    LowerAt(a, k);
    LowerAt(b, k);
  }

  /** `Reference` depends on the line only through the pieces named here. */
  lemma ReferenceCongruent(a: string, b: string, i: nat, x: nat, c: nat)
    requires |a| == |b| && x == SpaceEnd(a, i) == SpaceEnd(b, i) && x < |a|
    requires !IsSpace(a[x]) && !IsSpace(b[x])
    requires c == SpaceEnd(a, PrefixEnd(a, x)) == SpaceEnd(b, PrefixEnd(b, x))
    requires IsSeparator(a[c]) == IsSeparator(b[c])
    requires SpaceEnd(a, c + 1) == SpaceEnd(b, c + 1)
    requires WordEnd(a, c) == WordEnd(b, c)
    requires WordEnd(a, SpaceEnd(a, c + 1)) == WordEnd(b, SpaceEnd(a, c + 1))
    ensures Reference(a, i) == Reference(b, i)
  {
    var d := SpaceEnd(a, c + 1);
    assert Leaves(a, c + 1) == Leaves(b, c + 1);
    assert Word(a, c) == Word(b, c) && Word(a, d) == Word(b, d);
  }

  lemma ReferenceUpToCase(a: string, b: string, i: nat)
    requires SameUpToCase(a, b)
    ensures Reference(a, i) == Reference(b, i)
  {
    SpaceEndUpToCase(a, b, i);
    var x := SpaceEnd(a, i);
    if x < |a| {
      CharUpToCase(a, b, x);
      PrefixEndUpToCase(a, b, x);
      var pe := PrefixEnd(a, x);
      SpaceEndUpToCase(a, b, pe);
      var c := SpaceEnd(a, pe);
      CharUpToCase(a, b, c);
      SpaceEndUpToCase(a, b, c + 1);
      WordEndUpToCase(a, b, c);
      WordEndUpToCase(a, b, SpaceEnd(a, c + 1));
      ReferenceCongruent(a, b, i, x, c);
    }
  }

  lemma {:induction false} LeftmostMatchUpToCase(a: string, b: string, p: nat)
    requires SameUpToCase(a, b)
    ensures LeftmostMatch(a, p) == LeftmostMatch(b, p)
    decreases |a| - p
  {
    if p + |Keyword| <= |a| {
      LiteralAtUpToCase(a, b, p, Keyword);
      SpaceEndUpToCase(a, b, p + |Keyword|);
      LeftmostMatchUpToCase(a, b, p + 1);
    }
  }

  /** The search ignores ASCII case (`re.IGNORECASE`): two lines that differ
      only in the case of their letters match at the same place, with the
      group at the same place. */
  lemma SearchIgnoresCase(a: string, b: string)
    requires SameUpToCase(a, b)
    ensures Search(a) == Search(b)
  {
    var m := LeftmostMatch(a, 0);
    calc {
      Search(a);
      { SearchFromLeftmost(a, 0); }
      GroupAt(a, m);
      { GroupAtUpToCase(a, b, m); }
      GroupAt(b, m);
      { LeftmostMatchUpToCase(a, b, 0); }
      GroupAt(b, LeftmostMatch(b, 0));
      { SearchFromLeftmost(b, 0); }
      Search(b);
    }
  }

  lemma GroupAtUpToCase(a: string, b: string, m: Option<nat>)
    requires SameUpToCase(a, b)
    ensures GroupAt(a, m) == GroupAt(b, m)
  {
    match m
    case None =>
    case Some(q) => ReferenceUpToCase(a, b, q + |Keyword|);
  }
}
