/**
 Worked cases of `parse_invoice_text`: what the invoice pattern captures on
 particular lines, and the records two-line texts produce.
 */
module InvoiceExamples {
  import opened Wrappers
  import opened PyText
  import opened InvoicePattern
  import opened InvoiceParser

  /** The first seven characters of `s` spell "invoice" in some mix of case. */
  lemma KeywordAtStart(s: string)
    requires |s| >= 7 && forall i :: 0 <= i < 7 ==> LowerChar(s[i]) == Keyword[i]
    ensures LiteralAt(s, 0, Keyword)
  {
    LiteralAtByChars(s, 0, Keyword);
  }

  /** A run of non-whitespace from `i` that stops at whitespace or at the end
      of the line at `j` is the token from `i`. */
  lemma {:induction false} WordEndIs(s: string, i: nat, j: nat)
    requires i <= j <= |s| && forall k :: i <= k < j ==> !IsSpace(s[k])
    requires j == |s| || IsSpace(s[j])
    ensures WordEnd(s, i) == j
    decreases j - i
  {
    if i < j {
      WordEndIs(s, i + 1, j);
    }
  }

  /** A run of whitespace from `i` that stops at non-whitespace or at the
      end of the line at `j` ends at `j`. */
  lemma {:induction false} SpaceEndIs(s: string, i: nat, j: nat)
    requires i <= j <= |s| && forall k :: i <= k < j ==> IsSpace(s[k])
    requires j == |s| || !IsSpace(s[j])
    ensures SpaceEnd(s, i) == j
    decreases j - i
  {
    if i < j {
      SpaceEndIs(s, i + 1, j);
    }
  }

  /** A literal that stands at `i` fits in the line. */
  lemma {:induction false} LiteralAtFits(s: string, i: nat, lit: string)
    requires i <= |s|
    ensures LiteralAt(s, i, lit) ==> i + |lit| <= |s|
    decreases |lit|
  {
    if lit != [] && LiteralAt(s, i, lit) {
      LiteralAtFits(s, i + 1, lit[1..]);
    }
  }

  /** The keyword at the start with a non-whitespace character after it is a
      match at position 0. */
  lemma MatchesAtStart(s: string)
    requires LiteralAt(s, 0, Keyword) && Leaves(s, |Keyword|)
    ensures MatchesAt(s, 0)
  {
  }

  /** A `#` followed by more non-whitespace is the prefix. */
  lemma PrefixHash(s: string, a: nat)
    requires a < |s| && !IsSpace(s[a]) && s[a] == '#' && Leaves(s, a + 1)
    ensures PrefixEnd(s, a) == a + 1
  {
    LiteralAtByChars(s, a, "#");
  }

  /** A character that starts none of `#`, `no`, `no.`, `number` leaves no
      prefix. */
  lemma PrefixNone(s: string, a: nat)
    requires a < |s| && !IsSpace(s[a]) && LowerChar(s[a]) != '#' && LowerChar(s[a]) != 'n'
    ensures PrefixEnd(s, a) == a
  {
  }

  /** `no` that ends the line is given back: there is nothing after it. */
  lemma PrefixNoAtEnd(s: string, a: nat)
    requires a + 2 == |s| && !IsSpace(s[a]) && LowerChar(s[a]) == 'n'
    ensures PrefixEnd(s, a) == a
  {
    LiteralAtFits(s, a, "number");
    assert SpaceEnd(s, a + 2) == |s|;
  }

  /** `number` followed by more non-whitespace is the prefix. */
  lemma PrefixNumber(s: string, a: nat)
    requires a + 6 <= |s| && !IsSpace(s[a]) && Leaves(s, a + 6)
    requires forall k :: 0 <= k < 6 ==> LowerChar(s[a + k]) == "number"[k]
    ensures PrefixEnd(s, a) == a + 6
  {
    LiteralAtByChars(s, a, "number");
    assert LowerChar(s[a + 1]) == 'u';
    assert !LiteralAt(s, a, "no");
  }

  /** The group after the keyword, assembled from where the spaces after the
      keyword end (`a`), where the spaces after the prefix end (`c`), where
      the token starts (`d`) and where it ends (`e`). */
  lemma ReferenceVia(s: string, a: nat, c: nat, d: nat, e: nat)
    requires a == SpaceEnd(s, |Keyword|) && a < |s|
    requires c == SpaceEnd(s, PrefixEnd(s, a)) && c < |s|
    requires d == if IsSeparator(s[c]) && Leaves(s, c + 1) then SpaceEnd(s, c + 1) else c
    requires e == WordEnd(s, d)
    ensures Reference(s, |Keyword|) == Some(Span(d, e))
  {
  }

  /** A line that starts with the keyword matches there, and its token is the
      group the deterministic description gives. */
  lemma TokenAtStart(s: string, g: Span, token: string)
    requires MatchesAt(s, 0)
    requires Reference(s, |Keyword|) == Some(g)
    requires g.start <= g.end <= |s| && s[g.start..g.end] == token
    ensures InvoiceToken(s) == Some(token)
  {
    SearchFromHere(s, 0);
  }

  /** "Invoice #: INV-2024-001" yields "INV-2024-001": the `#` is the prefix,
      the `:` the separator. */
  lemma InvoiceHashColon(s: string)
    requires s == "Invoice #: INV-2024-001"
    ensures InvoiceToken(s) == Some("INV-2024-001")
  {
    InvoiceHashColonChars(s);
    HashColonShape(s);
  }

  lemma InvoiceHashColonChars(s: string)
    requires s == "Invoice #: INV-2024-001"
    ensures |s| == 23 && (forall k :: 0 <= k < 7 ==> LowerChar(s[k]) == Keyword[k])
    ensures s[7] == ' ' && s[8] == '#' && s[9] == ':' && s[10] == ' '
    ensures forall k :: 11 <= k < 23 ==> !IsSpace(s[k])
    ensures s[11..23] == "INV-2024-001"
  {
    var token := "INV-2024-001";
    assert s[11..23] == token;
    forall k | 11 <= k < 23
      ensures !IsSpace(s[k])
    {
      assert s[k] == token[k - 11];
    }
  }

  /** The keyword, a space, `#`, `:`, a space, then a token to the end. */
  lemma HashColonShape(s: string)
    requires |s| == 23 && (forall k :: 0 <= k < 7 ==> LowerChar(s[k]) == Keyword[k])
    requires s[7] == ' ' && s[8] == '#' && s[9] == ':' && s[10] == ' '
    requires forall k :: 11 <= k < 23 ==> !IsSpace(s[k])
    ensures InvoiceToken(s) == Some(s[11..23])
  {
    KeywordAtStart(s);
    SpaceEndIs(s, 7, 8);
    SpaceEndIs(s, 9, 9);
    SpaceEndIs(s, 10, 11);
    PrefixHash(s, 8);
    WordEndIs(s, 11, |s|);
    ReferenceVia(s, 8, 9, 11, 23);
    MatchesAtStart(s);
    TokenAtStart(s, Span(11, 23), s[11..23]);
  }

  /** "Invoice No" yields "No": the prefix `no` gives itself back so that
      `(\S+)` has something to capture. */
  lemma InvoiceNoAlone(s: string)
    requires s == "Invoice No"
    ensures InvoiceToken(s) == Some("No")
  {
    InvoiceNoAloneChars(s);
    NoAloneShape(s);
  }

  lemma InvoiceNoAloneChars(s: string)
    requires s == "Invoice No"
    ensures |s| == 10 && (forall k :: 0 <= k < 7 ==> LowerChar(s[k]) == Keyword[k])
    ensures s[7] == ' ' && LowerChar(s[8]) == 'n'
    ensures forall k :: 8 <= k < 10 ==> !IsSpace(s[k])
    ensures s[8..10] == "No"
  {
  }

  /** The keyword, a space, then a two-character token starting with `n` that ends the line. */
  lemma NoAloneShape(s: string)
    requires |s| == 10 && (forall k :: 0 <= k < 7 ==> LowerChar(s[k]) == Keyword[k])
    requires s[7] == ' ' && LowerChar(s[8]) == 'n'
    requires forall k :: 8 <= k < 10 ==> !IsSpace(s[k])
    ensures InvoiceToken(s) == Some(s[8..10])
  {
    KeywordAtStart(s);
    SpaceEndIs(s, 7, 8);
    PrefixNoAtEnd(s, 8);
    SpaceEndIs(s, 8, 8);
    WordEndIs(s, 8, |s|);
    ReferenceVia(s, 8, 8, 8, 10);
    MatchesAtStart(s);
    TokenAtStart(s, Span(8, 10), s[8..10]);
  }

  /** "invoice:" yields ":": the separator gives itself back in the same way. */
  lemma InvoiceColonAlone(s: string)
    requires s == "invoice:"
    ensures InvoiceToken(s) == Some(":")
  {
    InvoiceColonAloneChars(s);
    ColonAloneShape(s);
  }

  lemma InvoiceColonAloneChars(s: string)
    requires s == "invoice:"
    ensures |s| == 8 && (forall k :: 0 <= k < 7 ==> LowerChar(s[k]) == Keyword[k])
    ensures s[7] == ':'
    ensures s[7..8] == ":"
  {
  }

  /** The keyword, then `:` at the end of the line. */
  lemma ColonAloneShape(s: string)
    requires |s| == 8 && (forall k :: 0 <= k < 7 ==> LowerChar(s[k]) == Keyword[k])
    requires s[7] == ':'
    ensures InvoiceToken(s) == Some(s[7..8])
  {
    KeywordAtStart(s);
    SpaceEndIs(s, 7, 7);
    PrefixNone(s, 7);
    SpaceEndIs(s, 8, 8);
    WordEndIs(s, 7, |s|);
    ReferenceVia(s, 7, 7, 7, 8);
    MatchesAtStart(s);
    TokenAtStart(s, Span(7, 8), s[7..8]);
  }

  /** `s` is one line with nothing for `strip` to remove. */
  predicate Bare(s: string) {
    '\n' !in s && s != [] && !IsSpace(s[0]) && !IsSpace(s[|s| - 1])
  }

  /** A text of two lines without surrounding whitespace is those two lines. */
  lemma TwoLines(a: string, b: string)
    requires Bare(a) && Bare(b)
    ensures StrippedLines(a + "\n" + b) == [a, b]
  {
    SplitFirst(a, '\n', b);
    SplitWithout(b, '\n');
    StripUnchanged(a);
    StripUnchanged(b);
  }

  /** "Invoice Number A2" yields "A2": the prefix is `number`. */
  lemma InvoiceNumberWord(s: string)
    requires s == "Invoice Number A2"
    ensures InvoiceToken(s) == Some("A2")
  {
    InvoiceNumberWordChars(s);
    NumberWordShape(s);
  }

  lemma InvoiceNumberWordChars(s: string)
    requires s == "Invoice Number A2"
    ensures |s| == 17 && (forall k :: 0 <= k < 7 ==> LowerChar(s[k]) == Keyword[k])
    ensures s[7] == ' ' && s[14] == ' ' && s[15] == 'A'
    ensures forall k :: 8 <= k < 14 ==> LowerChar(s[k]) == "number"[k - 8]
    ensures forall k :: 15 <= k < 17 ==> !IsSpace(s[k])
    ensures s[15..17] == "A2"
  {
    assert s[15] == 'A' && s[16] == '2';
  }

  /** The keyword, a space, `number`, a space, then a token to the end. */
  lemma NumberWordShape(s: string)
    requires |s| == 17 && (forall k :: 0 <= k < 7 ==> LowerChar(s[k]) == Keyword[k])
    requires s[7] == ' ' && s[14] == ' ' && s[15] == 'A'
    requires forall k :: 8 <= k < 14 ==> LowerChar(s[k]) == "number"[k - 8]
    requires forall k :: 15 <= k < 17 ==> !IsSpace(s[k])
    ensures InvoiceToken(s) == Some(s[15..17])
  {
    KeywordAtStart(s);
    assert LowerChar(s[8]) == 'n';
    SpaceEndIs(s, 7, 8);
    SpaceEndIs(s, 14, 15);
    PrefixNumber(s, 8);
    WordEndIs(s, 15, |s|);
    ReferenceVia(s, 8, 15, 15, 17);
    MatchesAtStart(s);
    TokenAtStart(s, Span(15, 17), s[15..17]);
  }

  /** A text of one line without surrounding whitespace holds, under each
      line field, what that line writes. */
  lemma SingleLine(s: string, key: Field)
    requires Bare(s)
    requires key in LineFields
    ensures Lookup(Parsed(s), key) == Contribution(s, key)
  {
    SplitWithout(s, '\n');
    StripUnchanged(s);
    assert StrippedLines(s) == [s];
    if Contribution(s, key).Some? {
      ParsedLastWins(s, key, 0);
    } else {
      ParsedHasField(s, key);
    }
  }

  /** In a text of two such lines, a key the second line writes holds the
      second line's value. */
  lemma SecondLineWins(a: string, b: string, key: Field)
    requires Bare(a) && Bare(b)
    requires key in LineFields && Contribution(b, key).Some?
    ensures key in Parsed(a + "\n" + b) && Parsed(a + "\n" + b)[key] == Contribution(b, key).value
  {
    TwoLines(a, b);
    ParsedLastWins(a + "\n" + b, key, 1);
  }

  /** Two lines that both match the invoice pattern: the second one wins. */
  lemma LastInvoiceNumberWins(a: string, b: string)
    requires a == "Invoice No: A1" && b == "Invoice Number A2"
    ensures Lookup(Parsed(a + "\n" + b), InvoiceNumber) == Some("A2")
  {
    TwoInvoiceLines(a, b);
    SecondLineWins(a, b, InvoiceNumber);
  }

  lemma TwoInvoiceLines(a: string, b: string)
    requires a == "Invoice No: A1" && b == "Invoice Number A2"
    ensures Bare(a) && Bare(b) && InvoiceToken(b) == Some("A2")
  {
    assert Bare(a) && Bare(b);
    InvoiceNumberWord(b);
  }

  /** "Invoice Date: 2024" is seen by both checks: the pattern captures
      "Date:" as the invoice number, and the line also goes under `date`. */
  lemma InvoiceDateLine(s: string)
    requires s == "Invoice Date: 2024"
    ensures var r := Parsed(s);
            && Lookup(r, InvoiceNumber) == Some("Date:") && Lookup(r, Date) == Some(s)
            && OrderNumber !in r && Total !in r
  {
    InvoiceDateFacts(s);
    TokenAndBranch(s, "Date:", Date);
  }

  lemma InvoiceDateFacts(s: string)
    requires s == "Invoice Date: 2024"
    ensures Bare(s) && InvoiceToken(s) == Some("Date:") && BranchKey(s) == Some(Date)
  {
    assert Bare(s);
    InvoiceDateToken(s);
    InvoiceDateBranch(s);
  }

  /** A text of one line without surrounding whitespace: the record holds the
      line's invoice token, if any, and the whole line under its branch key,
      if any, and nothing else among the line fields. */
  lemma OneLineRecord(s: string)
    requires Bare(s)
    ensures Lookup(Parsed(s), InvoiceNumber) == InvoiceToken(s)
    ensures forall f :: f in LineFields - {InvoiceNumber} ==>
              Lookup(Parsed(s), f) == if BranchKey(s) == Some(f) then Some(s) else None
  {
    forall f | f in LineFields
      ensures Lookup(Parsed(s), f) == Contribution(s, f)
    {
      SingleLine(s, f);
    }
  }

  /** One such line with an invoice token and a branch key: the record holds
      both, and no other line field. */
  lemma TokenAndBranch(s: string, token: string, key: Field)
    requires Bare(s) && InvoiceToken(s) == Some(token)
    requires key in LineFields - {InvoiceNumber} && BranchKey(s) == Some(key)
    ensures Lookup(Parsed(s), InvoiceNumber) == Some(token) && Lookup(Parsed(s), key) == Some(s)
    ensures forall f :: f in LineFields - {InvoiceNumber, key} ==> f !in Parsed(s)
  {
    OneLineRecord(s);
    forall f | f in LineFields - {InvoiceNumber, key}
      ensures f !in Parsed(s)
    {
      assert Lookup(Parsed(s), f) == None;
    }
  }

  lemma InvoiceDateToken(s: string)
    requires s == "Invoice Date: 2024"
    ensures InvoiceToken(s) == Some("Date:")
  {
    InvoiceDateTokenChars(s);
    DateTokenShape(s);
  }

  lemma InvoiceDateTokenChars(s: string)
    requires s == "Invoice Date: 2024"
    ensures |s| == 18 && (forall k :: 0 <= k < 7 ==> LowerChar(s[k]) == Keyword[k])
    ensures s[7] == ' ' && LowerChar(s[8]) == 'd' && s[13] == ' '
    ensures forall k :: 8 <= k < 13 ==> !IsSpace(s[k])
    ensures s[8..13] == "Date:"
  {
  }

  /** The keyword, a space, then a five-character token starting with `d` and a space. */
  lemma DateTokenShape(s: string)
    requires |s| == 18 && (forall k :: 0 <= k < 7 ==> LowerChar(s[k]) == Keyword[k])
    requires s[7] == ' ' && LowerChar(s[8]) == 'd' && s[13] == ' '
    requires forall k :: 8 <= k < 13 ==> !IsSpace(s[k])
    ensures InvoiceToken(s) == Some(s[8..13])
  {
    KeywordAtStart(s);
    SpaceEndIs(s, 7, 8);
    PrefixNone(s, 8);
    SpaceEndIs(s, 8, 8);
    WordEndIs(s, 8, 13);
    ReferenceVia(s, 8, 8, 8, 13);
    MatchesAtStart(s);
    TokenAtStart(s, Span(8, 13), s[8..13]);
  }

  lemma InvoiceDateBranch(s: string)
    requires s == "Invoice Date: 2024"
    ensures BranchKey(s) == Some(Date)
  {
    forall j | 0 <= j < |s| ensures LowerChar(s[j]) != "order"[1] {
    }
    LiteralAbsent(s, "order", 1, 0);
    LiteralAtByChars(s, 8, "date");
    LiteralFromEarlier(s, "date", 0, 8);
  }

  /** An order line and a total line: each is kept whole under its key, and
      no `date` key appears. */
  lemma OrderThenTotal(a: string, b: string)
    requires a == "Order #12345 confirmed" && b == "Total: $99.00"
    ensures var r := Parsed(a + "\n" + b);
            && Lookup(r, OrderNumber) == Some(a) && Lookup(r, Total) == Some(b) && Date !in r
  {
    assert Bare(a) && Bare(b);
    OrderThenTotalBranches(a, b);
    TwoBranchLines(a, b, OrderNumber, Total);
  }

  /** Two such lines taking different branches: each is kept whole under its
      key, and the third branch key is absent. */
  lemma TwoBranchLines(a: string, b: string, ka: Field, kb: Field)
    requires Bare(a) && Bare(b)
    requires ka in LineFields - {InvoiceNumber} && kb in LineFields - {InvoiceNumber} && ka != kb
    requires BranchKey(a) == Some(ka) && BranchKey(b) == Some(kb)
    ensures var r := Parsed(a + "\n" + b);
            && Lookup(r, ka) == Some(a) && Lookup(r, kb) == Some(b)
            && forall f :: f in LineFields - {InvoiceNumber, ka, kb} ==> f !in r
  {
    var text := a + "\n" + b;
    TwoLines(a, b);
    ParsedLastWins(text, ka, 0);
    ParsedLastWins(text, kb, 1);
    forall f | f in LineFields - {InvoiceNumber, ka, kb}
      ensures f !in Parsed(text)
    {
      ParsedHasField(text, f);
    }
  }

  lemma OrderThenTotalBranches(a: string, b: string)
    requires a == "Order #12345 confirmed" && b == "Total: $99.00"
    ensures BranchKey(a) == Some(OrderNumber) && BranchKey(b) == Some(Total)
  {
    OrderThenTotalChars(a, b);
    OrderAtStart(a);
    TotalAtStart(b);
  }

  lemma OrderThenTotalChars(a: string, b: string)
    requires a == "Order #12345 confirmed" && b == "Total: $99.00"
    ensures |a| >= 5 && forall k :: 0 <= k < 5 ==> LowerChar(a[k]) == "order"[k]
    ensures |b| >= 5 && forall k :: 0 <= k < 5 ==> LowerChar(b[k]) == "total"[k]
    ensures forall j :: 0 <= j < |b| ==> LowerChar(b[j]) != 'r' && LowerChar(b[j]) != 'd'
  {
  }

  /** A line that starts with "order" in any case takes the first branch. */
  lemma OrderAtStart(s: string)
    requires |s| >= 5 && forall k :: 0 <= k < 5 ==> LowerChar(s[k]) == "order"[k]
    ensures BranchKey(s) == Some(OrderNumber)
  {
    LiteralAtByChars(s, 0, "order");
  }

  /** A line that starts with "total" and has no `r` and no `d` in any case
      takes the last branch. */
  lemma TotalAtStart(s: string)
    requires |s| >= 5 && forall k :: 0 <= k < 5 ==> LowerChar(s[k]) == "total"[k]
    requires forall j :: 0 <= j < |s| ==> LowerChar(s[j]) != 'r' && LowerChar(s[j]) != 'd'
    ensures BranchKey(s) == Some(Total)
  {
    assert "order"[1] == 'r' && "date"[0] == 'd';
    LiteralAbsent(s, "order", 1, 0);
    LiteralAbsent(s, "date", 0, 0);
    LiteralAtByChars(s, 0, "total");
  }
}
