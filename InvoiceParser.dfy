/**
 `parse_invoice_text`: the recognised text is split on line feeds, each line
 is stripped, and each line may set `invoice_number` (from the invoice
 pattern) and, independently, one of `order_number`, `date`, `total` (the
 first of the words "order", "date", "total" that the lower-cased line
 contains). Every line that sets a key overwrites it, so each key ends up
 holding what the LAST line that sets it gave. `raw_text` is the original text.
 */
module InvoiceParser {
  import opened Wrappers
  import opened PyText
  import InvoicePattern

  /** The keys `parse_invoice_text` writes. */
  datatype Field = InvoiceNumber | OrderNumber | Date | Total | RawText

  /** The dict key under which each field is stored. */
  function Name(f: Field): (n: string)
    ensures |n| > 0
  {
    match f
    case InvoiceNumber => "invoice_number"
    case OrderNumber => "order_number"
    case Date => "date"
    case Total => "total"
    case RawText => "raw_text"
  }

  /** The key a dict key string names, if it is one of the five. */
  function FieldNamed(key: string): (f: Option<Field>)
    ensures f.Some? ==> Name(f.value) == key
    ensures f.None? ==> forall g: Field :: Name(g) != key
  {
    if key == "invoice_number" then Some(InvoiceNumber)
    else if key == "order_number" then Some(OrderNumber)
    else if key == "date" then Some(Date)
    else if key == "total" then Some(Total)
    else if key == "raw_text" then Some(RawText)
    else None
  }

  /** Each key name reads back as its field. */
  lemma FieldNamedName(f: Field)
    ensures FieldNamed(Name(f)) == Some(f)
  {
  }

  /** The dict `parse_invoice_text` returns, with its keys as `Field`s
      (`Name` gives the string key of each). */
  type Record = map<Field, string>

  /** The keys that individual lines may set. */
  const LineFields: set<Field> := {InvoiceNumber, OrderNumber, Date, Total}

  /** `match.group(1)` of `invoice_pattern.search(line)`, when there is a match. */
  function InvoiceToken(line: string): Option<string> {
    match InvoicePattern.Search(line)
    case None => None
    case Some(g) =>
      InvoicePattern.SearchToken(line);
      Some(line[g.start..g.end])
  }

  /** The pattern captures something exactly when the keyword stands
      somewhere in the line with a non-whitespace character after it; what it
      captures is then a non-empty run of non-whitespace characters. */
  lemma InvoiceTokenShape(line: string)
    ensures InvoiceToken(line).Some? <==> exists q :: InvoicePattern.MatchesAt(line, q)
    ensures InvoiceToken(line).Some? ==>
              && |InvoiceToken(line).value| > 0
              && forall k :: 0 <= k < |InvoiceToken(line).value| ==> !IsSpace(InvoiceToken(line).value[k])
  {
    InvoicePattern.SearchIsLeftmost(line);
    if InvoiceToken(line).Some? {
      TokenText(line, InvoicePattern.Search(line).value);
    }
  }

  /** The text of a token is non-empty and holds no whitespace. */
  lemma TokenText(line: string, g: InvoicePattern.Span)
    requires InvoicePattern.IsToken(line, g)
    ensures |line[g.start..g.end]| > 0
    ensures forall k :: 0 <= k < |line[g.start..g.end]| ==> !IsSpace(line[g.start..g.end][k])
  {
    var token := line[g.start..g.end];
    assert forall k :: 0 <= k < |token| ==> token[k] == line[g.start + k];
  }

  /** The key of the `if "order" ... elif "date" ... elif "total"` chain for
      `line`, if any branch is taken. */
  function BranchKey(line: string): Option<Field> {
    if LiteralFrom(line, "order", 0) then Some(OrderNumber)
    else if LiteralFrom(line, "date", 0) then Some(Date)
    else if LiteralFrom(line, "total", 0) then Some(Total)
    else None
  }

  /** The `if`/`elif` chain on `line.lower()`: a line writes `order_number`
      when it contains "order"; `date` when it contains "date" and not
      "order"; `total` when it contains "total" and neither of the others;
      so it writes at most one of the three, whatever the positions of the
      words in the line. */
  lemma BranchPriority(line: string)
    ensures BranchKey(line) == Some(OrderNumber) <==> Contains(Lower(line), "order")
    ensures BranchKey(line) == Some(Date) <==> !Contains(Lower(line), "order") && Contains(Lower(line), "date")
    ensures BranchKey(line) == Some(Total) <==>
              !Contains(Lower(line), "order") && !Contains(Lower(line), "date") && Contains(Lower(line), "total")
    ensures BranchKey(line).None? <==>
              !Contains(Lower(line), "order") && !Contains(Lower(line), "date") && !Contains(Lower(line), "total")
  {
    ContainsLower(line, "order");
    ContainsLower(line, "date");
    ContainsLower(line, "total");
  }

  /** The value a stripped `line` writes under `key`, if it writes that key. */
  function Contribution(line: string, key: Field): Option<string> {
    if key == InvoiceNumber then InvoiceToken(line)
    else if BranchKey(line) == Some(key) then Some(line)
    else None
  }

  /** The value that the last of the first `n` lines writing `key` writes. */
  function LastContribution(lines: seq<string>, n: nat, key: Field): Option<string>
    requires n <= |lines|
  {
    if n == 0 then None
    else if Contribution(lines[n - 1], key).Some? then Contribution(lines[n - 1], key)
    else LastContribution(lines, n - 1, key)
  }

  /** The lines of `text`, as split on line feeds and stripped one by one. */
  function StrippedLines(text: string): (lines: seq<string>)
    ensures |lines| == |Split(text, '\n')|
    ensures forall i :: 0 <= i < |lines| ==> lines[i] == Strip(Split(text, '\n')[i])
  {
    var parts := Split(text, '\n');
    seq(|parts|, i requires 0 <= i < |parts| => Strip(parts[i]))
  }

  /** `r` with `key` set to `v` when there is a value. */
  function Put(r: Record, key: Field, v: Option<string>): Record {
    if v.Some? then r[key := v.value] else r
  }

  /** The record holding the given values of the four line fields. */
  function Assemble(inv: Option<string>, ord: Option<string>, date: Option<string>, total: Option<string>): (r: Record)
    ensures r.Keys <= LineFields
    ensures Lookup(r, InvoiceNumber) == inv && Lookup(r, OrderNumber) == ord
    ensures Lookup(r, Date) == date && Lookup(r, Total) == total
  {
    Put(Put(Put(Put(map[], InvoiceNumber, inv), OrderNumber, ord), Date, date), Total, total)
  }

  /** The record after the first `n` of `lines`: each line field that one of
      them writes, with the value of the last of them that writes it. */
  function FieldsUpTo(lines: seq<string>, n: nat): Record
    requires n <= |lines|
  {
    Assemble(LastContribution(lines, n, InvoiceNumber), LastContribution(lines, n, OrderNumber),
             LastContribution(lines, n, Date), LastContribution(lines, n, Total))
  }

  /** The record for `lines`: each line field that some line writes, with the
      value of the last line that writes it. */
  function FieldsOf(lines: seq<string>): Record {
    FieldsUpTo(lines, |lines|)
  }

  /** The record `parse_invoice_text(text)` returns, stated declaratively. */
  function Parsed(text: string): Record {
    FieldsOf(StrippedLines(text))[RawText := text]
  }

  /** The value under `key`, if there is one. */
  function Lookup(r: Record, key: Field): Option<string> {
    if key in r then Some(r[key]) else None
  }

  /** `after` is `before` with the writes of `line` applied: each key the line
      writes holds the line's value, every other key keeps its value, and no
      other key appears. */
  predicate Overwrites(before: Record, line: string, after: Record) {
    && after.Keys <= before.Keys + LineFields
    && (forall k :: k in LineFields ==>
          Lookup(after, k) == if Contribution(line, k).Some? then Contribution(line, k) else Lookup(before, k))
    && (forall k :: k !in LineFields ==> Lookup(after, k) == Lookup(before, k))
  }

  /** `parse_invoice_text`: one pass over the lines, overwriting keys as it goes. */
  method ParseInvoiceText(text: string) returns (data: Record)
    ensures data == Parsed(text)
    ensures RawText in data && data[RawText] == text
  {
    var lines := Split(text, '\n');
    ghost var stripped := StrippedLines(text);
    data := map[];
    var i := 0;
    while i < |lines|
      invariant 0 <= i <= |lines|
      invariant data == FieldsUpTo(stripped, i)
    {
      var line := Strip(lines[i]);
      assert line == stripped[i];
      ghost var before := data;
      data := ParseLine(data, line);
      FieldsUpToStep(stripped, i, before, data);
      i := i + 1;
    }
    ParsedFrom(text, data);
    data := data[RawText := text];
  }

  /** The body of the loop of `parse_invoice_text` for one stripped `line`:
      every key the line writes is overwritten with the line's value, every
      other key keeps its value, and no other key appears. */
  method ParseLine(data: Record, line: string) returns (next: Record)
    ensures Overwrites(data, line, next)
  {
    next := data;
    var m := InvoiceToken(line);
    if m.Some? {
      next := next[InvoiceNumber := m.value];
    }
    ghost var afterInvoice := next;
    var low := Lower(line);
    BranchPriority(line);
    if Contains(low, "order") {
      next := next[OrderNumber := line];
    } else if Contains(low, "date") {
      next := next[Date := line];
    } else if Contains(low, "total") {
      next := next[Total := line];
    }
    assert next == Put(afterInvoice, if BranchKey(line).Some? then BranchKey(line).value else Total,
                       if BranchKey(line).Some? then Some(line) else None);
    OverwritesBySteps(data, line, afterInvoice, next);
  }

  /** The two checks of one loop iteration, one after the other, overwrite
      exactly the keys the line writes. */
  lemma OverwritesBySteps(data: Record, line: string, afterInvoice: Record, next: Record)
    requires afterInvoice == Put(data, InvoiceNumber, InvoiceToken(line))
    requires next == Put(afterInvoice, if BranchKey(line).Some? then BranchKey(line).value else Total,
                         if BranchKey(line).Some? then Some(line) else None)
    ensures Overwrites(data, line, next)
  {
    forall k | k in LineFields
      ensures Lookup(next, k) == if Contribution(line, k).Some? then Contribution(line, k) else Lookup(data, k)
    {
    }
  }

  /** The record of all stripped lines, with `raw_text` added, is `Parsed`. */
  lemma ParsedFrom(text: string, fields: Record)
    requires fields == FieldsUpTo(StrippedLines(text), |Split(text, '\n')|)
    ensures fields[RawText := text] == Parsed(text)
  {
  }

  /** One more line: a record that takes over the writes of line `n` on top of
      the record of the first `n` lines is the record of the first `n + 1`. */
  lemma FieldsUpToStep(lines: seq<string>, n: nat, before: Record, after: Record)
    requires n < |lines| && before == FieldsUpTo(lines, n)
    requires Overwrites(before, lines[n], after)
    ensures after == FieldsUpTo(lines, n + 1)
  {
    AssembleLookups(after, LastContribution(lines, n + 1, InvoiceNumber), LastContribution(lines, n + 1, OrderNumber),
                    LastContribution(lines, n + 1, Date), LastContribution(lines, n + 1, Total));
  }

  /** A record over the line fields is determined by its four lookups. */
  lemma AssembleLookups(data: Record, inv: Option<string>, ord: Option<string>, date: Option<string>, total: Option<string>)
    requires data.Keys <= LineFields
    requires Lookup(data, InvoiceNumber) == inv && Lookup(data, OrderNumber) == ord
    requires Lookup(data, Date) == date && Lookup(data, Total) == total
    ensures data == Assemble(inv, ord, date, total)
  {
    var r := Assemble(inv, ord, date, total);
    forall k | k in LineFields ensures Lookup(data, k) == Lookup(r, k) {
    }
  }

  // ---------------------------------------------------------------------------
  // What the record holds
  // ---------------------------------------------------------------------------

  /** None of the first `n` lines writes `key` exactly when `LastContribution`
      has nothing. */
  lemma {:induction false} LastContributionNone(lines: seq<string>, n: nat, key: Field)
    requires n <= |lines|
    ensures LastContribution(lines, n, key).None? <==> forall i :: 0 <= i < n ==> Contribution(lines[i], key).None?
  {
    if n > 0 {
      LastContributionNone(lines, n - 1, key);
    }
  }

  /** The line that writes `key` last decides its value. */
  lemma {:induction false} LastContributionIsLast(lines: seq<string>, n: nat, key: Field, i: nat)
    requires n <= |lines| && i < n && Contribution(lines[i], key).Some?
    requires forall j :: i < j < n ==> Contribution(lines[j], key).None?
    ensures LastContribution(lines, n, key) == Contribution(lines[i], key)
  {
    if i < n - 1 {
      assert Contribution(lines[n - 1], key).None?;
      LastContributionIsLast(lines, n - 1, key, i);
      assert LastContribution(lines, n, key) == LastContribution(lines, n - 1, key);
    } else {
      assert LastContribution(lines, n, key) == Contribution(lines[n - 1], key);
    }
  }

  /** A value `LastContribution` reports comes from a line that writes it,
      with no later line writing `key`. */
  lemma {:induction false} LastContributionFrom(lines: seq<string>, n: nat, key: Field) returns (i: nat)
    requires n <= |lines| && LastContribution(lines, n, key).Some?
    ensures i < n && Contribution(lines[i], key) == LastContribution(lines, n, key)
    ensures forall j :: i < j < n ==> Contribution(lines[j], key).None?
  {
    if Contribution(lines[n - 1], key).Some? {
      i := n - 1;
    } else {
      i := LastContributionFrom(lines, n - 1, key);
    }
  }

  /** `raw_text` is always present and is the text exactly as recognised:
      neither split nor stripped. */
  lemma ParsedRawText(text: string)
    ensures RawText in Parsed(text) && Parsed(text)[RawText] == text
  {
  }

  /** A line field is in the record exactly when some stripped line writes it. */
  lemma ParsedHasField(text: string, key: Field)
    requires key in LineFields
    ensures key in Parsed(text) <==>
              exists i :: 0 <= i < |StrippedLines(text)| && Contribution(StrippedLines(text)[i], key).Some?
  {
    var lines := StrippedLines(text);
    LastContributionNone(lines, |lines|, key);
  }

  /** The last line that writes a key wins: every key, `invoice_number`
      included, holds what the last line writing it gave; for
      `order_number`, `date` and `total` that is the whole stripped line. */
  lemma ParsedLastWins(text: string, key: Field, i: nat)
    requires key in LineFields
    requires i < |StrippedLines(text)| && Contribution(StrippedLines(text)[i], key).Some?
    requires forall j :: i < j < |StrippedLines(text)| ==> Contribution(StrippedLines(text)[j], key).None?
    ensures key in Parsed(text) && Parsed(text)[key] == Contribution(StrippedLines(text)[i], key).value
    ensures key != InvoiceNumber ==> Parsed(text)[key] == StrippedLines(text)[i]
  {
    var lines := StrippedLines(text);
    LastContributionIsLast(lines, |lines|, key, i);
  }

  /** When no line matches anything, `raw_text` is the only key. */
  lemma ParsedOnlyRawText(text: string)
    requires forall i, k :: 0 <= i < |StrippedLines(text)| && k in LineFields ==>
               Contribution(StrippedLines(text)[i], k).None?
    ensures Parsed(text).Keys == {RawText}
  {
    var lines := StrippedLines(text);
    forall k | k in LineFields ensures LastContribution(lines, |lines|, k).None? {
      LastContributionNone(lines, |lines|, k);
    }
  }
}
