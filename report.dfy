/**
  The Postbank text-report parser (app.py:12-41). A report is a sequence of
  lines; after dropping blank lines and stripping the rest, every line that
  starts with a DD.MM.YYYY date and has four more lines after it opens a
  five-line transaction block: date, amount, payee, purpose and kind. Any
  other line is skipped.
*/
module Report {
  import opened Text
  import opened Amount
  import opened Filters

  /** One row of the transaction table. */
  datatype Transaction = Transaction(
    date: string, amount: real, payee: string, purpose: string, kind: string, category: string)

  /** What parsing a report gives: the table of transactions, or the
      `ValueError` of `float()` with the string it was handed. */
  datatype Outcome = Parsed(records: seq<Transaction>) | ValueError(arg: string)

  // ---------------------------------------------------------------------------
  // Preprocessing (app.py:15)

  predicate NonBlank(line: string) {
    Strip(line) != []
  }

  /** Every line that is not all whitespace, stripped, in order. */
  function Clean(raw: seq<string>): (lines: seq<string>)
    ensures |lines| <= |raw|
  {
    if raw == [] then []
    else
      var last := raw[|raw| - 1];
      Clean(raw[..|raw| - 1]) + (if NonBlank(last) then [Strip(last)] else [])
  }

  /** Every cleaned line is non-empty and already stripped. */
  lemma {:induction false} CleanLines(raw: seq<string>)
    ensures forall k :: 0 <= k < |Clean(raw)| ==> Clean(raw)[k] != [] && Strip(Clean(raw)[k]) == Clean(raw)[k]
  {
    CleanAt(raw);
    FilterAt(raw, NonBlank);
    forall k | 0 <= k < |Clean(raw)|
      ensures Clean(raw)[k] != [] && Strip(Clean(raw)[k]) == Clean(raw)[k]
    {
      var j := Positions(raw, NonBlank)[k];
      StripIdempotent(raw[j]);
    }
  }

  /** The cleaned lines are the stripped forms of exactly the non-blank input
      lines, in their order: line `k` comes from input line
      `Positions(raw, NonBlank)[k]`. */
  lemma {:induction false} CleanAt(raw: seq<string>)
    ensures |Clean(raw)| == |Positions(raw, NonBlank)|
    ensures forall k :: 0 <= k < |Clean(raw)| ==> Clean(raw)[k] == Strip(raw[Positions(raw, NonBlank)[k]])
    decreases |raw|
  {
    if raw != [] {
      var init := raw[..|raw| - 1];
      CleanAt(init);
      var c, ps := Clean(init), Positions(init, NonBlank);
      assert forall k :: 0 <= k < |ps| ==> ps[k] < |init|;
      assert forall j :: 0 <= j < |init| ==> init[j] == raw[j];
      if NonBlank(raw[|raw| - 1]) {
        assert Clean(raw) == c + [Strip(raw[|raw| - 1])];
        assert Positions(raw, NonBlank) == ps + [|raw| - 1];
      } else {
        assert Clean(raw) == c;
        assert Positions(raw, NonBlank) == ps;
      }
    }
  }

  /** Preprocessing keeps the input order and drops exactly the blank lines. */
  lemma {:induction false} CleanKeepsOrder(raw: seq<string>)
    ensures |Clean(raw)| == |Positions(raw, NonBlank)|
    ensures Increasing(Positions(raw, NonBlank))
    ensures forall j :: 0 <= j < |raw| ==> (j in Positions(raw, NonBlank) <==> Strip(raw[j]) != [])
    ensures forall k :: 0 <= k < |Clean(raw)| ==> Clean(raw)[k] == Strip(raw[Positions(raw, NonBlank)[k]])
  {
    CleanAt(raw);
    FilterAt(raw, NonBlank);
  }

  // ---------------------------------------------------------------------------
  // The block scanner (app.py:17-40)

  /** `re.match(r"\d{2}\.\d{2}\.\d{4}", line)`: the line opens with two digits,
      a dot, two digits, a dot and four digits; anything may follow. */
  predicate IsDateLine(line: string) {
    && |line| >= 10
    && IsDigit(line[0]) && IsDigit(line[1]) && line[2] == '.'
    && IsDigit(line[3]) && IsDigit(line[4]) && line[5] == '.'
    && IsDigit(line[6]) && IsDigit(line[7]) && IsDigit(line[8]) && IsDigit(line[9])
  }

  /** The record of the block that starts at line `i`; its category is empty. */
  function Block(lines: seq<string>, i: nat, amount: real): Transaction
    requires i + 4 < |lines|
  {
    Transaction(lines[i], amount, lines[i + 2], lines[i + 3], lines[i + 4], "")
  }

  /** `records` followed by what the rest of the scan gives; an error wins. */
  function Extend(records: seq<Transaction>, rest: Outcome): Outcome {
    match rest
    case Parsed(more) => Parsed(records + more)
    case ValueError(arg) => rest
  }

  /** How an amount line is read. The parser uses `ConvertAmount`; the
      scanner and its lemmas are stated for any reader, so that they speak
      only about where the blocks are and what becomes of each amount line. */
  type Reader = string -> Conversion

  /** The scan from cursor `i` to the end: a block at a date line with four
      lines after it, a skipped line otherwise, and a stop when fewer than five
      lines remain. A block whose amount is rejected ends the scan with that
      error. */
  function Scan(lines: seq<string>, i: nat, read: Reader): Outcome
    decreases |lines| - i
  {
    if i + 4 >= |lines| then Parsed([])
    else if IsDateLine(lines[i]) then
      match read(lines[i + 1])
      case Rejected(arg) => ValueError(arg)
      case Converted(amount) => Extend([Block(lines, i, amount)], Scan(lines, i + 5, read))
    else Scan(lines, i + 1, read)
  }

  /** The whole parse of a decoded report. */
  function ParsePostbank(raw: seq<string>): Outcome {
    Scan(Clean(raw), 0, ConvertAmount)
  }

  lemma {:induction false} ExtendAssoc(a: seq<Transaction>, b: seq<Transaction>, rest: Outcome)
    ensures Extend(a, Extend(b, rest)) == Extend(a + b, rest)
  {
    if rest.Parsed? {
      assert a + (b + rest.records) == (a + b) + rest.records;
    }
  }

  /** `parse_postbank_txt` after decoding: the cursor loop, appending one
      record per block. */
  method ParsePostbankTxt(raw: seq<string>) returns (result: Outcome)
    ensures result == ParsePostbank(raw)
  {
    var lines := Clean(raw);
    var transactions: seq<Transaction> := [];
    var idx: nat := 0;
    while idx < |lines| - 4
      invariant Scan(lines, 0, ConvertAmount) == Extend(transactions, Scan(lines, idx, ConvertAmount))
      decreases |lines| - idx
    {
      if IsDateLine(lines[idx]) {
        var amount := ConvertAmount(lines[idx + 1]);
        if amount.Rejected? {
          return ValueError(amount.arg);
        }
        var record := Block(lines, idx, amount.value);
        ExtendAssoc(transactions, [record], Scan(lines, idx + 5, ConvertAmount));
        transactions := transactions + [record];
        idx := idx + 5;
      } else {
        idx := idx + 1;
      }
    }
    assert transactions + [] == transactions;
    return Parsed(transactions);
  }

  // ---------------------------------------------------------------------------
  // Where the blocks are

  /** The lines at which the scan from `i` opens a block, if no amount is
      rejected. */
  function Starts(lines: seq<string>, i: nat): seq<nat>
    decreases |lines| - i
  {
    if i + 4 >= |lines| then []
    else if IsDateLine(lines[i]) then [i] + Starts(lines, i + 5)
    else Starts(lines, i + 1)
  }

  /** Every block start lies at or after `i`, is a date line with four lines
      after it, and the next block starts at least five lines later: the
      windows are disjoint and in order. */
  lemma {:induction false} StartsShape(lines: seq<string>, i: nat)
    ensures forall k :: 0 <= k < |Starts(lines, i)| ==>
      i <= Starts(lines, i)[k] && Starts(lines, i)[k] + 4 < |lines| && IsDateLine(lines[Starts(lines, i)[k]])
    ensures forall k :: 0 < k < |Starts(lines, i)| ==> Starts(lines, i)[k - 1] + 5 <= Starts(lines, i)[k]
  {
    StartsPlaced(lines, i);
    StartsApart(lines, i);
  }

  lemma {:induction false} StartsPlaced(lines: seq<string>, i: nat)
    ensures forall k :: 0 <= k < |Starts(lines, i)| ==>
      i <= Starts(lines, i)[k] && Starts(lines, i)[k] + 4 < |lines| && IsDateLine(lines[Starts(lines, i)[k]])
  {
    forall k | 0 <= k < |Starts(lines, i)|
      ensures i <= Starts(lines, i)[k] && Starts(lines, i)[k] + 4 < |lines| && IsDateLine(lines[Starts(lines, i)[k]])
    {
      StartAt(lines, i, k);
    }
  }

  /** Block `k` of the scan from `i` starts at a date line at or after `i`
      with four lines after it. */
  lemma {:induction false} StartAt(lines: seq<string>, i: nat, k: nat)
    requires k < |Starts(lines, i)|
    ensures var p := Starts(lines, i)[k]; i <= p && p + 4 < |lines| && IsDateLine(lines[p])
    decreases |lines| - i
  {
    assert i + 4 < |lines|;
    if IsDateLine(lines[i]) {
      var rest := Starts(lines, i + 5);
      assert Starts(lines, i) == [i] + rest;
      if k > 0 {
        StartAt(lines, i + 5, k - 1);
        assert Starts(lines, i)[k] == rest[k - 1];
      }
    } else {
      StartAt(lines, i + 1, k);
    }
  }

  lemma {:induction false} StartsApart(lines: seq<string>, i: nat)
    ensures forall k :: 0 < k < |Starts(lines, i)| ==> Starts(lines, i)[k - 1] + 5 <= Starts(lines, i)[k]
    decreases |lines| - i
  {
    if i + 4 < |lines| {
      if IsDateLine(lines[i]) {
        StartsPlaced(lines, i + 5);
        StartsApart(lines, i + 5);
        var rest := Starts(lines, i + 5);
        assert Starts(lines, i) == [i] + rest;
        assert forall k :: 0 < k < |rest| + 1 ==> ([i] + rest)[k] == rest[k - 1];
      } else {
        StartsApart(lines, i + 1);
      }
    }
  }

  /** The windows never run out of lines: five of them per block. */
  lemma {:induction false} StartsBound(lines: seq<string>, i: nat)
    requires i <= |lines|
    ensures 5 * |Starts(lines, i)| <= |lines| - i
    decreases |lines| - i
  {
    if i + 4 < |lines| {
      if IsDateLine(lines[i]) {
        StartsBound(lines, i + 5);
      } else {
        StartsBound(lines, i + 1);
      }
    }
  }

  /** A date line with four lines after it that opens no block lies inside the
      window of a block: the scan skips a date line only when it is part of an
      earlier transaction. */
  lemma {:induction false} StartsCover(lines: seq<string>, i: nat, j: nat)
    requires i <= j && j + 4 < |lines| && IsDateLine(lines[j])
    ensures j in Starts(lines, i)
      || exists k :: 0 <= k < |Starts(lines, i)| && Starts(lines, i)[k] < j < Starts(lines, i)[k] + 5
    decreases |lines| - i
  {
    var s := Starts(lines, i);
    if j == i {
      assert s[0] == i;
    } else if IsDateLine(lines[i]) {
      var rest := Starts(lines, i + 5);
      assert s == [i] + rest;
      if j < i + 5 {
        assert s[0] < j < s[0] + 5;
      } else {
        StartsCover(lines, i + 5, j);
        if j !in rest {
          var k :| 0 <= k < |rest| && rest[k] < j < rest[k] + 5;
          assert s[k + 1] == rest[k];
        }
      }
    } else {
      StartsCover(lines, i + 1, j);
    }
  }

  // ---------------------------------------------------------------------------
  // What the scan returns

  /** A block's record read back: its date, payee, purpose and kind are the
      block's lines, its amount is what the reader made of the amount line,
      and its category is empty. */
  predicate FromBlock(lines: seq<string>, start: nat, r: Transaction, read: Reader) {
    && start + 4 < |lines|
    && read(lines[start + 1]) == Converted(r.amount)
    && r == Block(lines, start, r.amount)
  }

  /** A successful scan gives one record per block, in block order, each read
      from its own window. */
  lemma {:induction false} ScanRecords(lines: seq<string>, i: nat, read: Reader)
    requires Scan(lines, i, read).Parsed?
    ensures |Scan(lines, i, read).records| == |Starts(lines, i)|
    ensures forall k :: 0 <= k < |Starts(lines, i)| ==>
      FromBlock(lines, Starts(lines, i)[k], Scan(lines, i, read).records[k], read)
    decreases |lines| - i
  {
    if i + 4 < |lines| {
      if IsDateLine(lines[i]) {
        var amount := read(lines[i + 1]).value;
        ScanRecords(lines, i + 5, read);
        var rest, starts := Scan(lines, i + 5, read).records, Starts(lines, i + 5);
        assert Scan(lines, i, read).records == [Block(lines, i, amount)] + rest;
        assert Starts(lines, i) == [i] + starts;
        assert FromBlock(lines, i, Block(lines, i, amount), read);
      } else {
        ScanRecords(lines, i + 1, read);
      }
    }
  }

  /** The reader accepts the amount line of every block in `starts`. */
  predicate AllConverted(lines: seq<string>, starts: seq<nat>, read: Reader) {
    forall k :: 0 <= k < |starts| ==> starts[k] + 1 < |lines| && read(lines[starts[k] + 1]).Converted?
  }

  /** Block `k` of `starts` is the first whose amount line is rejected. */
  predicate FirstRejected(lines: seq<string>, starts: seq<nat>, k: nat, read: Reader) {
    && k < |starts| && starts[k] + 1 < |lines|
    && read(lines[starts[k] + 1]).Rejected?
    && AllConverted(lines, starts[..k], read)
  }

  lemma {:induction false} AllConvertedCons(lines: seq<string>, p: nat, starts: seq<nat>, read: Reader)
    ensures AllConverted(lines, [p] + starts, read)
      <==> p + 1 < |lines| && read(lines[p + 1]).Converted? && AllConverted(lines, starts, read)
  {
    var all := [p] + starts;
    assert all[0] == p;
    assert forall k :: 0 <= k < |starts| ==> all[k + 1] == starts[k];
    if p + 1 < |lines| && read(lines[p + 1]).Converted? && AllConverted(lines, starts, read) {
      forall k | 0 < k < |all|
        ensures all[k] + 1 < |lines| && read(lines[all[k] + 1]).Converted?
      {
        assert all[k] == starts[k - 1];
      }
    }
  }

  lemma {:induction false} FirstRejectedCons(lines: seq<string>, p: nat, starts: seq<nat>, k: nat, read: Reader)
    requires p + 1 < |lines| && read(lines[p + 1]).Converted?
    requires FirstRejected(lines, starts, k, read)
    ensures FirstRejected(lines, [p] + starts, k + 1, read)
  {
    assert ([p] + starts)[..k + 1] == [p] + starts[..k];
    assert ([p] + starts)[k + 1] == starts[k];
    AllConvertedCons(lines, p, starts[..k], read);
  }

  /** The scan fails exactly when the amount line of some block is rejected,
      and then it reports the error of the first such block. */
  lemma {:induction false} ScanFails(lines: seq<string>, i: nat, read: Reader)
    ensures Scan(lines, i, read).Parsed? <==> AllConverted(lines, Starts(lines, i), read)
    ensures Scan(lines, i, read).ValueError? ==> exists k: nat ::
      (FirstRejected(lines, Starts(lines, i), k, read)
        && Scan(lines, i, read).arg == read(lines[Starts(lines, i)[k] + 1]).arg)
  {
    ScanParsedIff(lines, i, read);
    if Scan(lines, i, read).ValueError? {
      var k := ScanErrorAt(lines, i, read);
    }
  }

  lemma {:induction false} ScanParsedIff(lines: seq<string>, i: nat, read: Reader)
    ensures Scan(lines, i, read).Parsed? <==> AllConverted(lines, Starts(lines, i), read)
    decreases |lines| - i
  {
    if i + 4 < |lines| {
      if IsDateLine(lines[i]) {
        var starts := Starts(lines, i + 5);
        assert Starts(lines, i) == [i] + starts;
        AllConvertedCons(lines, i, starts, read);
        if read(lines[i + 1]).Converted? {
          ScanParsedIff(lines, i + 5, read);
        }
      } else {
        ScanParsedIff(lines, i + 1, read);
      }
    }
  }

  /** A failed scan names the first block whose amount line is rejected. */
  lemma {:induction false} ScanErrorAt(lines: seq<string>, i: nat, read: Reader) returns (k: nat)
    requires Scan(lines, i, read).ValueError?
    ensures FirstRejected(lines, Starts(lines, i), k, read)
    ensures Scan(lines, i, read).arg == read(lines[Starts(lines, i)[k] + 1]).arg
    decreases |lines| - i
  {
    assert i + 4 < |lines|;
    if IsDateLine(lines[i]) {
      var starts := Starts(lines, i + 5);
      var all := [i] + starts;
      assert Starts(lines, i) == all;
      if read(lines[i + 1]).Rejected? {
        assert all[..0] == [];
        assert AllConverted(lines, all[..0], read);
        k := 0;
      } else {
        var rest := Scan(lines, i + 5, read);
        assert Scan(lines, i, read) == Extend([Block(lines, i, read(lines[i + 1]).value)], rest);
        var j := ScanErrorAt(lines, i + 5, read);
        FirstRejectedCons(lines, i, starts, j, read);
        assert all[j + 1] == starts[j];
        k := j + 1;
      }
    } else {
      assert Starts(lines, i) == Starts(lines, i + 1);
      k := ScanErrorAt(lines, i + 1, read);
    }
  }

  // ---------------------------------------------------------------------------
  // The parser as a whole

  /** Each record of a parsed report comes from its own block of the cleaned
      lines, in order: the blocks are disjoint date-led windows, the record's
      text fields are the window's lines, its amount is `float()` of the
      normalised amount line, and its category is empty. */
  lemma {:induction false} ParsedFromBlocks(raw: seq<string>)
    requires ParsePostbank(raw).Parsed?
    ensures var lines, starts := Clean(raw), Starts(Clean(raw), 0);
      && |ParsePostbank(raw).records| == |starts|
      && (forall k :: 0 <= k < |starts| ==> starts[k] + 4 < |lines| && IsDateLine(lines[starts[k]]))
      && (forall k :: 0 < k < |starts| ==> starts[k - 1] + 5 <= starts[k])
      && forall k :: 0 <= k < |starts| ==> FromBlock(lines, starts[k], ParsePostbank(raw).records[k], ConvertAmount)
  {
    ScanRecords(Clean(raw), 0, ConvertAmount);
    StartsShape(Clean(raw), 0);
  }

  /** The number of records is at most a fifth of the cleaned lines, and none
      is found in a report of fewer than five non-blank lines. */
  lemma {:induction false} RecordBound(raw: seq<string>)
    requires ParsePostbank(raw).Parsed?
    ensures 5 * |ParsePostbank(raw).records| <= |Clean(raw)|
    ensures |Clean(raw)| < 5 ==> ParsePostbank(raw).records == []
  {
    ScanRecords(Clean(raw), 0, ConvertAmount);
    StartsBound(Clean(raw), 0);
  }

  /** Every record of a parsed report has an empty category. */
  lemma {:induction false} RecordsUncategorized(raw: seq<string>)
    requires ParsePostbank(raw).Parsed?
    ensures forall k :: 0 <= k < |ParsePostbank(raw).records| ==> ParsePostbank(raw).records[k].category == ""
  {
    var lines, records := Clean(raw), ParsePostbank(raw).records;
    ScanRecords(lines, 0, ConvertAmount);
    forall k | 0 <= k < |records| ensures records[k].category == "" {
      assert FromBlock(lines, Starts(lines, 0)[k], records[k], ConvertAmount);
    }
  }

  /** A report of fewer than five non-blank lines parses, without error, to
      no records. */
  lemma {:induction false} ShortReportEmpty(raw: seq<string>)
    ensures |Clean(raw)| < 5 ==> ParsePostbank(raw) == Parsed([])
  {
  }

  /** A report in which no date line has four lines after it parses, without
      error, to no records: no amount line is ever read. */
  lemma {:induction false} NoBlockEmpty(raw: seq<string>)
    requires forall j :: 0 <= j && j + 4 < |Clean(raw)| ==> !IsDateLine(Clean(raw)[j])
    ensures ParsePostbank(raw) == Parsed([])
  {
    ScanNoBlock(Clean(raw), 0, ConvertAmount);
  }

  lemma {:induction false} ScanNoBlock(lines: seq<string>, i: nat, read: Reader)
    requires forall j :: i <= j && j + 4 < |lines| ==> !IsDateLine(lines[j])
    ensures Scan(lines, i, read) == Parsed([])
    decreases |lines| - i
  {
    if i + 4 < |lines| {
      ScanNoBlock(lines, i + 1, read);
    }
  }
}
