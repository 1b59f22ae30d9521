/** "View Total Materials Needed": every stored line is read, and the
    `name:qty` pairs of its `Materials:` field, multiplied by its usage count,
    are added into one insertion-ordered table of totals. */
module Totals {
  import opened Wrappers
  import opened Text
  import opened Numbers
  import opened Tally
  import opened Records

  /** The pair loop's state when it stops: the totals so far, and whether a
      pair raised (which sends the line to the error report). Pairs added
      before the one that raised stay added. */
  datatype Step = Step(table: Table, failed: bool)

  /** The totals after some lines, and the stripped text of every line the
      loop reported as unreadable, in file order. */
  datatype Totals = Totals(table: Table, errors: seq<string>)

  datatype Outcome =
    | NothingToCalculate  // no stored lines at all
    | Report(totals: Totals)

  /** The values of the parses before the first failure. */
  function Leading(results: seq<Option<Amount>>): (r: seq<Amount>)
    ensures |r| <= |results|
  {
    if |results| == 0 || results[0].None? then []
    else [results[0].value] + Leading(results[1..])
  }

  /** `Leading` keeps every parse before the first failure, and stops either
      at the end or at a failure. */
  lemma {:induction false} LeadingSpec(results: seq<Option<Amount>>)
    ensures var r := Leading(results);
      && (forall i :: 0 <= i < |r| ==> results[i] == Some(r[i]))
      && (|r| < |results| ==> results[|r|].None?)
    decreases |results|
  {
    if |results| > 0 && results[0].Some? {
      var rest := Leading(results[1..]);
      LeadingSpec(results[1..]);
      assert forall i :: 1 <= i <= |rest| ==> results[1..][i - 1] == results[i];
    }
  }

  /** The inner `for mat_entry in materials_list` loop over the entries'
      parses: each pair adds `usage * qty` to its material, creating the
      material with 0 first when it is new; the first failed parse ends the
      loop. Parsing has no side effects, so parsing every entry up front and
      walking the parses in order is the same as parsing inside the loop. */
  function Scan(t: Table, usage: int, results: seq<Option<Amount>>): Step
    decreases |results|
  {
    if |results| == 0 then Step(t, false)
    else
      match results[0]
      case None => Step(t, true)
      case Some(a) => Scan(Add(t, a.material, usage * a.quantity), usage, results[1..])
  }

  /** One pass of the outer loop: a line without `|` is skipped silently; a
      line whose fields cannot be read fails before touching the totals; a
      readable line runs the pair loop over its entries. */
  function ProcessLine(t: Table, line: string): Step {
    match ReadHead(line)
    case NotARecord => Step(t, false)
    case Unreadable => Step(t, true)
    case Readable(usage, entries) => Scan(t, usage, ParseEach(entries))
  }

  /** The outer `for line in lines` loop from some starting state, with the
      work done for one line as a parameter: its table replaces the running
      one, and a failed line's stripped text is appended to the report. */
  function Run(acc: Totals, lines: seq<string>, process: (Table, string) -> Step): Totals
    decreases |lines|
  {
    if |lines| == 0 then acc
    else
      var s := process(acc.table, lines[0]);
      Run(Totals(s.table, acc.errors + (if s.failed then [Strip(lines[0])] else [])), lines[1..], process)
  }

  /** The loop from an empty dict. */
  function Aggregate(lines: seq<string>): Totals {
    Run(Totals([], []), lines, ProcessLine)
  }

  /** `calculate_total_materials` on the lines read from the store. */
  function CalculateTotals(lines: seq<string>): (r: Outcome)
    ensures r.NothingToCalculate? <==> |lines| == 0
  {
    if |lines| == 0 then NothingToCalculate else Report(Aggregate(lines))
  }

  // ---------------------------------------------------------------------------
  // Reference: what each line contributes

  /** The amounts a line adds to the totals: its usage times every pair
      before the first one that does not parse. */
  function Contribution(line: string): seq<Amount> {
    match ReadHead(line)
    case Readable(usage, entries) => Scale(usage, Leading(ParseEach(entries)))
    case _ => []
  }

  /** The line is reported as unreadable. */
  predicate Fails(line: string) {
    match ReadHead(line)
    case NotARecord => false
    case Unreadable => true
    case Readable(_, entries) => |Leading(ParseEach(entries))| < |entries|
  }

  /** Everything the lines contribute, in file order. */
  function Contributions(lines: seq<string>): seq<Amount> {
    Concat(lines, Contribution)
  }

  /** The stripped failing lines, in file order. */
  function Errors(lines: seq<string>): seq<string> {
    Reported(lines, Fails)
  }

  function Concat(lines: seq<string>, contribution: string -> seq<Amount>): seq<Amount>
    decreases |lines|
  {
    if |lines| == 0 then [] else contribution(lines[0]) + Concat(lines[1..], contribution)
  }

  function Reported(lines: seq<string>, fails: string -> bool): seq<string>
    decreases |lines|
  {
    if |lines| == 0 then []
    else (if fails(lines[0]) then [Strip(lines[0])] else []) + Reported(lines[1..], fails)
  }

  // ---------------------------------------------------------------------------
  // The loops against the reference

  /** The pair loop adds the usage times each pair before the first failure,
      and fails exactly when some entry does not parse. */
  lemma {:induction false} ScanAddsLeading(t: Table, usage: int, results: seq<Option<Amount>>)
    ensures Scan(t, usage, results)
         == Step(AddAll(t, Scale(usage, Leading(results))), |Leading(results)| < |results|)
    decreases |results|
  {
    if |results| > 0 && results[0].Some? {
      var a := results[0].value;
      var rest := Leading(results[1..]);
      ScanAddsLeading(Add(t, a.material, usage * a.quantity), usage, results[1..]);
      ScaleCons(usage, a, rest);
    }
  }

  /** One line adds its contribution and fails exactly when `Fails` says so. */
  lemma ProcessLineSpec(t: Table, line: string)
    ensures ProcessLine(t, line) == Step(AddAll(t, Contribution(line)), Fails(line))
  {
    match ReadHead(line)
    case NotARecord =>
    case Unreadable =>
    case Readable(usage, entries) =>
      ScanAddsLeading(t, usage, ParseEach(entries));
  }

  /** The outer loop adds every line's contribution in file order and reports
      the failing lines in file order, whatever one line's work is, as long as
      it adds a contribution and fails by a rule that ignores the table. */
  lemma {:induction false} RunSpec(acc: Totals, lines: seq<string>, process: (Table, string) -> Step,
                                   contribution: string -> seq<Amount>, fails: string -> bool)
    requires forall t, line :: process(t, line) == Step(AddAll(t, contribution(line)), fails(line))
    ensures Run(acc, lines, process)
         == Totals(AddAll(acc.table, Concat(lines, contribution)), acc.errors + Reported(lines, fails))
    decreases |lines|
  {
    if |lines| == 0 {
      assert acc.errors + [] == acc.errors;
    } else {
      var c := contribution(lines[0]);
      var e := if fails(lines[0]) then [Strip(lines[0])] else [];
      var next := Totals(AddAll(acc.table, c), acc.errors + e);
      var rest := lines[1..];
      calc {
        Run(acc, lines, process);
        Run(next, rest, process);
        { RunSpec(next, rest, process, contribution, fails); }
        Totals(AddAll(next.table, Concat(rest, contribution)), next.errors + Reported(rest, fails));
        { AddAllAppend(acc.table, c, Concat(rest, contribution));
          assert next.errors + Reported(rest, fails) == acc.errors + (e + Reported(rest, fails)); }
        Totals(AddAll(acc.table, Concat(lines, contribution)), acc.errors + Reported(lines, fails));
      }
    }
  }

  /** The totals add every line's contribution to an empty table, and the
      report lists the failing lines. */
  lemma AggregateSpec(lines: seq<string>)
    ensures Aggregate(lines) == Totals(AddAll([], Contributions(lines)), Errors(lines))
  {
    EveryLineSpec(ProcessLine, Contribution, Fails);
    RunSpec(Totals([], []), lines, ProcessLine, Contribution, Fails);
  }

  /** `ProcessLine` meets the condition `RunSpec` places on one line's work. */
  lemma EveryLineSpec(process: (Table, string) -> Step, contribution: string -> seq<Amount>, fails: string -> bool)
    requires process == ProcessLine && contribution == Contribution && fails == Fails
    ensures forall t, line :: process(t, line) == Step(AddAll(t, contribution(line)), fails(line))
  {
    forall t, line
      ensures ProcessLine(t, line) == Step(AddAll(t, Contribution(line)), Fails(line))
    {
      ProcessLineSpec(t, line);
    }
  }

  /** Each material's total is the sum over all lines of usage times its
      per-craft quantity, counting only the pairs before a line's first bad
      pair. */
  lemma AggregateGet(lines: seq<string>, m: string)
    ensures Get(Aggregate(lines).table, m) == SumFor(Contributions(lines), m)
  {
    AggregateSpec(lines);
    AddAllGet([], Contributions(lines), m);
  }

  /** The totals list each contributed material once, in order of first
      appearance. */
  lemma AggregateNames(lines: seq<string>)
    ensures Names(Aggregate(lines).table) == NewNames({}, Names(Contributions(lines)))
  {
    AggregateSpec(lines);
    AddAllNames([], Contributions(lines));
    assert Seen(Names([])) == {};
  }

  lemma {:induction false} ConcatAppend(a: seq<string>, b: seq<string>, contribution: string -> seq<Amount>)
    ensures Concat(a + b, contribution) == Concat(a, contribution) + Concat(b, contribution)
    decreases |a|
  {
    if |a| == 0 {
      assert a + b == b;
    } else {
      assert (a + b)[0] == a[0] && (a + b)[1..] == a[1..] + b;
      ConcatAppend(a[1..], b, contribution);
    }
  }

  lemma {:induction false} ReportedAppend(a: seq<string>, b: seq<string>, fails: string -> bool)
    ensures Reported(a + b, fails) == Reported(a, fails) + Reported(b, fails)
    decreases |a|
  {
    if |a| == 0 {
      assert a + b == b;
    } else {
      var h := if fails(a[0]) then [Strip(a[0])] else [];
      assert (a + b)[0] == a[0] && (a + b)[1..] == a[1..] + b;
      ReportedAppend(a[1..], b, fails);
      assert Reported(a + b, fails) == h + Reported(a[1..] + b, fails);
      assert h + (Reported(a[1..], fails) + Reported(b, fails)) == (h + Reported(a[1..], fails)) + Reported(b, fails);
    }
  }

  /** Totals are additive over the store: the totals of two runs of lines
      sum material by material. */
  lemma AggregateAppendGet(a: seq<string>, b: seq<string>, m: string)
    ensures Get(Aggregate(a + b).table, m) == Get(Aggregate(a).table, m) + Get(Aggregate(b).table, m)
  {
    ConcatAppend(a, b, Contribution);
    AggregateGet(a + b, m);
    AggregateGet(a, m);
    AggregateGet(b, m);
    SumForAppend(Contributions(a), Contributions(b), m);
  }

  /** After two runs of lines, the first run's materials come first and the
      second run's new ones follow in their own order. */
  lemma AggregateAppendNames(a: seq<string>, b: seq<string>)
    ensures Names(Aggregate(a + b).table)
         == Names(Aggregate(a).table) + Without(Names(Aggregate(b).table), Seen(Names(Aggregate(a).table)))
  {
    EveryLineSpec(ProcessLine, Contribution, Fails);
    RunAppendNames(a, b, ProcessLine, Contribution, Fails);
  }

  /** `AggregateAppendNames` for any per-line work that adds a contribution. */
  lemma RunAppendNames(a: seq<string>, b: seq<string>, process: (Table, string) -> Step,
                       contribution: string -> seq<Amount>, fails: string -> bool)
    requires forall t, line :: process(t, line) == Step(AddAll(t, contribution(line)), fails(line))
    ensures var start := Totals([], []);
      Names(Run(start, a + b, process).table)
        == Names(Run(start, a, process).table)
           + Without(Names(Run(start, b, process).table), Seen(Names(Run(start, a, process).table)))
  {
    var start := Totals([], []);
    var ca, cb := Concat(a, contribution), Concat(b, contribution);
    RunSpec(start, a + b, process, contribution, fails);
    RunSpec(start, a, process, contribution, fails);
    RunSpec(start, b, process, contribution, fails);
    ConcatAppend(a, b, contribution);
    AddAllNames([], ca + cb);
    AddAllNames([], ca);
    AddAllNames([], cb);
    assert Seen(Names([])) == {};
    NamesAppend(ca, cb);
    NamesCombine(AddAll([], ca), AddAll([], cb), AddAll([], ca + cb), Names(ca), Names(cb));
  }

  lemma NamesCombine(ta: Table, tb: Table, tab: Table, na: seq<string>, nb: seq<string>)
    requires Names(ta) == NewNames({}, na) && Names(tb) == NewNames({}, nb)
    requires Names(tab) == NewNames({}, na + nb)
    ensures Names(tab) == Names(ta) + Without(Names(tb), Seen(Names(ta)))
  {
    FreshNamesAppend(na, nb);
  }

  lemma FreshNamesAppend(na: seq<string>, nb: seq<string>)
    ensures NewNames({}, na + nb) == NewNames({}, na) + Without(NewNames({}, nb), Seen(NewNames({}, na)))
  {
    NewNamesAppend({}, na, nb);
    NewNamesWithout(Seen(na), {}, nb);
    SeenNewNames({}, na);
    assert {} + Seen(na) == Seen(na) + {};
    assert Seen(na) - {} == Seen(na);
  }

  /** The error report of two runs of lines is the first run's followed by
      the second's. */
  lemma AggregateAppendErrors(a: seq<string>, b: seq<string>)
    ensures Aggregate(a + b).errors == Aggregate(a).errors + Aggregate(b).errors
  {
    ReportedAppend(a, b, Fails);
    AggregateSpec(a + b);
    AggregateSpec(a);
    AggregateSpec(b);
  }

  // ---------------------------------------------------------------------------
  // What single lines do

  /** A line without `|` changes nothing and is not reported. */
  lemma NoBarSkipped(t: Table, line: string)
    requires '|' !in line
    ensures ProcessLine(t, line) == Step(t, false)
  {
  }

  /** A line that holds `|` but no `Usage:` (or no `Materials:`) anywhere is
      reported and changes nothing. */
  lemma MissingLabelFails(t: Table, line: string)
    requires '|' in line
    requires !Contains(line, UsageLabel) || !Contains(line, MaterialsLabel)
    ensures ProcessLine(t, line) == Step(t, true)
  {
    var fields := Split(Strip(line), '|');
    if !Contains(line, UsageLabel) {
      FieldsLack(line, UsageLabel);
    } else {
      FieldsLack(line, MaterialsLabel);
    }
  }

  /** No field of the stripped line holds a pattern the line lacks. */
  lemma FieldsLack(line: string, p: string)
    requires !Contains(line, p)
    ensures FirstContaining(Split(Strip(line), '|'), p).None?
  {
    StripLacks(line, p);
    SplitPartsLack(Strip(line), '|', p);
    FirstContainingNone(Split(Strip(line), '|'), p);
  }

  /** The pieces of a split hold no pattern the text lacks. */
  lemma SplitPartsLack(s: string, sep: char, p: string)
    requires !Contains(s, p)
    ensures forall k :: 0 <= k < |Split(s, sep)| ==> !Contains(Split(s, sep)[k], p)
  {
    forall k | 0 <= k < |Split(s, sep)|
      ensures !Contains(Split(s, sep)[k], p)
    {
      if Contains(Split(s, sep)[k], p) {
        SplitPartContained(s, sep, k, p);
      }
    }
  }

  /** A pattern in one piece of a split is in the text. */
  lemma {:induction false} SplitPartContained(s: string, sep: char, k: int, p: string)
    requires 0 <= k < |Split(s, sep)| && Contains(Split(s, sep)[k], p)
    ensures Contains(s, p)
    decreases |s|
  {
    var parts := Split(s, sep);
    if |s| > 0 {
      var rest := Split(s[1..], sep);
      if s[0] == sep {
        assert parts == [""] + rest;
        if k == 0 {
          assert s[..0] == parts[0];
          ContainsInPrefix(s, 0, p);
        } else {
          assert parts[k] == rest[k - 1];
          SplitPartContained(s[1..], sep, k - 1, p);
          ContainsInSuffix(s, 1, p);
        }
      } else {
        assert parts == [[s[0]] + rest[0]] + rest[1..];
        if k == 0 {
          assert parts[0] == s[..|parts[0]|];
          ContainsInPrefix(s, |parts[0]|, p);
        } else {
          assert parts[k] == rest[k];
          SplitPartContained(s[1..], sep, k, p);
          ContainsInSuffix(s, 1, p);
        }
      }
    }
  }

  /** A readable line whose entries parse up to a bad one keeps the pairs
      before it in the totals and is reported. */
  lemma BadPairKeepsPrefix(t: Table, line: string, usage: int, entries: seq<string>, k: int, before: seq<Amount>)
    requires ReadHead(line) == Readable(usage, entries)
    requires 0 <= k < |entries| && ParseAll(entries[..k]) == Some(before) && ParseEntry(entries[k]).None?
    ensures ProcessLine(t, line) == Step(AddAll(t, Scale(usage, before)), true)
  {
    ReadableLine(t, line, usage, entries);
    ScanBadPair(t, usage, entries, k, before);
  }

  /** A readable line runs the pair loop over its entries' parses. */
  lemma ReadableLine(t: Table, line: string, usage: int, entries: seq<string>)
    requires ReadHead(line) == Readable(usage, entries)
    ensures ProcessLine(t, line) == Scan(t, usage, ParseEach(entries))
  {
  }

  lemma ScanBadPair(t: Table, usage: int, entries: seq<string>, k: int, before: seq<Amount>)
    requires 0 <= k < |entries| && ParseAll(entries[..k]) == Some(before) && ParseEntry(entries[k]).None?
    ensures Scan(t, usage, ParseEach(entries)) == Step(AddAll(t, Scale(usage, before)), true)
  {
    var rs := ParseEach(entries);
    ParseEachPrefix(entries, k);
    LeadingUpTo(rs, k, before);
    ScanAddsLeading(t, usage, rs);
  }

  /** The leading values are `before` when the first `k` parses give it and
      the next one fails. */
  lemma LeadingUpTo(results: seq<Option<Amount>>, k: int, before: seq<Amount>)
    requires 0 <= k < |results| && Collect(results[..k]) == Some(before) && results[k].None?
    ensures Leading(results) == before && |before| == k
  {
    CollectSome(results[..k], before);
    assert forall i :: 0 <= i < k ==> results[i] == results[..k][i];
    LeadingSpec(results);
  }

  /** A readable line whose entries all parse adds all of them and is not
      reported. */
  lemma GoodLineAddsAll(t: Table, line: string, usage: int, entries: seq<string>, amounts: seq<Amount>)
    requires ReadHead(line) == Readable(usage, entries) && ParseAll(entries) == Some(amounts)
    ensures ProcessLine(t, line) == Step(AddAll(t, Scale(usage, amounts)), false)
  {
    ReadableLine(t, line, usage, entries);
    ScanGoodPairs(t, usage, entries, amounts);
  }

  lemma ScanGoodPairs(t: Table, usage: int, entries: seq<string>, amounts: seq<Amount>)
    requires ParseAll(entries) == Some(amounts)
    ensures Scan(t, usage, ParseEach(entries)) == Step(AddAll(t, Scale(usage, amounts)), false)
  {
    var rs := ParseEach(entries);
    LeadingAll(rs, amounts);
    ScanAddsLeading(t, usage, rs);
  }

  lemma LeadingAll(results: seq<Option<Amount>>, amounts: seq<Amount>)
    requires Collect(results) == Some(amounts)
    ensures Leading(results) == amounts && |amounts| == |results|
  {
    CollectSome(results, amounts);
    LeadingSpec(results);
  }

  // ---------------------------------------------------------------------------
  // Lines written by the Add flow

  /** The trailing newline the store adds does not change how a line reads. */
  lemma ReadHeadNewline(line: string)
    ensures ReadHead(line + "\n") == ReadHead(line)
  {
    NewlineFacts(line);
    SameReadHead(line + "\n", line);
  }

  lemma NewlineFacts(line: string)
    ensures Strip(line + "\n") == Strip(line) && ('|' in line + "\n") == ('|' in line)
  {
    StripNewline(line);
    assert '|' !in "\n";
  }

  lemma StripNewline(line: string)
    ensures Strip(line + "\n") == Strip(line)
  {
    StripPadded("", line, "\n");
    assert "" + line + "\n" == line + "\n";
  }

  /** `ReadHead` looks only at whether there is a `|` and at the stripped text. */
  lemma SameReadHead(a: string, b: string)
    requires ('|' in a) == ('|' in b) && Strip(a) == Strip(b)
    ensures ReadHead(a) == ReadHead(b)
  {
  }

  /** A saved blueprint adds its usage times each per-craft quantity to the
      totals, in order, and is not reported. */
  lemma SavedLineAdds(t: Table, name: string, usage: int, perCraft: seq<Amount>)
    requires ItemNameFits(name) && |perCraft| > 0 && MaterialsFit(perCraft)
    ensures ProcessLine(t, FormatLine(name, usage, perCraft) + "\n")
         == Step(AddAll(t, Scale(usage, perCraft)), false)
  {
    var line := FormatLine(name, usage, perCraft);
    FormatLineReads(name, usage, perCraft);
    ReadHeadNewline(line);
    GoodLineAddsAll(t, line + "\n", usage, ReadHead(line).entries, perCraft);
  }

  /** A saved blueprint contributes its usage times each per-craft quantity,
      in order, and is not reported. */
  lemma SavedLineContributes(name: string, usage: int, perCraft: seq<Amount>)
    requires ItemNameFits(name) && |perCraft| > 0 && MaterialsFit(perCraft)
    ensures Contribution(FormatLine(name, usage, perCraft) + "\n") == Scale(usage, perCraft)
    ensures !Fails(FormatLine(name, usage, perCraft) + "\n")
  {
    var line := FormatLine(name, usage, perCraft);
    FormatLineReads(name, usage, perCraft);
    ReadHeadNewline(line);
    LeadingAll(ParseEach(ReadHead(line).entries), perCraft);
  }

  /** A record whose usage text is not an integer is reported and changes
      nothing. */
  lemma BadUsageFails(t: Table, name: string, usageText: string, materialsText: string, totalText: string)
    requires ItemNameFits(name)
    requires '|' !in usageText && '|' !in materialsText && '|' !in totalText
    requires !Contains(usageText, UsageLabel) && !Contains(usageText, MaterialsLabel)
    requires !Contains(materialsText, MaterialsLabel)
    requires ParseInt(Strip(usageText)).None?
    ensures ProcessLine(t, RecordLine(name, usageText, materialsText, totalText)) == Step(t, true)
  {
    RecordLayout(name, usageText, materialsText, totalText);
  }

  /** An item with no materials would be saved with an empty `Materials:`
      field, which reads as one empty pair: the line is reported and adds
      nothing. */
  lemma NoMaterialsFails(t: Table, name: string, usage: int)
    requires ItemNameFits(name)
    ensures ProcessLine(t, FormatLine(name, usage, [])) == Step(t, true)
  {
    EmptyRecordReads(name, usage);
    ReadableLine(t, FormatLine(name, usage, []), usage, [""]);
    EmptyEntryFails(t, usage);
  }

  lemma EmptyRecordReads(name: string, usage: int)
    requires ItemNameFits(name)
    ensures ReadHead(FormatLine(name, usage, [])) == Readable(usage, [""])
  {
    assert FormatLine(name, usage, []) == RecordLine(name, IntToString(usage), "", "") by {
      assert Render([]) == [] && Scale(usage, []) == [] && Render(Scale(usage, [])) == [];
    }
    UsageTextFits(usage);
    assert !Contains("", MaterialsLabel);
    RecordLayout(name, IntToString(usage), "", "");
    UsageTextTrimmed(usage);
    ParseIntToString(usage);
    assert Split(Strip(""), ',') == [""] by {
      assert AllSpace("");
      SplitWithoutSep("", ',');
    }
  }

  /** An empty entry does not parse, so the pair loop fails at once. */
  lemma EmptyEntryFails(t: Table, usage: int)
    ensures Scan(t, usage, ParseEach([""])) == Step(t, true)
  {
    assert ParseEntry("").None? by {
      assert AllSpace("");
      SplitWithoutSep("", ':');
    }
    assert ParseEach([""])[0] == ParseEntry("");
  }

  /** A saved blueprint with distinct materials, alone in the store, gives
      totals of its usage times each per-craft quantity, in order. */
  lemma FirstSavedLine(line: string, name: string, usage: int, perCraft: seq<Amount>)
    requires ItemNameFits(name) && |perCraft| > 0 && MaterialsFit(perCraft) && Distinct(Names(perCraft))
    requires line == FormatLine(name, usage, perCraft) + "\n"
    ensures Aggregate([line]) == Totals(Scale(usage, perCraft), [])
  {
    SavedLineAdds([], name, usage, perCraft);
    AddAllFresh([], Scale(usage, perCraft));
    assert [] + Scale(usage, perCraft) == Scale(usage, perCraft);
    SingleLine(line, Scale(usage, perCraft));
  }

  /** A store of one line that processes without failure. */
  lemma SingleLine(line: string, table: Table)
    requires ProcessLine([], line) == Step(table, false)
    ensures Aggregate([line]) == Totals(table, [])
  {
    assert [line][1..] == [];
    var acc := Totals(table, [] + []);
    assert acc == Totals(table, []);
    assert Run(acc, [], ProcessLine) == acc;
  }
}
