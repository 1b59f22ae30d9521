/** One stored blueprint line: how the Add flow writes it, and how the totals
    computation reads its `Usage:` and `Materials:` fields back. */
module Records {
  import opened Wrappers
  import opened Text
  import opened Numbers
  import opened Tally

  const UsageLabel: string := "Usage:"
  const MaterialsLabel: string := "Materials:"

  /** `f"{mat}:{qty}"` for each pair, in order. */
  function Render(amounts: seq<Amount>): seq<string> {
    seq(|amounts|, i requires 0 <= i < |amounts| => amounts[i].material + ":" + IntToString(amounts[i].quantity))
  }

  /** The line's f-string with its four holes filled by ready-made text. */
  function RecordLine(name: string, usageText: string, materialsText: string, totalText: string): string {
    name + " | Usage: " + usageText + " | Materials: " + materialsText + " | Total: " + totalText
  }

  /** The line saved for one blueprint: the `Materials:` list shows the
      per-craft quantities and the `Total:` list the same materials with each
      quantity multiplied by the usage count, both joined with ", ". */
  function FormatLine(name: string, usage: int, perCraft: seq<Amount>): string {
    RecordLine(name, IntToString(usage), Join(Render(perCraft), ", "), Join(Render(Scale(usage, perCraft)), ", "))
  }

  /** `material_quantities`: `material_quantities[material] = qty` for each
      required material in catalog order. */
  function PerCraft(materials: seq<string>, quantities: seq<int>): Table
    requires |quantities| == |materials|
  {
    PerCraftInto([], materials, quantities)
  }

  function PerCraftInto(t: Table, materials: seq<string>, quantities: seq<int>): Table
    requires |quantities| == |materials|
    decreases |materials|
  {
    if |materials| == 0 then t
    else PerCraftInto(Put(t, materials[0], quantities[0]), materials[1..], quantities[1..])
  }

  /** The materials paired with their quantities, position by position. */
  function Zip(materials: seq<string>, quantities: seq<int>): (r: seq<Amount>)
    requires |quantities| == |materials|
    ensures |r| == |materials| && Names(r) == materials
  {
    seq(|materials|, i requires 0 <= i < |materials| => Amount(materials[i], quantities[i]))
  }

  /** The fields the totals computation needs from one stored line. */
  datatype LineHead =
    | NotARecord                                 // no `|` anywhere: skipped silently
    | Unreadable                                 // a field missing, or a usage that is not an integer
    | Readable(usage: int, entries: seq<string>) // the usage and the comma-separated `name:qty` texts

  /** `[p for p in fields if marker in p][0]`; None where that raises IndexError. */
  function FirstContaining(fields: seq<string>, marker: string): Option<string> {
    if |fields| == 0 then None
    else if Contains(fields[0], marker) then Some(fields[0])
    else FirstContaining(fields[1..], marker)
  }

  lemma {:induction false} FirstContainingNone(fields: seq<string>, marker: string)
    requires forall k :: 0 <= k < |fields| ==> !Contains(fields[k], marker)
    ensures FirstContaining(fields, marker).None?
    decreases |fields|
  {
    if |fields| > 0 {
      assert forall k :: 0 <= k < |fields| - 1 ==> fields[1..][k] == fields[k + 1];
      FirstContainingNone(fields[1..], marker);
    }
  }

  /** `FirstContaining` finds the field at the least index holding the marker,
      and nothing when no field holds it. */
  lemma {:induction false} FirstContainingSpec(fields: seq<string>, marker: string)
    ensures FirstContaining(fields, marker).None? <==> forall k :: 0 <= k < |fields| ==> !Contains(fields[k], marker)
    ensures FirstContaining(fields, marker).Some? ==>
              exists k :: 0 <= k < |fields| && FirstContaining(fields, marker).value == fields[k]
                && Contains(fields[k], marker) && forall j :: 0 <= j < k ==> !Contains(fields[j], marker)
    decreases |fields|
  {
    if |fields| > 0 && !Contains(fields[0], marker) {
      FirstContainingSpec(fields[1..], marker);
      assert forall k :: 1 <= k < |fields| ==> fields[1..][k - 1] == fields[k];
      if FirstContaining(fields, marker).Some? {
        var k :| 0 <= k < |fields[1..]| && FirstContaining(fields, marker).value == fields[1..][k]
          && Contains(fields[1..][k], marker) && forall j :: 0 <= j < k ==> !Contains(fields[1..][j], marker);
        assert forall j :: 1 <= j < k + 1 ==> fields[j] == fields[1..][j - 1];
        assert FirstContaining(fields, marker).value == fields[k + 1];
      }
    } else if |fields| > 0 {
      assert FirstContaining(fields, marker).value == fields[0];
    }
  }

  /** The part of the totals loop that reads a line before its pairs:
      skip a line without `|`; split the stripped line on `|`; take the first
      field containing `Usage:` and the first containing `Materials:`; remove
      every occurrence of the label, strip, read the usage with `int()` and
      split the materials text on `,`. */
  function ReadHead(line: string): LineHead {
    if '|' !in line then NotARecord else ReadFields(Split(Strip(line), '|'))
  }

  /** `ReadHead` once the stripped line has been split into its fields. */
  function ReadFields(fields: seq<string>): LineHead {
    match (FirstContaining(fields, UsageLabel), FirstContaining(fields, MaterialsLabel))
    case (Some(usageField), Some(materialsField)) =>
      (match ParseInt(Strip(RemoveAll(usageField, UsageLabel)))
       case Some(u) => Readable(u, Split(Strip(RemoveAll(materialsField, MaterialsLabel)), ','))
       case None => Unreadable)
    case _ => Unreadable
  }

  /** One `name:qty` text: `name, qty = entry.strip().split(":")` then
      `int(qty)`; None where either raises ValueError. */
  function ParseEntry(entry: string): (r: Option<Amount>)
    ensures r.Some? ==> ':' !in r.value.material
  {
    var pieces := Split(Strip(entry), ':');
    if |pieces| != 2 then None
    else
      match ParseInt(pieces[1])
      case Some(q) => Some(Amount(pieces[0], q))
      case None => None
  }

  /** Each entry's parse, position by position. */
  function ParseEach(entries: seq<string>): seq<Option<Amount>> {
    seq(|entries|, i requires 0 <= i < |entries| => ParseEntry(entries[i]))
  }

  lemma ParseEachPrefix(entries: seq<string>, k: nat)
    requires k <= |entries|
    ensures ParseEach(entries[..k]) == ParseEach(entries)[..k]
  {
  }

  /** The values of a list of parses when every one succeeded. */
  function Collect(results: seq<Option<Amount>>): Option<seq<Amount>> {
    if |results| == 0 then Some([])
    else
      match (results[0], Collect(results[1..]))
      case (Some(a), Some(rest)) => Some([a] + rest)
      case _ => None
  }

  /** Every entry parses, or None. */
  function ParseAll(entries: seq<string>): Option<seq<Amount>> {
    Collect(ParseEach(entries))
  }

  /** `Collect` gives exactly the list whose elements every parse holds. */
  lemma {:induction false} CollectSome(results: seq<Option<Amount>>, amounts: seq<Amount>)
    ensures Collect(results) == Some(amounts)
        <==> |amounts| == |results| && forall i :: 0 <= i < |results| ==> results[i] == Some(amounts[i])
    decreases |results|
  {
    if |results| > 0 {
      if |amounts| > 0 {
        CollectSome(results[1..], amounts[1..]);
        assert [amounts[0]] + amounts[1..] == amounts;
        if |amounts| == |results| && forall i :: 0 <= i < |results| ==> results[i] == Some(amounts[i]) {
          assert results[0] == Some(amounts[0]);
          forall i | 0 <= i < |results| - 1
            ensures results[1..][i] == Some(amounts[1..][i])
          {
            assert results[i + 1] == Some(amounts[i + 1]);
          }
        }
        if Collect(results) == Some(amounts) {
          forall i | 0 <= i < |results|
            ensures results[i] == Some(amounts[i])
          {
            if i > 0 {
              assert results[1..][i - 1] == results[i];
            }
          }
        }
      }
    }
  }

  /** `Collect` fails exactly when some parse failed. */
  lemma {:induction false} CollectNone(results: seq<Option<Amount>>)
    ensures Collect(results).None? <==> exists i :: 0 <= i < |results| && results[i].None?
    decreases |results|
  {
    if |results| > 0 {
      CollectNone(results[1..]);
      if i :| 1 <= i < |results| && results[i].None? {
        assert results[1..][i - 1].None?;
      }
      if i :| 0 <= i < |results[1..]| && results[1..][i].None? {
        assert results[i + 1].None?;
      }
    }
  }

  /** `ParseAll` returns exactly the list each entry parses to, in order. */
  lemma ParseAllSome(entries: seq<string>, amounts: seq<Amount>)
    ensures ParseAll(entries) == Some(amounts)
        <==> |amounts| == |entries| && forall i :: 0 <= i < |entries| ==> ParseEntry(entries[i]) == Some(amounts[i])
  {
    CollectSome(ParseEach(entries), amounts);
  }

  /** `ParseAll` fails exactly when some entry does not parse. */
  lemma ParseAllNone(entries: seq<string>)
    ensures ParseAll(entries).None? <==> exists i :: 0 <= i < |entries| && ParseEntry(entries[i]).None?
  {
    CollectNone(ParseEach(entries));
    var rs := ParseEach(entries);
    if i :| 0 <= i < |entries| && ParseEntry(entries[i]).None? {
      assert rs[i].None?;
    }
  }

  // ---------------------------------------------------------------------------
  // Names that survive the round trip

  /** An item name that leaves the line's fields where the totals computation
      looks for them. */
  predicate ItemNameFits(name: string) {
    '|' !in name && !Contains(name, UsageLabel) && !Contains(name, MaterialsLabel)
  }

  /** A material name that reads back as itself: no separator characters, no
      leading whitespace (the pair text is stripped), and not ending in
      "Materials" (its `:` would complete a label that `replace` removes). */
  predicate MaterialNameFits(m: string) {
    && '|' !in m && ',' !in m && ':' !in m
    && (|m| == 0 || !IsSpace(m[0]))
    && !EndsWith(m, "Materials")
  }

  predicate MaterialsFit(amounts: seq<Amount>) {
    forall i :: 0 <= i < |amounts| ==> MaterialNameFits(amounts[i].material)
  }

  /** Two lists of texts that are equal once each text is stripped. */
  predicate SameStripped(xs: seq<string>, ys: seq<string>) {
    |xs| == |ys| && forall i :: 0 <= i < |xs| ==> Strip(xs[i]) == Strip(ys[i])
  }

  // ---------------------------------------------------------------------------
  // Parsing pairs

  lemma ParseEntryStripped(e: string)
    ensures ParseEntry(Strip(e)) == ParseEntry(e)
  {
    StripIdempotent(e);
  }

  /** A pair written as `f"{mat}:{qty}"` parses back to the same pair. */
  lemma ParseEntryRendered(a: Amount)
    requires MaterialNameFits(a.material)
    ensures ParseEntry(a.material + ":" + IntToString(a.quantity)) == Some(a)
  {
    var q := IntToString(a.quantity);
    ParseIntToString(a.quantity);
    assert ':' !in q;
    ParsePair(a.material, q, a.quantity);
  }

  /** `m:q` parses to `(m, n)` when `q` reads as `n` and neither side
      disturbs the strip or the split. */
  lemma ParsePair(m: string, q: string, n: int)
    requires MaterialNameFits(m) && ':' !in q
    requires |q| > 0 && IsDigit(q[|q| - 1]) && ParseInt(q) == Some(n)
    ensures ParseEntry(m + ":" + q) == Some(Amount(m, n))
  {
    RenderedPairTrimmed(m, q);
    RenderedPairSplits(m, q);
    ParseEntryOfPieces(m + ":" + q, m, q, n);
  }

  lemma RenderedPairTrimmed(m: string, q: string)
    requires |m| == 0 || !IsSpace(m[0])
    requires |q| > 0 && IsDigit(q[|q| - 1])
    ensures Strip(m + ":" + q) == m + ":" + q
  {
    var e := m + ":" + q;
    assert e[0] == if |m| == 0 then ':' else m[0];
    assert e[|e| - 1] == q[|q| - 1];
    StripTrimmed(e);
  }

  lemma RenderedPairSplits(m: string, q: string)
    requires ':' !in m && ':' !in q
    ensures Split(m + ":" + q, ':') == [m, q]
  {
    assert m + ":" + q == m + [':'] + q;
    SplitAtFirstSep(m, ':', q);
    SplitWithoutSep(q, ':');
  }

  lemma ParseEntryOfPieces(e: string, m: string, q: string, n: int)
    requires Strip(e) == e && Split(e, ':') == [m, q] && ParseInt(q) == Some(n)
    ensures ParseEntry(e) == Some(Amount(m, n))
  {
  }

  lemma SameStrippedTrans(xs: seq<string>, ys: seq<string>, zs: seq<string>)
    requires SameStripped(xs, ys) && SameStripped(ys, zs)
    ensures SameStripped(xs, zs)
  {
  }

  lemma ParseAllSameStripped(xs: seq<string>, ys: seq<string>)
    requires SameStripped(xs, ys)
    ensures ParseAll(xs) == ParseAll(ys)
  {
    forall i | 0 <= i < |xs|
      ensures ParseEach(xs)[i] == ParseEach(ys)[i]
    {
      ParseEntryStripped(xs[i]);
      ParseEntryStripped(ys[i]);
    }
    assert ParseEach(xs) == ParseEach(ys);
  }

  /** Splitting `", ".join(texts)` on `,` gives the texts back, up to the
      space after each comma. */
  lemma {:induction false} SplitCommaJoin(texts: seq<string>)
    requires |texts| > 0
    requires forall i :: 0 <= i < |texts| ==> ',' !in texts[i]
    ensures SameStripped(Split(Join(texts, ", "), ','), texts)
    decreases |texts|
  {
    if |texts| == 1 {
      SplitWithoutSep(texts[0], ',');
    } else {
      var tail := Join(texts[1..], ", ");
      assert Join(texts, ", ") == texts[0] + [','] + ([' '] + tail);
      SplitAtFirstSep(texts[0], ',', [' '] + tail);
      SplitConsOther(' ', tail, ',');
      var ps := Split(tail, ',');
      SplitCommaJoin(texts[1..]);
      StripPadded([' '], ps[0], []);
      assert [' '] + ps[0] + [] == [' '] + ps[0];
      assert Split(Join(texts, ", "), ',') == [texts[0]] + ([[' '] + ps[0]] + ps[1..]);
      SameStrippedCons(texts, [' '] + ps[0], ps);
    }
  }

  /** A first text kept as it is, then pieces matching the rest up to
      surrounding whitespace. */
  lemma SameStrippedCons(texts: seq<string>, p: string, ps: seq<string>)
    requires |texts| > 0 && |ps| > 0 && Strip(p) == Strip(ps[0])
    requires SameStripped(ps, texts[1..])
    ensures SameStripped([texts[0]] + ([p] + ps[1..]), texts)
  {
    var whole := [texts[0]] + ([p] + ps[1..]);
    forall i | 0 <= i < |whole|
      ensures Strip(whole[i]) == Strip(texts[i])
    {
      if i > 0 {
        assert whole[i] == if i == 1 then p else ps[i - 1];
        assert Strip(ps[i - 1]) == Strip(texts[1..][i - 1]);
      }
    }
  }

  /** `f"{mat}:{qty}"` pairs joined with ", " and split on `,` parse back to
      the pairs. */
  lemma RenderedListParses(amounts: seq<Amount>)
    requires |amounts| > 0 && MaterialsFit(amounts)
    ensures ParseAll(Split(Join(Render(amounts), ", "), ',')) == Some(amounts)
  {
    var texts := Render(amounts);
    RenderedEntriesParse(amounts);
    RenderedEntriesAvoidComma(amounts);
    SplitCommaJoin(texts);
    ParseAllSameStripped(Split(Join(texts, ", "), ','), texts);
    ParseAllSome(texts, amounts);
  }

  lemma RenderedEntriesParse(amounts: seq<Amount>)
    requires MaterialsFit(amounts)
    ensures forall i :: 0 <= i < |amounts| ==> ParseEntry(Render(amounts)[i]) == Some(amounts[i])
  {
    forall i | 0 <= i < |amounts|
      ensures ParseEntry(Render(amounts)[i]) == Some(amounts[i])
    {
      var a := amounts[i];
      assert MaterialNameFits(a.material);
      ParseEntryRendered(a);
      assert Render(amounts)[i] == a.material + ":" + IntToString(a.quantity);
    }
  }

  lemma RenderedEntriesAvoidComma(amounts: seq<Amount>)
    requires MaterialsFit(amounts)
    ensures forall i :: 0 <= i < |amounts| ==> ',' !in Render(amounts)[i]
  {
    forall i | 0 <= i < |amounts|
      ensures ',' !in Render(amounts)[i]
    {
      var a := amounts[i];
      assert MaterialNameFits(a.material);
      IntToStringAvoids(a.quantity, ",");
      assert ',' !in IntToString(a.quantity);
      assert Render(amounts)[i] == a.material + ":" + IntToString(a.quantity);
    }
  }

  // ---------------------------------------------------------------------------
  // Reading a record line back

  /** A line written as `name | Usage: u | Materials: m | Total: t` reads back
      as the usage `u` and the comma-separated texts of `m`, provided none of
      the holes contains a `|` or a label the reader looks for; a usage text
      that `int()` rejects makes the line unreadable. */
  lemma RecordLayout(name: string, usageText: string, materialsText: string, totalText: string)
    requires ItemNameFits(name)
    requires '|' !in usageText && '|' !in materialsText && '|' !in totalText
    requires !Contains(usageText, UsageLabel) && !Contains(usageText, MaterialsLabel)
    requires !Contains(materialsText, MaterialsLabel)
    ensures ReadHead(RecordLine(name, usageText, materialsText, totalText))
         == match ParseInt(Strip(usageText))
            case Some(u) => Readable(u, Split(Strip(materialsText), ','))
            case None => Unreadable
  {
    var line := RecordLine(name, usageText, materialsText, totalText);
    RecordFields(name, usageText, materialsText, totalText);
    BarInRecord(name, usageText, materialsText, totalText);
    LayoutFacts(name, usageText, materialsText);
    ReadHeadOf(line, LStrip(name + " "), Field(UsageLabel, usageText), Field(MaterialsLabel, materialsText), RStrip(" Total: " + totalText), usageText, materialsText);
  }

  lemma LayoutFacts(name: string, usageText: string, materialsText: string)
    requires ItemNameFits(name)
    requires !Contains(usageText, UsageLabel) && !Contains(usageText, MaterialsLabel)
    requires !Contains(materialsText, MaterialsLabel)
    ensures !Contains(LStrip(name + " "), UsageLabel) && !Contains(LStrip(name + " "), MaterialsLabel)
    ensures Contains(Field(UsageLabel, usageText), UsageLabel) && !Contains(Field(UsageLabel, usageText), MaterialsLabel)
    ensures Contains(Field(MaterialsLabel, materialsText), MaterialsLabel)
    ensures Strip(RemoveAll(Field(UsageLabel, usageText), UsageLabel)) == Strip(usageText)
    ensures Strip(RemoveAll(Field(MaterialsLabel, materialsText), MaterialsLabel)) == Strip(materialsText)
  {
    NameFieldLacks(name, UsageLabel);
    NameFieldLacks(name, MaterialsLabel);
    UsageFieldFacts(usageText);
    MaterialsFieldFacts(materialsText);
  }

  lemma UsageFieldFacts(usageText: string)
    requires !Contains(usageText, UsageLabel) && !Contains(usageText, MaterialsLabel)
    ensures Contains(Field(UsageLabel, usageText), UsageLabel) && !Contains(Field(UsageLabel, usageText), MaterialsLabel)
    ensures Strip(RemoveAll(Field(UsageLabel, usageText), UsageLabel)) == Strip(usageText)
  {
    FieldHasMarker(UsageLabel, usageText);
    MissingCharNotContained(" " + UsageLabel, MaterialsLabel, 'M');
    FieldLacksOther(UsageLabel, usageText, MaterialsLabel);
    FieldValue(UsageLabel, usageText);
  }

  lemma MaterialsFieldFacts(materialsText: string)
    requires !Contains(materialsText, MaterialsLabel)
    ensures Contains(Field(MaterialsLabel, materialsText), MaterialsLabel)
    ensures Strip(RemoveAll(Field(MaterialsLabel, materialsText), MaterialsLabel)) == Strip(materialsText)
  {
    FieldHasMarker(MaterialsLabel, materialsText);
    FieldValue(MaterialsLabel, materialsText);
  }

  lemma BarInRecord(name: string, usageText: string, materialsText: string, totalText: string)
    ensures '|' in RecordLine(name, usageText, materialsText, totalText)
  {
    assert RecordLine(name, usageText, materialsText, totalText)[|name| + 1] == '|';
  }

  /** `ReadHead` on a line whose stripped fields put the usage label in the
      second field and the materials label first in the third. */
  lemma ReadHeadOf(line: string, f0: string, f1: string, f2: string, f3: string, usageText: string, materialsText: string)
    requires '|' in line && Split(Strip(line), '|') == [f0, f1, f2, f3]
    requires !Contains(f0, UsageLabel) && Contains(f1, UsageLabel)
    requires !Contains(f0, MaterialsLabel) && !Contains(f1, MaterialsLabel) && Contains(f2, MaterialsLabel)
    requires Strip(RemoveAll(f1, UsageLabel)) == Strip(usageText)
    requires Strip(RemoveAll(f2, MaterialsLabel)) == Strip(materialsText)
    ensures ReadHead(line)
         == match ParseInt(Strip(usageText))
            case Some(u) => Readable(u, Split(Strip(materialsText), ','))
            case None => Unreadable
  {
    var fields := [f0, f1, f2, f3];
    FoundSecond(fields, UsageLabel);
    FoundThird(fields, MaterialsLabel);
  }

  lemma FoundSecond(fields: seq<string>, marker: string)
    requires |fields| >= 2 && !Contains(fields[0], marker) && Contains(fields[1], marker)
    ensures FirstContaining(fields, marker) == Some(fields[1])
  {
    assert fields[1..][0] == fields[1];
  }

  lemma FoundThird(fields: seq<string>, marker: string)
    requires |fields| >= 3 && !Contains(fields[0], marker) && !Contains(fields[1], marker)
    requires Contains(fields[2], marker)
    ensures FirstContaining(fields, marker) == Some(fields[2])
  {
    FoundSecond(fields[1..], marker);
  }

  /** The first field holds a marker only if the item name does. */
  lemma NameFieldLacks(name: string, marker: string)
    requires |marker| > 0 && ' ' !in marker
    requires !Contains(name, marker)
    ensures !Contains(LStrip(name + " "), marker)
  {
    var p := name + " ";
    ContainsIgnoresForeignTail(name, " ", marker);
    LStripLacks(p, marker);
  }


  /** The four `|`-separated fields of a record line once it is stripped. */
  lemma RecordFields(name: string, usageText: string, materialsText: string, totalText: string)
    requires '|' !in name && '|' !in usageText && '|' !in materialsText && '|' !in totalText
    ensures Split(Strip(RecordLine(name, usageText, materialsText, totalText)), '|')
         == [LStrip(name + " "), Field(UsageLabel, usageText), Field(MaterialsLabel, materialsText), RStrip(" Total: " + totalText)]
  {
    RecordLineBars(name, usageText, materialsText, totalText);
    BarredFields(RecordLine(name, usageText, materialsText, totalText),
      name + " ", Field(UsageLabel, usageText), Field(MaterialsLabel, materialsText), " Total: " + totalText);
  }

  /** Stripping and splitting `p|q|r|t` on `|` strips only the outer ends. */
  lemma BarredFields(line: string, p: string, q: string, r: string, t: string)
    requires line == p + ['|'] + (q + ['|'] + (r + ['|'] + t))
    requires '|' !in p && '|' !in q && '|' !in r && '|' !in t
    ensures Split(Strip(line), '|') == [LStrip(p), q, r, RStrip(t)]
  {
    LStripBars(p, q, r, t);
    var front := LStrip(p) + ['|'] + q + ['|'] + r;
    StripAfterBar(line, front, t);
    LStripNoChar(p, '|');
    RStripNoChar(t, '|');
    SplitBars(LStrip(p), q, r, RStrip(t));
  }

  /** The record line is its four fields joined with `|`. */
  lemma RecordLineBars(name: string, usageText: string, materialsText: string, totalText: string)
    ensures RecordLine(name, usageText, materialsText, totalText)
         == (name + " ") + ['|'] + (Field(UsageLabel, usageText) + ['|'] + (Field(MaterialsLabel, materialsText) + ['|'] + (" Total: " + totalText)))
  {
    UsageGap();
    MaterialsGap();
    TotalGap();
  }

  lemma UsageGap()
    ensures " | Usage: " == " " + ['|'] + (" " + UsageLabel + " ")
  {
  }

  lemma MaterialsGap()
    ensures " | Materials: " == " " + ['|'] + (" " + MaterialsLabel + " ")
  {
  }

  lemma TotalGap()
    ensures " | Total: " == " " + ['|'] + " Total: "
  {
  }

  /** Left stripping text with `|` inside touches only the first field. */
  lemma LStripBars(p: string, q: string, r: string, t: string)
    ensures LStrip(p + ['|'] + (q + ['|'] + (r + ['|'] + t))) == (LStrip(p) + ['|'] + q + ['|'] + r) + ['|'] + t
  {
    var mid := q + ['|'] + (r + ['|'] + t);
    LStripToMark(p, '|', mid);
    var front := LStrip(p) + ['|'] + q + ['|'] + r;
    assert LStrip(p) + ['|'] + mid == front + ['|'] + t;
  }

  /** Right stripping after the last `|` touches only the last field. */
  lemma StripAfterBar(line: string, front: string, t: string)
    requires LStrip(line) == front + ['|'] + t
    ensures Strip(line) == front + ['|'] + RStrip(t)
  {
    StripSides(line);
    RStripFromMark(front, '|', t);
  }

  /** Four `|`-free texts joined with `|` split back into themselves. */
  lemma SplitBars(a: string, b: string, c: string, d: string)
    requires '|' !in a && '|' !in b && '|' !in c && '|' !in d
    ensures Split(a + ['|'] + b + ['|'] + c + ['|'] + d, '|') == [a, b, c, d]
  {
    var cd := c + ['|'] + d;
    var bcd := b + ['|'] + cd;
    SplitWithoutSep(d, '|');
    SplitAtFirstSep(c, '|', d);
    assert Split(cd, '|') == [c, d];
    SplitAtFirstSep(b, '|', cd);
    assert Split(bcd, '|') == [b, c, d];
    SplitAtFirstSep(a, '|', bcd);
    BarsAssociate(a, b, c, d);
  }

  lemma BarsAssociate(a: string, b: string, c: string, d: string)
    ensures a + ['|'] + b + ['|'] + c + ['|'] + d == a + ['|'] + (b + ['|'] + (c + ['|'] + d))
  {
  }

  /** The text between two `|` that carries `marker` and its value. */
  function Field(marker: string, value: string): string {
    " " + marker + " " + value + " "
  }

  /** A marker field holds its marker. */
  lemma FieldHasMarker(marker: string, value: string)
    ensures Contains(Field(marker, value), marker)
  {
    assert StartsWith(marker, marker);
    ContainsInfix(" ", marker, " " + value + " ", marker);
    assert " " + marker + (" " + value + " ") == Field(marker, value);
  }

  /** A marker field holds no other marker unless its value does. */
  lemma FieldLacksOther(marker: string, value: string, other: string)
    requires |other| > 0 && ' ' !in other
    requires !Contains(" " + marker, other) && !Contains(value, other)
    ensures !Contains(Field(marker, value), other)
  {
    assert Field(marker, value) == (" " + marker) + [' '] + (value + " ");
    ContainsAcross(" " + marker, ' ', value + " ", other);
    ContainsIgnoresForeignTail(value, " ", other);
  }

  /** Removing the marker from its field and stripping leaves the stripped value. */
  lemma FieldValue(marker: string, value: string)
    requires |marker| > 0 && ' ' !in marker
    requires !Contains(value, marker)
    ensures Strip(RemoveAll(Field(marker, value), marker)) == Strip(value)
  {
    FieldRemoved(marker, value);
    StripPadded("  ", value, " ");
  }

  /** Removing the marker from its field leaves the value with its padding. */
  lemma FieldRemoved(marker: string, value: string)
    requires |marker| > 0 && ' ' !in marker
    requires !Contains(value, marker)
    ensures RemoveAll(Field(marker, value), marker) == "  " + value + " "
  {
    var rest := " " + value + " ";
    FieldShape(marker, value);
    RemoveAllKeepsHead(' ', marker + rest, marker);
    RemoveAllDropsLead(rest, marker);
    PaddedLacks(marker, value);
    PadShape(value);
  }

  lemma FieldShape(marker: string, value: string)
    ensures Field(marker, value) == [' '] + (marker + (" " + value + " "))
  {
  }

  lemma PadShape(value: string)
    ensures [' '] + (" " + value + " ") == "  " + value + " "
  {
  }

  /** Padding a value with spaces adds no occurrence of a space-free marker. */
  lemma PaddedLacks(marker: string, value: string)
    requires |marker| > 0 && ' ' !in marker
    requires !Contains(value, marker)
    ensures !Contains(" " + value + " ", marker)
  {
    assert " " + value + " " == [] + [' '] + (value + " ");
    ContainsAcross([], ' ', value + " ", marker);
    ContainsIgnoresForeignTail(value, " ", marker);
  }

  // ---------------------------------------------------------------------------
  // The saved line reads back

  /** A line saved by the Add flow reads back as its usage count and the
      per-craft pairs of its `Materials:` field, in order. */
  lemma FormatLineReads(name: string, usage: int, perCraft: seq<Amount>)
    requires ItemNameFits(name) && |perCraft| > 0 && MaterialsFit(perCraft)
    ensures ReadHead(FormatLine(name, usage, perCraft)).Readable?
    ensures ReadHead(FormatLine(name, usage, perCraft)).usage == usage
    ensures ParseAll(ReadHead(FormatLine(name, usage, perCraft)).entries) == Some(perCraft)
  {
    var usageText := IntToString(usage);
    var materialsText := Join(Render(perCraft), ", ");
    var totalText := Join(Render(Scale(usage, perCraft)), ", ");
    UsageTextFits(usage);
    ListTextFits(perCraft);
    ScaleFits(usage, perCraft);
    ListTextFits(Scale(usage, perCraft));
    RecordLayout(name, usageText, materialsText, totalText);
    UsageTextTrimmed(usage);
    ParseIntToString(usage);
    ListTextTrimmed(perCraft);
    RenderedListParses(perCraft);
  }

  /** A usage count's text has nothing for `strip()` to drop. */
  lemma UsageTextTrimmed(usage: int)
    ensures Strip(IntToString(usage)) == IntToString(usage)
  {
    StripTrimmed(IntToString(usage));
  }

  /** A usage count's text holds no `|` and neither label. */
  lemma UsageTextFits(usage: int)
    ensures '|' !in IntToString(usage)
    ensures !Contains(IntToString(usage), UsageLabel) && !Contains(IntToString(usage), MaterialsLabel)
  {
    IntToStringAvoids(usage, "|UM");
    MissingCharNotContained(IntToString(usage), UsageLabel, 'U');
    MissingCharNotContained(IntToString(usage), MaterialsLabel, 'M');
  }

  /** Scaling keeps the material names. */
  lemma ScaleFits(factor: int, amounts: seq<Amount>)
    requires MaterialsFit(amounts)
    ensures MaterialsFit(Scale(factor, amounts))
  {
    forall i | 0 <= i < |amounts|
      ensures MaterialNameFits(Scale(factor, amounts)[i].material)
    {
      assert Scale(factor, amounts)[i].material == Names(Scale(factor, amounts))[i] == Names(amounts)[i];
    }
  }

  /** A list of fitting pairs joined with ", " holds no `|` and no `Materials:`. */
  lemma ListTextFits(amounts: seq<Amount>)
    requires MaterialsFit(amounts)
    ensures '|' !in Join(Render(amounts), ", ")
    ensures !Contains(Join(Render(amounts), ", "), MaterialsLabel)
  {
    var texts := Render(amounts);
    forall i | 0 <= i < |texts|
      ensures '|' !in texts[i] && !Contains(texts[i], MaterialsLabel)
    {
      PairTextFits(amounts[i]);
    }
    JoinLacksChar(texts, '|');
    JoinLacksPattern(texts, MaterialsLabel);
  }

  /** One fitting pair's text holds no `|` and no `Materials:`. */
  lemma PairTextFits(a: Amount)
    requires MaterialNameFits(a.material)
    ensures '|' !in a.material + ":" + IntToString(a.quantity)
    ensures !Contains(a.material + ":" + IntToString(a.quantity), MaterialsLabel)
  {
    var m := a.material;
    var q := IntToString(a.quantity);
    assert m + ":" + q == m + [':'] + q;
    assert !Contains(m + [':'], MaterialsLabel) by {
      assert MaterialsLabel[..|MaterialsLabel| - 1] == "Materials";
      NotEndsWithSnoc(m, ':', MaterialsLabel);
      ContainsSnoc(m, ':', MaterialsLabel);
      MissingCharNotContained(m, MaterialsLabel, ':');
    }
    IntToStringAvoids(a.quantity, MaterialsLabel + "|");
    ContainsIgnoresForeignTail(m + [':'], q, MaterialsLabel);
  }

  /** No piece holds `c` and `c` is not in ", ", so the joined text lacks it. */
  lemma {:induction false} JoinLacksChar(texts: seq<string>, c: char)
    requires c != ',' && c != ' '
    requires forall i :: 0 <= i < |texts| ==> c !in texts[i]
    ensures c !in Join(texts, ", ")
    decreases |texts|
  {
    if |texts| > 1 {
      JoinLacksChar(texts[1..], c);
    }
  }

  /** No piece holds a pattern free of `,` and ` `, so the joined text lacks it. */
  lemma {:induction false} JoinLacksPattern(texts: seq<string>, p: string)
    requires |p| > 0 && ',' !in p && ' ' !in p
    requires forall i :: 0 <= i < |texts| ==> !Contains(texts[i], p)
    ensures !Contains(Join(texts, ", "), p)
    decreases |texts|
  {
    if |texts| > 1 {
      var tail := Join(texts[1..], ", ");
      JoinLacksPattern(texts[1..], p);
      assert Join(texts, ", ") == texts[0] + [','] + ([] + [' '] + tail);
      ContainsAcross(texts[0], ',', [] + [' '] + tail, p);
      ContainsAcross([], ' ', tail, p);
    }
  }

  /** The joined pairs neither start nor end with whitespace. */
  lemma ListTextTrimmed(amounts: seq<Amount>)
    requires |amounts| > 0 && MaterialsFit(amounts)
    ensures Strip(Join(Render(amounts), ", ")) == Join(Render(amounts), ", ")
  {
    var texts := Render(amounts);
    assert MaterialNameFits(amounts[0].material);
    PairTextEnds(amounts[0]);
    PairTextEnds(amounts[|amounts| - 1]);
    forall i | 0 <= i < |texts|
      ensures |texts[i]| > 0
    {
      PairTextEnds(amounts[i]);
    }
    JoinEnds(texts);
    var j := Join(texts, ", ");
    assert !IsSpace(j[0]) && IsDigit(j[|j| - 1]);
    StripTrimmed(j);
  }

  /** A pair's text ends in a digit, and starts with a non-space when the
      material name fits. */
  lemma PairTextEnds(a: Amount)
    ensures |a.material + ":" + IntToString(a.quantity)| > 0
    ensures var t := a.material + ":" + IntToString(a.quantity);
      IsDigit(t[|t| - 1]) && (MaterialNameFits(a.material) ==> !IsSpace(t[0]))
  {
    var t := a.material + ":" + IntToString(a.quantity);
    var q := IntToString(a.quantity);
    assert t[|t| - 1] == q[|q| - 1];
    assert t[0] == if |a.material| == 0 then ':' else a.material[0];
  }

  /** The joined text starts like the first piece and ends like the last. */
  lemma {:induction false} JoinEnds(texts: seq<string>)
    requires |texts| > 0 && forall i :: 0 <= i < |texts| ==> |texts[i]| > 0
    ensures var j := Join(texts, ", ");
      |j| > 0 && j[0] == texts[0][0] && j[|j| - 1] == texts[|texts| - 1][|texts[|texts| - 1]| - 1]
    decreases |texts|
  {
    if |texts| > 1 {
      assert texts[1..][0] == texts[1];
      JoinEnds(texts[1..]);
    }
  }

  /** Reading the quantities in catalog order into a fresh dict keeps that
      order when the materials are distinct. */
  lemma PerCraftDistinct(materials: seq<string>, quantities: seq<int>)
    requires |quantities| == |materials| && Distinct(materials)
    ensures PerCraft(materials, quantities) == Zip(materials, quantities)
  {
    PerCraftIntoDistinct([], materials, quantities);
  }

  /** `material_quantities` is a dict, so its keys are distinct whatever the
      materials. */
  lemma PerCraftKeysDistinct(materials: seq<string>, quantities: seq<int>)
    requires |quantities| == |materials|
    ensures Distinct(Names(PerCraft(materials, quantities)))
  {
    PerCraftIntoKeysDistinct([], materials, quantities);
  }

  lemma {:induction false} PerCraftIntoKeysDistinct(t: Table, materials: seq<string>, quantities: seq<int>)
    requires |quantities| == |materials| && Distinct(Names(t))
    ensures Distinct(Names(PerCraftInto(t, materials, quantities)))
    decreases |materials|
  {
    if |materials| > 0 {
      PutKeepsDistinct(t, materials[0], quantities[0]);
      PerCraftIntoKeysDistinct(Put(t, materials[0], quantities[0]), materials[1..], quantities[1..]);
    }
  }

  lemma {:induction false} PerCraftIntoDistinct(t: Table, materials: seq<string>, quantities: seq<int>)
    requires |quantities| == |materials| && Distinct(materials)
    requires forall i :: 0 <= i < |materials| ==> materials[i] !in Names(t)
    ensures PerCraftInto(t, materials, quantities) == t + Zip(materials, quantities)
    decreases |materials|
  {
    if |materials| > 0 {
      var m := materials[0];
      PutFresh(t, m, quantities[0]);
      var t' := t + [Amount(m, quantities[0])];
      assert Names(t') == Names(t) + [m];
      forall i | 0 <= i < |materials| - 1
        ensures materials[1..][i] !in Names(t')
      {
        assert materials[1..][i] == materials[i + 1];
        assert Names(t) + [m] == Names(t');
      }
      assert Distinct(materials[1..]);
      PerCraftIntoDistinct(t', materials[1..], quantities[1..]);
      assert t' + Zip(materials[1..], quantities[1..]) == t + Zip(materials, quantities);
    }
  }
}
