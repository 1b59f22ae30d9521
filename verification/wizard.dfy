/** The "Add New Blueprints" wizard: two numbered menus, the number of
    blueprints, then per blueprint a usage count and one quantity per
    required material; each completed blueprint is appended as one line. */
module Wizard {
  import opened Wrappers
  import opened Text
  import opened Numbers
  import opened Tally
  import opened Catalog
  import opened Records
  import opened Totals
  import opened Listing
  import opened Store
  import opened Words

  /** `answer.lower() == "back"`. Besides the ASCII letters, only the Kelvin
      sign U+212A lowers to one of these four letters. */
  predicate IsBack(answer: string) {
    && |answer| == 4
    && answer[0] in "Bb"
    && answer[1] in "Aa"
    && answer[2] in "Cc"
    && answer[3] in "Kk\U{212A}"
  }

  datatype Choice<T> =
    | Back             // "back" in any case: return to the main menu
    | Invalid          // not a number, or no entry at that index
    | Picked(value: T)

  /** One numbered menu: `options[int(answer) - 1]`, with Python's negative
      list indexing. */
  function Select<T>(answer: string, options: seq<T>): Choice<T> {
    if IsBack(answer) then Back
    else
      match ParseInt(answer)
      case None => Invalid
      case Some(c) =>
        var i := c - 1;
        if 0 <= i < |options| then Picked(options[i])
        else if -|options| <= i < 0 then Picked(options[|options| + i])
        else Invalid
  }

  /** What a prompt loop leaves behind: the value it settled on and the
      answers not read yet. */
  datatype Read<T> = Read(value: T, rest: seq<string>)

  /** The retry loop for one material: answers `int()` rejects are asked
      again; None when the answers run out (EOFError). */
  function ReadQuantity(input: seq<string>): Option<Read<int>> {
    Retry(input, ParseInt)
  }

  /** A prompt asked again until `parse` accepts an answer. */
  function Retry(input: seq<string>, parse: string -> Option<int>): Option<Read<int>>
    decreases |input|
  {
    if |input| == 0 then None
    else
      match parse(input[0])
      case Some(q) => Some(Read(q, input[1..]))
      case None => Retry(input[1..], parse)
  }

  /** One quantity per material, in catalog order. */
  function ReadQuantities(count: nat, input: seq<string>): (r: Option<Read<seq<int>>>)
    ensures r.Some? ==> |r.value.value| == count
  {
    RetryEach(count, input, ParseInt)
  }

  /** `count` prompts in a row, each asked again until `parse` accepts an
      answer. */
  function RetryEach(count: nat, input: seq<string>, parse: string -> Option<int>): (r: Option<Read<seq<int>>>)
    ensures r.Some? ==> |r.value.value| == count
    decreases count
  {
    if count == 0 then Some(Read([], input))
    else
      match Retry(input, parse)
      case None => None
      case Some(Read(q, rest)) =>
        match RetryEach(count - 1, rest, parse)
        case None => None
        case Some(Read(qs, more)) => Some(Read([q] + qs, more))
  }

  /** The answers given for one blueprint. */
  datatype Blueprint = Blueprint(usage: int, quantities: seq<int>)

  /** `for i in range(count)`: a usage answer `int()` rejects skips that
      blueprint; the answers running out ends the session (EOFError), and
      what was appended before stays. */
  function ReadBlueprints(materials: seq<string>, count: int, input: seq<string>): (r: seq<Blueprint>)
    ensures |r| <= if count > 0 then count else 0
    ensures forall j :: 0 <= j < |r| ==> |r[j].quantities| == |materials|
    decreases count
  {
    if count <= 0 || |input| == 0 then []
    else
      match ParseInt(input[0])
      case None => ReadBlueprints(materials, count - 1, input[1..])
      case Some(usage) =>
        match ReadQuantities(|materials|, input[1..])
        case None => []
        case Some(Read(qs, rest)) => [Blueprint(usage, qs)] + ReadBlueprints(materials, count - 1, rest)
  }

  /** The item the first two answers choose, unless the user went back or
      gave an invalid choice. */
  function Pick(cats: seq<Category>, input: seq<string>): Option<Item> {
    if |input| < 2 then None
    else
      match Select(input[0], cats)
      case Picked(category) =>
        (match Select(input[1], category.items)
         case Picked(item) => Some(item)
         case _ => None)
      case _ => None
  }

  /** The text `add_new_blueprints` appends for one blueprint. */
  function SavedLine(item: Item, b: Blueprint): string
    requires |b.quantities| == |item.materials|
  {
    FormatLine(item.name, b.usage, PerCraft(item.materials, b.quantities))
  }

  /** The texts appended for some blueprints, one each, in order. */
  function SavedLines(item: Item, bs: seq<Blueprint>): (r: seq<string>)
    requires forall j :: 0 <= j < |bs| ==> |bs[j].quantities| == |item.materials|
    ensures |r| == |bs|
    decreases |bs|
  {
    if |bs| == 0 then [] else [SavedLine(item, bs[0])] + SavedLines(item, bs[1..])
  }

  /** The `i`-th appended text is the line of the `i`-th blueprint. */
  lemma {:induction false} SavedLinesIndex(item: Item, bs: seq<Blueprint>, i: int)
    requires forall j :: 0 <= j < |bs| ==> |bs[j].quantities| == |item.materials|
    requires 0 <= i < |bs|
    ensures SavedLines(item, bs)[i] == SavedLine(item, bs[i])
    decreases |bs|
  {
    if i > 0 {
      SavedLinesIndex(item, bs[1..], i - 1);
      assert bs[1..][i - 1] == bs[i];
    }
  }

  /** `total_line_materials`: each material with its per-craft quantity
      times the usage count. */
  function LineTotal(item: Item, b: Blueprint): seq<Amount>
    requires |b.quantities| == |item.materials|
  {
    ScaleInto([], b.usage, PerCraft(item.materials, b.quantities))
  }

  /** The `total_line_materials` dict has the per-craft materials in the same
      order, each quantity multiplied by the usage count. */
  lemma LineTotalScales(item: Item, b: Blueprint)
    requires |b.quantities| == |item.materials|
    ensures LineTotal(item, b) == Scale(b.usage, PerCraft(item.materials, b.quantities))
    ensures Names(LineTotal(item, b)) == Names(PerCraft(item.materials, b.quantities))
    ensures forall i :: 0 <= i < |LineTotal(item, b)| ==>
      LineTotal(item, b)[i].quantity == PerCraft(item.materials, b.quantities)[i].quantity * b.usage
  {
    PerCraftKeysDistinct(item.materials, b.quantities);
    ScaleIntoSpec(b.usage, PerCraft(item.materials, b.quantities));
  }

  /** The saved line's `Total:` list is the `total_line_materials` dict. */
  lemma SavedLineWritesTotal(item: Item, b: Blueprint)
    requires |b.quantities| == |item.materials|
    ensures SavedLine(item, b) == RecordLine(item.name, IntToString(b.usage),
      Join(Render(PerCraft(item.materials, b.quantities)), ", "), Join(Render(LineTotal(item, b)), ", "))
  {
    LineTotalScales(item, b);
  }

  /** `add_new_blueprints`: the texts it appends, in order. */
  function AddNew(cats: seq<Category>, input: seq<string>): seq<string> {
    match Pick(cats, input)
    case None => []
    case Some(item) =>
      if |input| < 3 then []
      else
        match ParseInt(input[2])
        case None => []
        case Some(count) => SavedLines(item, ReadBlueprints(item.materials, count, input[3..]))
  }

  // ---------------------------------------------------------------------------
  // Menus

  /** "back" returns; a number `c` picks entry `c - 1`, counted from the end
      when `c <= 0`, as long as `-len < c <= len`; anything else is rejected. */
  lemma SelectSpec<T>(answer: string, options: seq<T>)
    ensures Select(answer, options) == Back <==> IsBack(answer)
    ensures Select(answer, options).Picked? <==>
      !IsBack(answer) && ParseInt(answer).Some? && -|options| < ParseInt(answer).value <= |options|
    ensures Select(answer, options).Picked? ==>
      Select(answer, options).value == options[(ParseInt(answer).value - 1) % |options|]
  {
    if Select(answer, options).Picked? {
      WrapIndex(ParseInt(answer).value - 1, |options|);
    }
  }

  lemma WrapIndex(i: int, n: int)
    requires -n <= i < n
    ensures i % n == if i >= 0 then i else n + i
  {
    if i < 0 {
      assert i == n * (-1) + (n + i);
    }
  }

  /** The number printed in front of a menu entry picks that entry. */
  lemma SelectListed<T>(options: seq<T>, k: int)
    requires 1 <= k <= |options|
    ensures Select(IntToString(k), options) == Picked(options[k - 1])
  {
    ParseIntToString(k);
    assert IsDigit(IntToString(k)[0]);
  }

  /** Going back at the first menu appends nothing. */
  lemma BackSavesNothing(cats: seq<Category>, input: seq<string>)
    requires |input| > 0 && IsBack(input[0])
    ensures AddNew(cats, input) == []
  {
  }

  // ---------------------------------------------------------------------------
  // Prompt loops

  /** The retry loop settles on the first answer `int()` accepts and leaves
      the answers after it; it finds none exactly when none is a number. */
  lemma ReadQuantitySpec(input: seq<string>)
    ensures ReadQuantity(input).None? <==> forall j :: 0 <= j < |input| ==> ParseInt(input[j]).None?
    ensures ReadQuantity(input).Some? ==>
      var r := ReadQuantity(input).value;
      var i := |input| - |r.rest| - 1;
      && 0 <= i < |input|
      && ParseInt(input[i]) == Some(r.value)
      && r.rest == input[i + 1..]
      && forall j :: 0 <= j < i ==> ParseInt(input[j]).None?
  {
    var parse := ParseInt;
    RetrySpec(input, parse);
    if ReadQuantity(input).Some? {
      var r := ReadQuantity(input).value;
      var i := |input| - |r.rest| - 1;
      assert parse(input[i]) == Some(r.value);
      assert ParseInt(input[i]) == parse(input[i]);
    }
  }

  /** `Retry` settles on the first answer `parse` accepts and leaves the
      answers after it; it finds none exactly when `parse` accepts none. */
  lemma RetrySpec(input: seq<string>, parse: string -> Option<int>)
    ensures Retry(input, parse).None? <==> forall j :: 0 <= j < |input| ==> parse(input[j]).None?
    ensures Retry(input, parse).Some? ==>
      var r := Retry(input, parse).value;
      var i := |input| - |r.rest| - 1;
      && 0 <= i < |input|
      && parse(input[i]) == Some(r.value)
      && r.rest == input[i + 1..]
      && forall j :: 0 <= j < i ==> parse(input[j]).None?
  {
    RetryNone(input, parse);
    RetrySome(input, parse);
  }

  /** The loop finds nothing exactly when `parse` accepts no answer. */
  lemma {:induction false} RetryNone(input: seq<string>, parse: string -> Option<int>)
    ensures Retry(input, parse).None? <==> forall j :: 0 <= j < |input| ==> parse(input[j]).None?
    decreases |input|
  {
    if |input| > 0 {
      RetryNone(input[1..], parse);
      assert forall j :: 1 <= j < |input| ==> input[1..][j - 1] == input[j];
    }
  }

  /** What the loop settles on: the first accepted answer, and the answers
      after it. */
  lemma {:induction false} RetrySome(input: seq<string>, parse: string -> Option<int>)
    ensures Retry(input, parse).Some? ==>
      var r := Retry(input, parse).value;
      var i := |input| - |r.rest| - 1;
      && 0 <= i < |input|
      && parse(input[i]) == Some(r.value)
      && r.rest == input[i + 1..]
      && forall j :: 0 <= j < i ==> parse(input[j]).None?
    decreases |input|
  {
    if |input| > 0 && parse(input[0]).None? && Retry(input, parse).Some? {
      var tail := input[1..];
      RetrySome(tail, parse);
      var r := Retry(tail, parse).value;
      var i := |input| - |r.rest| - 1;
      assert tail[i - 1] == input[i];
      assert tail[i..] == input[i + 1..];
      forall j | 0 <= j < i
        ensures parse(input[j]).None?
      {
        if j > 0 {
          assert input[j] == tail[j - 1];
        }
      }
    }
  }

  /** `str(q)` for each quantity: the answers a user types for them. */
  function Numerals(qs: seq<int>): (r: seq<string>)
    ensures |r| == |qs|
  {
    seq(|qs|, i requires 0 <= i < |qs| => IntToString(qs[i]))
  }

  /** The answers a user types for some blueprints: each one's usage count,
      then its quantities. */
  function Answers(bs: seq<Blueprint>): seq<string>
    decreases |bs|
  {
    if |bs| == 0 then [] else [IntToString(bs[0].usage)] + Numerals(bs[0].quantities) + Answers(bs[1..])
  }

  /** Typing the quantities in order gives them back, and leaves the answers
      after them. */
  lemma ReadQuantitiesAnswered(qs: seq<int>, more: seq<string>)
    ensures ReadQuantities(|qs|, Numerals(qs) + more) == Some(Read(qs, more))
  {
    forall i | 0 <= i < |qs|
      ensures ParseInt(Numerals(qs)[i]) == Some(qs[i])
    {
      ParseIntToString(qs[i]);
    }
    RetryEachAnswered(qs, Numerals(qs), more, ParseInt);
  }

  /** Answers that `parse` accepts, one per prompt, are read in order, and
      the answers after them are left. */
  lemma {:induction false} RetryEachAnswered(xs: seq<int>, answers: seq<string>, more: seq<string>, parse: string -> Option<int>)
    requires |answers| == |xs|
    requires forall i :: 0 <= i < |xs| ==> parse(answers[i]) == Some(xs[i])
    ensures RetryEach(|xs|, answers + more, parse) == Some(Read(xs, more))
    decreases |xs|
  {
    if |xs| > 0 {
      var input := answers + more;
      assert input[0] == answers[0];
      assert input[1..] == answers[1..] + more;
      RetryAccepts(input, parse);
      RetryEachAnswered(xs[1..], answers[1..], more, parse);
      assert [xs[0]] + xs[1..] == xs;
    } else {
      assert answers + more == more;
    }
  }

  lemma RetryAccepts(input: seq<string>, parse: string -> Option<int>)
    requires |input| > 0 && parse(input[0]).Some?
    ensures Retry(input, parse) == Some(Read(parse(input[0]).value, input[1..]))
  {
  }

  /** Typing each blueprint's usage count and quantities makes exactly those
      blueprints, in order. */
  lemma {:induction false} ReadBlueprintsAnswered(materials: seq<string>, bs: seq<Blueprint>, more: seq<string>)
    requires forall j :: 0 <= j < |bs| ==> |bs[j].quantities| == |materials|
    ensures ReadBlueprints(materials, |bs|, Answers(bs) + more) == bs
    decreases |bs|
  {
    if |bs| > 0 {
      var b := bs[0];
      var after := Answers(bs[1..]) + more;
      var input := Answers(bs) + more;
      AnswersCons(bs, more);
      ParseIntToString(b.usage);
      ReadQuantitiesAnswered(b.quantities, after);
      ReadBlueprintsStep(materials, |bs|, input, b.usage, b.quantities, after);
      ReadBlueprintsAnswered(materials, bs[1..], more);
      HeadRest(bs);
    }
  }

  /** The answers for the first blueprint come first. */
  lemma AnswersCons(bs: seq<Blueprint>, more: seq<string>)
    requires |bs| > 0
    ensures var input := Answers(bs) + more;
      && |input| > 0
      && input[0] == IntToString(bs[0].usage)
      && input[1..] == Numerals(bs[0].quantities) + (Answers(bs[1..]) + more)
  {
    var x := IntToString(bs[0].usage);
    var tail := Numerals(bs[0].quantities) + (Answers(bs[1..]) + more);
    assert Answers(bs) == [x] + Numerals(bs[0].quantities) + Answers(bs[1..]);
    ConsRegroup(x, Numerals(bs[0].quantities), Answers(bs[1..]), more);
    ConsParts(x, tail);
  }

  lemma ConsRegroup(x: string, a: seq<string>, b: seq<string>, c: seq<string>)
    ensures [x] + a + b + c == [x] + (a + (b + c))
  {
  }

  lemma ConsParts(x: string, tail: seq<string>)
    ensures ([x] + tail)[0] == x && ([x] + tail)[1..] == tail
  {
  }

  /** An accepted usage count and a full set of quantities make one
      blueprint, then the remaining prompts follow. */
  lemma ReadBlueprintsStep(materials: seq<string>, count: int, input: seq<string>, usage: int, qs: seq<int>, rest: seq<string>)
    requires count > 0 && |input| > 0 && ParseInt(input[0]) == Some(usage)
    requires ReadQuantities(|materials|, input[1..]) == Some(Read(qs, rest))
    ensures ReadBlueprints(materials, count, input) == [Blueprint(usage, qs)] + ReadBlueprints(materials, count - 1, rest)
  {
  }

  // ---------------------------------------------------------------------------
  // The appended lines

  /** With distinct materials, the appended line is exactly
      `name | Usage: u | Materials: m1:q1, ... | Total: m1:u*q1, ...`, both
      lists naming the materials in catalog order. */
  lemma SavedLineLayout(item: Item, b: Blueprint)
    requires |b.quantities| == |item.materials| && Distinct(item.materials)
    ensures SavedLine(item, b) ==
      item.name + " | Usage: " + IntToString(b.usage)
      + " | Materials: " + Join(Render(Zip(item.materials, b.quantities)), ", ")
      + " | Total: " + Join(Render(Zip(item.materials, Times(b.usage, b.quantities))), ", ")
  {
    PerCraftDistinct(item.materials, b.quantities);
    ScaleZip(b.usage, item.materials, b.quantities);
  }

  /** Every quantity multiplied by `factor`. */
  function Times(factor: int, qs: seq<int>): (r: seq<int>)
    ensures |r| == |qs|
  {
    seq(|qs|, j requires 0 <= j < |qs| => factor * qs[j])
  }

  lemma ScaleZip(factor: int, materials: seq<string>, qs: seq<int>)
    requires |qs| == |materials|
    ensures Scale(factor, Zip(materials, qs)) == Zip(materials, Times(factor, qs))
  {
    var l := Scale(factor, Zip(materials, qs));
    var r := Zip(materials, Times(factor, qs));
    forall j | 0 <= j < |l|
      ensures l[j] == r[j]
    {
      assert Names(l)[j] == Names(Zip(materials, qs))[j] == materials[j];
      assert Names(r)[j] == materials[j];
    }
  }

  /** What a catalog item must be like for its lines to read back: a name
      that is its own strip and holds no `|`, no label and no newline; at
      least one material, all distinct and readable back. */
  predicate ItemFits(item: Item) {
    && ItemNameFits(item.name)
    && '\n' !in item.name
    && (|item.name| == 0 || (!IsSpace(item.name[0]) && !IsSpace(item.name[|item.name| - 1])))
    && |item.materials| > 0
    && Distinct(item.materials)
    && forall i :: 0 <= i < |item.materials| ==> MaterialNameFits(item.materials[i]) && '\n' !in item.materials[i]
  }

  /** Reading an appended line back, the totals computation adds exactly the
      line's own `Total:` list and reports no error. */
  lemma SavedLineTotals(item: Item, b: Blueprint)
    requires |b.quantities| == |item.materials| && ItemFits(item)
    ensures Contribution(SavedLine(item, b) + "\n") == LineTotal(item, b)
    ensures !Fails(SavedLine(item, b) + "\n")
  {
    PerCraftFits(item, b);
    SavedLineContributes(item.name, b.usage, PerCraft(item.materials, b.quantities));
    LineTotalScales(item, b);
  }

  lemma PerCraftFits(item: Item, b: Blueprint)
    requires |b.quantities| == |item.materials| && ItemFits(item)
    ensures var perCraft := PerCraft(item.materials, b.quantities);
      |perCraft| > 0 && MaterialsFit(perCraft)
  {
    PerCraftDistinct(item.materials, b.quantities);
    var z := Zip(item.materials, b.quantities);
    forall i | 0 <= i < |z|
      ensures MaterialNameFits(z[i].material)
    {
      assert z[i].material == Names(z)[i] == item.materials[i];
    }
  }

  /** The sum of the `Total:` entries for `m` over the appended lines. */
  function NeedFor(item: Item, bs: seq<Blueprint>, m: string): int
    requires forall j :: 0 <= j < |bs| ==> |bs[j].quantities| == |item.materials|
    decreases |bs|
  {
    if |bs| == 0 then 0 else SumFor(LineTotal(item, bs[0]), m) + NeedFor(item, bs[1..], m)
  }

  /** After the wizard has appended its lines, the total for each material
      is the old total plus what the new lines' `Total:` lists give it. */
  lemma AddedTotals(before: seq<string>, item: Item, bs: seq<Blueprint>, m: string)
    requires forall j :: 0 <= j < |bs| ==> |bs[j].quantities| == |item.materials|
    requires ItemFits(item)
    ensures Get(Aggregate(before + Newlined(SavedLines(item, bs))).table, m)
         == Get(Aggregate(before).table, m) + NeedFor(item, bs, m)
  {
    var added := Newlined(SavedLines(item, bs));
    AggregateAppendGet(before, added, m);
    AggregateGet(added, m);
    SavedContributions(item, bs, m);
  }

  lemma {:induction false} SavedContributions(item: Item, bs: seq<Blueprint>, m: string)
    requires forall j :: 0 <= j < |bs| ==> |bs[j].quantities| == |item.materials|
    requires ItemFits(item)
    ensures SumFor(Contributions(Newlined(SavedLines(item, bs))), m) == NeedFor(item, bs, m)
    decreases |bs|
  {
    if |bs| > 0 {
      var first := SavedLine(item, bs[0]) + "\n";
      var rest := Newlined(SavedLines(item, bs[1..]));
      NewlinedSavedLines(item, bs);
      SavedLineTotals(item, bs[0]);
      ContributionsCons(first, rest, m);
      SavedContributions(item, bs[1..], m);
    }
  }

  lemma NewlinedSavedLines(item: Item, bs: seq<Blueprint>)
    requires forall j :: 0 <= j < |bs| ==> |bs[j].quantities| == |item.materials|
    requires |bs| > 0
    ensures Newlined(SavedLines(item, bs))
         == [SavedLine(item, bs[0]) + "\n"] + Newlined(SavedLines(item, bs[1..]))
  {
    NewlinedCons(SavedLines(item, bs));
    ConsParts(SavedLine(item, bs[0]), SavedLines(item, bs[1..]));
  }

  /** The first line's contribution comes before the rest's. */
  lemma ContributionsCons(first: string, rest: seq<string>, m: string)
    ensures SumFor(Contributions([first] + rest), m)
         == SumFor(Contribution(first), m) + SumFor(Contributions(rest), m)
  {
    ConcatAppend([first], rest, Contribution);
    SingleContribution(first);
    SumForAppend(Contribution(first), Contributions(rest), m);
  }

  lemma SingleContribution(line: string)
    ensures Contributions([line]) == Contribution(line)
  {
    assert [line][1..] == [];
    assert Concat([], Contribution) == [];
    assert Contribution(line) + [] == Contribution(line);
  }

  /** An appended line is listed under the category of its item. */
  lemma SavedLineListed(cats: seq<Category>, k: int, item: Item, b: Blueprint)
    requires UniqueItems(cats) && 0 <= k < |cats| && item in cats[k].items
    requires |b.quantities| == |item.materials| && ItemFits(item)
    ensures CategoryOfLine(cats, SavedLine(item, b) + "\n") == cats[k].name
  {
    SavedLineName(item, b);
    var j :| 0 <= j < |cats[k].items| && cats[k].items[j] == item;
    assert ItemNames(cats[k].items)[j] == item.name;
    CategoryOfUnique(cats, k, item.name);
  }

  /** The listing reads the item name back from an appended line. */
  lemma SavedLineName(item: Item, b: Blueprint)
    requires |b.quantities| == |item.materials| && ItemFits(item)
    ensures LineName(SavedLine(item, b) + "\n") == item.name
  {
    var perCraft := PerCraft(item.materials, b.quantities);
    var usageText := IntToString(b.usage);
    var materialsText := Join(Render(perCraft), ", ");
    var totalText := Join(Render(Scale(b.usage, perCraft)), ", ");
    assert SavedLine(item, b) == RecordLine(item.name, usageText, materialsText, totalText);
    var rest := RecordTail(usageText, materialsText, totalText);
    RecordLineHead(item.name, usageText, materialsText, totalText);
    assert SavedLine(item, b) + "\n" == item.name + " " + ['|'] + (rest + "\n");
    NameThenBar(item.name, SavedLine(item, b) + "\n", rest + "\n");
  }

  /** A record line after its first `|`. */
  function RecordTail(usageText: string, materialsText: string, totalText: string): string {
    " Usage: " + usageText + " | Materials: " + materialsText + " | Total: " + totalText
  }

  lemma RecordLineHead(name: string, usageText: string, materialsText: string, totalText: string)
    ensures RecordLine(name, usageText, materialsText, totalText)
         == name + " " + ['|'] + RecordTail(usageText, materialsText, totalText)
  {
  }

  lemma NameThenBar(name: string, line: string, rest: string)
    requires '|' !in name
    requires |name| == 0 || (!IsSpace(name[0]) && !IsSpace(name[|name| - 1]))
    requires line == name + " " + ['|'] + rest
    ensures LineName(line) == name
  {
    assert '|' !in name + " ";
    SplitAtFirstSep(name + " ", '|', rest);
    assert "" + name + " " == name + " ";
    StripPadded("", name, " ");
    StripTrimmed(name);
  }

  // ---------------------------------------------------------------------------
  // The catalog and the file

  /** A picked entry is one of the options. */
  lemma SelectIn<T>(answer: string, options: seq<T>)
    ensures Select(answer, options).Picked? ==> Select(answer, options).value in options
  {
  }

  /** The item the wizard works on is listed under some category. */
  lemma PickListed(cats: seq<Category>, input: seq<string>)
    requires Pick(cats, input).Some?
    ensures exists k :: 0 <= k < |cats| && Pick(cats, input).value in cats[k].items
  {
    SelectIn(input[0], cats);
    var category := Select(input[0], cats).value;
    SelectIn(input[1], category.items);
    var k :| 0 <= k < |cats| && cats[k] == category;
  }

  /** An appended line is a single line: it holds no newline. */
  lemma SavedLineOneLine(item: Item, b: Blueprint)
    requires |b.quantities| == |item.materials| && ItemFits(item)
    ensures '\n' !in SavedLine(item, b)
  {
    var perCraft := PerCraft(item.materials, b.quantities);
    PerCraftDistinct(item.materials, b.quantities);
    assert Names(perCraft) == item.materials;
    forall i | 0 <= i < |perCraft|
      ensures '\n' !in perCraft[i].material
    {
      assert perCraft[i].material == Names(perCraft)[i];
    }
    RenderLacksNewline(perCraft);
    var total := Scale(b.usage, perCraft);
    forall i | 0 <= i < |total|
      ensures '\n' !in total[i].material
    {
      assert total[i].material == Names(total)[i] == Names(perCraft)[i];
    }
    RenderLacksNewline(total);
    NumberLacksNewline(b.usage);
    RecordLineOneLine(item.name, IntToString(b.usage), Join(Render(perCraft), ", "), Join(Render(total), ", "));
  }

  lemma RecordLineOneLine(name: string, usageText: string, materialsText: string, totalText: string)
    requires '\n' !in name && '\n' !in usageText && '\n' !in materialsText && '\n' !in totalText
    ensures '\n' !in RecordLine(name, usageText, materialsText, totalText)
  {
  }

  lemma NumberLacksNewline(n: int)
    ensures '\n' !in IntToString(n)
  {
    IntToStringAvoids(n, "\n");
  }

  lemma RenderLacksNewline(amounts: seq<Amount>)
    requires forall i :: 0 <= i < |amounts| ==> '\n' !in amounts[i].material
    ensures '\n' !in Join(Render(amounts), ", ")
  {
    var texts := Render(amounts);
    forall i | 0 <= i < |texts|
      ensures '\n' !in texts[i]
    {
      NumberLacksNewline(amounts[i].quantity);
      assert texts[i] == amounts[i].material + ":" + IntToString(amounts[i].quantity);
    }
    JoinLacksChar(texts, '\n');
  }

  lemma PlainFits(s: string)
    requires Plain(s)
    ensures '|' !in s && ',' !in s && ':' !in s && '\n' !in s
    ensures !IsSpace(s[0]) && !IsSpace(s[|s| - 1])
    ensures !Contains(s, UsageLabel) && !Contains(s, MaterialsLabel)
  {
    PlainChars(s);
    MissingCharNotContained(s, UsageLabel, ':');
    MissingCharNotContained(s, MaterialsLabel, ':');
  }

  lemma PlainChars(s: string)
    requires Plain(s)
    ensures '|' !in s && ',' !in s && ':' !in s && '\n' !in s
    ensures !IsSpace(s[0]) && !IsSpace(s[|s| - 1])
  {
    assert forall i :: 0 <= i < |s| ==> s[i] != '|' && s[i] != ',' && s[i] != ':' && s[i] != '\n';
  }

  lemma {:induction false} PlainMaterialsFit(ms: seq<string>)
    requires PlainMaterials(ms)
    ensures forall i :: 0 <= i < |ms| ==> MaterialNameFits(ms[i]) && '\n' !in ms[i]
    decreases |ms|
  {
    if |ms| > 0 {
      PlainFits(ms[0]);
      PlainMaterialsFit(ms[1..]);
      assert forall i :: 1 <= i < |ms| ==> ms[i] == ms[1..][i - 1];
    }
  }

  /** An item whose name and materials are plain words fits. */
  lemma PlainItemFits(item: Item)
    requires Plain(item.name) && |item.materials| > 0 && Distinct(item.materials)
    requires PlainMaterials(item.materials)
    ensures ItemFits(item)
  {
    PlainFits(item.name);
    PlainMaterialsFit(item.materials);
  }

  /** Every item of the catalog fits. */
  predicate CatalogFits(cats: seq<Category>) {
    forall k, j :: 0 <= k < |cats| && 0 <= j < |cats[k].items| ==> ItemFits(cats[k].items[j])
  }

  /** The built-in catalog fits. */
  lemma BlueprintsFit()
    ensures CatalogFits(Blueprints)
  {
    forall k, j | 0 <= k < |Blueprints| && 0 <= j < |Blueprints[k].items|
      ensures ItemFits(Blueprints[k].items[j])
    {
      BlueprintsPlain(k, j);
      PlainItemFits(Blueprints[k].items[j]);
    }
  }

  /** The item the wizard picks from a fitting catalog fits. */
  lemma PickedFits(cats: seq<Category>, input: seq<string>)
    requires CatalogFits(cats) && Pick(cats, input).Some?
    ensures ItemFits(Pick(cats, input).value)
  {
    var item := Pick(cats, input).value;
    PickListed(cats, input);
    var k :| 0 <= k < |cats| && item in cats[k].items;
    var j :| 0 <= j < |cats[k].items| && cats[k].items[j] == item;
  }

  /** The wizard appends only once an item is picked and the count is a
      number; it then appends at most that many lines, each the saved line
      of one blueprint for the picked item. */
  lemma AddNewSaves(cats: seq<Category>, input: seq<string>)
    ensures var r := AddNew(cats, input);
      r != [] ==> Pick(cats, input).Some? && |input| >= 3 && ParseInt(input[2]).Some?
                  && |r| <= ParseInt(input[2]).value
    ensures var r := AddNew(cats, input);
      Pick(cats, input).Some? ==> forall i :: 0 <= i < |r| ==> SavedFor(Pick(cats, input).value, r[i])
  {
    var r := AddNew(cats, input);
    if Pick(cats, input).Some? && |input| >= 3 && ParseInt(input[2]).Some? {
      var item := Pick(cats, input).value;
      var count := ParseInt(input[2]).value;
      var bs := ReadBlueprints(item.materials, count, input[3..]);
      AddNewOf(cats, input, item, count);
      SavedLinesOf(item, bs, r);
    } else {
      AddNewNothing(cats, input);
    }
  }

  /** Without a picked item and a count, the wizard appends nothing. */
  lemma AddNewNothing(cats: seq<Category>, input: seq<string>)
    requires !(Pick(cats, input).Some? && |input| >= 3 && ParseInt(input[2]).Some?)
    ensures AddNew(cats, input) == []
  {
  }

  /** `line` is the line saved for some blueprint of `item`. */
  ghost predicate SavedFor(item: Item, line: string) {
    exists b: Blueprint :: |b.quantities| == |item.materials| && line == SavedLine(item, b)
  }

  /** Each saved line is the line of one blueprint for the item. */
  lemma SavedLinesOf(item: Item, bs: seq<Blueprint>, r: seq<string>)
    requires forall j :: 0 <= j < |bs| ==> |bs[j].quantities| == |item.materials|
    requires r == SavedLines(item, bs)
    ensures forall i :: 0 <= i < |r| ==> SavedFor(item, r[i])
  {
    forall i | 0 <= i < |r|
      ensures SavedFor(item, r[i])
    {
      var b := bs[i];
      SavedLinesIndex(item, bs, i);
      assert |b.quantities| == |item.materials| && r[i] == SavedLine(item, b);
    }
  }

  /** Typing the printed numbers of a category and an item, then a count and
      each blueprint's usage count and quantities, appends exactly the lines
      for those blueprints, in order. */
  lemma AddNewAnswered(cats: seq<Category>, k: int, j: int, bs: seq<Blueprint>, more: seq<string>, input: seq<string>)
    requires 0 <= k < |cats| && 0 <= j < |cats[k].items|
    requires forall i :: 0 <= i < |bs| ==> |bs[i].quantities| == |cats[k].items[j].materials|
    requires input == [IntToString(k + 1), IntToString(j + 1), IntToString(|bs|)] + Answers(bs) + more
    ensures AddNew(cats, input) == SavedLines(cats[k].items[j], bs)
  {
    var item := cats[k].items[j];
    PickAnswered(cats, k, j, input);
    ParseIntToString(|bs|);
    AddNewOf(cats, input, item, |bs|);
    DropThree(IntToString(k + 1), IntToString(j + 1), IntToString(|bs|), Answers(bs), more);
    ReadBlueprintsAnswered(item.materials, bs, more);
  }

  /** Dropping the three leading answers leaves the rest of the input. */
  lemma DropThree(a: string, b: string, c: string, xs: seq<string>, ys: seq<string>)
    ensures ([a, b, c] + xs + ys)[3..] == xs + ys
  {
    assert ([a, b, c] + xs + ys)[3..] == ([a, b, c] + (xs + ys))[3..];
  }

  /** Typing the printed numbers of a category and of one of its items picks
      that item. */
  lemma PickAnswered(cats: seq<Category>, k: int, j: int, input: seq<string>)
    requires 0 <= k < |cats| && 0 <= j < |cats[k].items|
    requires |input| >= 2 && input[0] == IntToString(k + 1) && input[1] == IntToString(j + 1)
    ensures Pick(cats, input) == Some(cats[k].items[j])
  {
    SelectListed(cats, k + 1);
    SelectListed(cats[k].items, j + 1);
  }

  lemma AddNewOf(cats: seq<Category>, input: seq<string>, item: Item, count: int)
    requires Pick(cats, input) == Some(item) && |input| >= 3 && ParseInt(input[2]) == Some(count)
    ensures AddNew(cats, input) == SavedLines(item, ReadBlueprints(item.materials, count, input[3..]))
  {
  }

  /** Appending the lines of fitting blueprints adds one line each. */
  lemma SavedLinesReadBack(content: string, item: Item, bs: seq<Blueprint>)
    requires |content| == 0 || content[|content| - 1] == '\n'
    requires forall j :: 0 <= j < |bs| ==> |bs[j].quantities| == |item.materials|
    requires ItemFits(item)
    ensures ReadLines(AppendAll(content, SavedLines(item, bs))) == ReadLines(content) + Newlined(SavedLines(item, bs))
  {
    var saved := SavedLines(item, bs);
    forall i | 0 <= i < |saved|
      ensures '\n' !in saved[i]
    {
      SavedLinesIndex(item, bs, i);
      SavedLineOneLine(item, bs[i]);
    }
    AppendAllReads(content, saved);
  }

  /** After the wizard, the file reads back as the lines it held before
      followed by one line per appended blueprint. */
  lemma AddNewReadsBack(cats: seq<Category>, content: string, input: seq<string>)
    requires CatalogFits(cats)
    requires |content| == 0 || content[|content| - 1] == '\n'
    ensures ReadLines(AppendAll(content, AddNew(cats, input)))
         == ReadLines(content) + Newlined(AddNew(cats, input))
  {
    var saved := AddNew(cats, input);
    AddNewSaves(cats, input);
    if |saved| > 0 {
      var item := Pick(cats, input).value;
      PickedFits(cats, input);
      SavedLinesReadBack(content, item, ReadBlueprints(item.materials, ParseInt(input[2]).value, input[3..]));
    } else {
      AppendAllReads(content, saved);
    }
  }

  /** After the wizard, "View Total Materials Needed" reports for every
      material its old total plus the `Total:` entries of the new lines. */
  lemma AddNewTotals(cats: seq<Category>, content: string, input: seq<string>, item: Item, count: int, m: string)
    requires CatalogFits(cats)
    requires |content| == 0 || content[|content| - 1] == '\n'
    requires Pick(cats, input) == Some(item)
    requires |input| >= 3 && ParseInt(input[2]) == Some(count)
    ensures Get(Aggregate(ReadLines(AppendAll(content, AddNew(cats, input)))).table, m)
         == Get(Aggregate(ReadLines(content)).table, m) + NeedFor(item, ReadBlueprints(item.materials, count, input[3..]), m)
  {
    AddNewReadsBack(cats, content, input);
    PickedFits(cats, input);
    var bs := ReadBlueprints(item.materials, count, input[3..]);
    assert AddNew(cats, input) == SavedLines(item, bs);
    AddedTotals(ReadLines(content), item, bs, m);
  }

  /** After the wizard, every new line is listed under the category of the
      item it was made for. */
  lemma AddNewListed(cats: seq<Category>, input: seq<string>, k: int, i: int)
    requires CatalogFits(cats) && UniqueItems(cats)
    requires Pick(cats, input).Some? && 0 <= k < |cats|
    requires Pick(cats, input).value in cats[k].items
    requires 0 <= i < |AddNew(cats, input)|
    ensures CategoryOfLine(cats, AddNew(cats, input)[i] + "\n") == cats[k].name
  {
    var item := Pick(cats, input).value;
    PickedFits(cats, input);
    var bs := ReadBlueprints(item.materials, ParseInt(input[2]).value, input[3..]);
    SavedLinesIndex(item, bs, i);
    assert AddNew(cats, input)[i] == SavedLine(item, bs[i]);
    SavedLineListed(cats, k, item, bs[i]);
  }
}
