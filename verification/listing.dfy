/** The "View Existing Blueprints" screen: every stored line, numbered from 1
    in file order, is filed under the catalog category of the item name it
    starts with, or under "Unknown". */
module Listing {
  import opened Text
  import opened Catalog

  /** One listed line: its 1-based position in the file and its stripped text. */
  datatype Entry = Entry(number: int, text: string)

  /** One printed block: a heading and the entries under it. */
  datatype Section = Section(category: string, entries: seq<Entry>)

  datatype Listing =
    | NoBlueprints               // the file is missing or empty
    | Shown(sections: seq<Section>)

  /** `line.split("|")[0].strip()`: the item name a stored line starts with. */
  function LineName(line: string): string {
    Strip(Split(line, '|')[0])
  }

  /** The keys of `categorized`: the catalog categories, then "Unknown". */
  function BucketNames(cats: seq<Category>): seq<string> {
    CategoryNames(cats) + [Unknown]
  }

  /** The category a stored line is listed under. */
  function CategoryOfLine(cats: seq<Category>, line: string): string {
    CategoryOf(cats, LineName(line))
  }

  /** `categorized` after the loop over the lines: each line is appended to
      the bucket of its category. */
  function Classify(cats: seq<Category>, lines: seq<string>): (buckets: map<string, seq<Entry>>)
    ensures forall c :: c in buckets <==> c in BucketNames(cats)
  {
    LinesHaveBuckets(cats);
    FileAll(BucketNames(cats), line => CategoryOfLine(cats, line), lines)
  }

  /** The buckets after the first `|lines|` lines have been filed under the
      keys that `category` picks, starting from one empty bucket per key; no
      bucket is ever created or lost. */
  function FileAll(keys: seq<string>, category: string -> string, lines: seq<string>): (buckets: map<string, seq<Entry>>)
    requires forall line :: category(line) in keys
    ensures forall c :: c in buckets <==> c in keys
    decreases |lines|
  {
    if |lines| == 0 then map c | c in keys :: []
    else
      var n := |lines|;
      var buckets := FileAll(keys, category, lines[..n - 1]);
      var c := category(lines[n - 1]);
      buckets[c := buckets[c] + [Entry(n, Strip(lines[n - 1]))]]
  }

  lemma LinesHaveBuckets(cats: seq<Category>)
    ensures forall line :: CategoryOfLine(cats, line) in BucketNames(cats)
  {
    forall line
      ensures CategoryOfLine(cats, line) in BucketNames(cats)
    {
      CategoryOfKnown(cats, LineName(line));
    }
  }

  /** Some entry of `entries` carries number `i`. */
  predicate Numbered(entries: seq<Entry>, i: int) {
    exists j :: 0 <= j < |entries| && entries[j].number == i
  }

  /** `show_existing_blueprints`: nothing when no line is stored; otherwise
      every catalog category in catalog order, then "Unknown" only when some
      line landed there. */
  function ShowExisting(cats: seq<Category>, lines: seq<string>): Listing {
    if |lines| == 0 then NoBlueprints
    else Shown(Sections(cats, Classify(cats, lines)))
  }

  /** The printed blocks for filled buckets: one per catalog category, then
      "Unknown" if its bucket is not empty. */
  function Sections(cats: seq<Category>, buckets: map<string, seq<Entry>>): seq<Section>
    requires forall c :: c in BucketNames(cats) ==> c in buckets
  {
    seq(|cats|, k requires 0 <= k < |cats| => Section(cats[k].name, buckets[CategoryNames(cats)[k]]))
      + (if buckets[Unknown] != [] then [Section(Unknown, buckets[Unknown])] else [])
  }

  // ---------------------------------------------------------------------------
  // Classification

  /** Every filed entry is a stored line, with its own number and stripped
      text, sitting in the bucket of that line's category. */
  lemma {:induction false} FileSound(keys: seq<string>, category: string -> string, lines: seq<string>, c: string, j: int)
    requires forall line :: category(line) in keys
    requires c in FileAll(keys, category, lines) && 0 <= j < |FileAll(keys, category, lines)[c]|
    ensures var e := FileAll(keys, category, lines)[c][j];
      && 1 <= e.number <= |lines|
      && e.text == Strip(lines[e.number - 1])
      && category(lines[e.number - 1]) == c
    decreases |lines|
  {
    var n := |lines|;
    var front := lines[..n - 1];
    var before := FileAll(keys, category, front);
    var d := category(lines[n - 1]);
    assert FileAll(keys, category, lines) == before[d := before[d] + [Entry(n, Strip(lines[n - 1]))]];
    if c != d || j < |before[c]| {
      assert FileAll(keys, category, lines)[c][j] == before[c][j];
      FileSound(keys, category, front, c, j);
      var e := before[c][j];
      assert front[e.number - 1] == lines[e.number - 1];
    }
  }

  /** Each bucket keeps file order. */
  lemma {:induction false} FileOrdered(keys: seq<string>, category: string -> string, lines: seq<string>, c: string, i: int, j: int)
    requires forall line :: category(line) in keys
    requires c in FileAll(keys, category, lines) && 0 <= i < j < |FileAll(keys, category, lines)[c]|
    ensures FileAll(keys, category, lines)[c][i].number < FileAll(keys, category, lines)[c][j].number
    decreases |lines|
  {
    var n := |lines|;
    var front := lines[..n - 1];
    var before := FileAll(keys, category, front);
    var d := category(lines[n - 1]);
    assert FileAll(keys, category, lines) == before[d := before[d] + [Entry(n, Strip(lines[n - 1]))]];
    assert FileAll(keys, category, lines)[c][i] == before[c][i];
    if c != d || j < |before[c]| {
      assert FileAll(keys, category, lines)[c][j] == before[c][j];
      FileOrdered(keys, category, front, c, i, j);
    } else {
      FileSound(keys, category, front, c, i);
    }
  }

  /** Every stored line is filed under its category. */
  lemma {:induction false} FileComplete(keys: seq<string>, category: string -> string, lines: seq<string>, i: int)
    requires forall line :: category(line) in keys
    requires 1 <= i <= |lines|
    ensures var c := category(lines[i - 1]);
      c in FileAll(keys, category, lines) && Entry(i, Strip(lines[i - 1])) in FileAll(keys, category, lines)[c]
    decreases |lines|
  {
    var n := |lines|;
    var front := lines[..n - 1];
    var before := FileAll(keys, category, front);
    var d := category(lines[n - 1]);
    assert FileAll(keys, category, lines) == before[d := before[d] + [Entry(n, Strip(lines[n - 1]))]];
    if i < n {
      FileComplete(keys, category, front, i);
      assert front[i - 1] == lines[i - 1];
    }
  }

  /** Line `i` is filed under bucket `c` exactly when `c` is its category. */
  lemma FilePartition(keys: seq<string>, category: string -> string, lines: seq<string>, i: int, c: string)
    requires forall line :: category(line) in keys
    requires 1 <= i <= |lines| && c in FileAll(keys, category, lines)
    ensures Numbered(FileAll(keys, category, lines)[c], i) <==> c == category(lines[i - 1])
  {
    var entries := FileAll(keys, category, lines)[c];
    FileComplete(keys, category, lines, i);
    if Numbered(entries, i) {
      var j :| 0 <= j < |entries| && entries[j].number == i;
      FileSound(keys, category, lines, c, j);
    }
  }

  /** Every listed entry is a stored line under its own category. */
  lemma ClassifySound(cats: seq<Category>, lines: seq<string>, c: string, j: int)
    requires c in Classify(cats, lines) && 0 <= j < |Classify(cats, lines)[c]|
    ensures var e := Classify(cats, lines)[c][j];
      && 1 <= e.number <= |lines|
      && e.text == Strip(lines[e.number - 1])
      && CategoryOfLine(cats, lines[e.number - 1]) == c
  {
    LinesHaveBuckets(cats);
    FileSound(BucketNames(cats), line => CategoryOfLine(cats, line), lines, c, j);
  }

  /** Each bucket lists its lines in file order. */
  lemma ClassifyOrdered(cats: seq<Category>, lines: seq<string>, c: string, i: int, j: int)
    requires c in Classify(cats, lines) && 0 <= i < j < |Classify(cats, lines)[c]|
    ensures Classify(cats, lines)[c][i].number < Classify(cats, lines)[c][j].number
  {
    LinesHaveBuckets(cats);
    FileOrdered(BucketNames(cats), line => CategoryOfLine(cats, line), lines, c, i, j);
  }

  /** Every stored line is listed under its category. */
  lemma ClassifyComplete(cats: seq<Category>, lines: seq<string>, i: int)
    requires 1 <= i <= |lines|
    ensures var c := CategoryOfLine(cats, lines[i - 1]);
      c in Classify(cats, lines) && Entry(i, Strip(lines[i - 1])) in Classify(cats, lines)[c]
  {
    LinesHaveBuckets(cats);
    FileComplete(BucketNames(cats), line => CategoryOfLine(cats, line), lines, i);
  }

  /** Line `i` is listed under bucket `c` exactly when `c` is its category, so
      it is listed exactly once. */
  lemma ClassifyPartition(cats: seq<Category>, lines: seq<string>, i: int, c: string)
    requires 1 <= i <= |lines| && c in Classify(cats, lines)
    ensures Numbered(Classify(cats, lines)[c], i) <==> c == CategoryOfLine(cats, lines[i - 1])
  {
    LinesHaveBuckets(cats);
    FilePartition(BucketNames(cats), line => CategoryOfLine(cats, line), lines, i, c);
  }

  // ---------------------------------------------------------------------------
  // The screen

  /** Catalog categories first and in catalog order, each with its bucket;
      then the "Unknown" bucket only when it is not empty. */
  lemma SectionsLayout(cats: seq<Category>, buckets: map<string, seq<Entry>>)
    requires forall c :: c in BucketNames(cats) ==> c in buckets
    ensures var sections := Sections(cats, buckets);
      && |cats| <= |sections| <= |cats| + 1
      && (forall k :: 0 <= k < |cats| ==> sections[k] == Section(cats[k].name, buckets[CategoryNames(cats)[k]]))
      && (|sections| == |cats| + 1 <==> buckets[Unknown] != [])
      && (|sections| == |cats| + 1 ==> sections[|cats|] == Section(Unknown, buckets[Unknown]))
  {
    var sections := Sections(cats, buckets);
    forall k | 0 <= k < |cats|
      ensures sections[k] == Section(cats[k].name, buckets[CategoryNames(cats)[k]])
    {
    }
  }

  /** Some stored line is filed under "Unknown" exactly when that bucket is
      not empty. */
  lemma UnknownFilled(cats: seq<Category>, lines: seq<string>)
    ensures Classify(cats, lines)[Unknown] != [] <==> exists j :: 0 <= j < |lines| && CategoryOfLine(cats, lines[j]) == Unknown
  {
    if Classify(cats, lines)[Unknown] != [] {
      ClassifySound(cats, lines, Unknown, 0);
    }
    if j :| 0 <= j < |lines| && CategoryOfLine(cats, lines[j]) == Unknown {
      ClassifyComplete(cats, lines, j + 1);
    }
  }

  /** Nothing but the "no blueprints" message is shown exactly when no line
      is stored. Otherwise the catalog categories come first and in catalog
      order, and the "Unknown" section follows exactly when some stored line
      names an item the catalog does not file. */
  lemma ShownLayout(cats: seq<Category>, lines: seq<string>)
    ensures ShowExisting(cats, lines).NoBlueprints? <==> |lines| == 0
    ensures |lines| > 0 ==> ShowExisting(cats, lines).Shown?
    ensures |lines| > 0 ==>
      var sections := ShowExisting(cats, lines).sections;
      && |cats| <= |sections| <= |cats| + 1
      && (forall k :: 0 <= k < |cats| ==> sections[k].category == cats[k].name)
      && (|sections| == |cats| + 1 <==> exists j :: 0 <= j < |lines| && CategoryOfLine(cats, lines[j]) == Unknown)
      && (|sections| == |cats| + 1 ==> sections[|cats|].category == Unknown)
  {
    if |lines| > 0 {
      var buckets := Classify(cats, lines);
      assert ShowExisting(cats, lines) == Shown(Sections(cats, buckets));
      SectionsLayout(cats, buckets);
      UnknownFilled(cats, lines);
    }
  }

  /** Every stored line shows up under the section of its category, and under
      no other. */
  lemma ShownOnce(cats: seq<Category>, lines: seq<string>, i: int)
    requires 1 <= i <= |lines|
    ensures ShowExisting(cats, lines).Shown?
    ensures var sections := ShowExisting(cats, lines).sections;
      var c := CategoryOfLine(cats, lines[i - 1]);
      && (exists s :: 0 <= s < |sections| && sections[s].category == c)
      && forall s :: 0 <= s < |sections| ==> (Numbered(sections[s].entries, i) <==> sections[s].category == c)
  {
    var buckets := Classify(cats, lines);
    var sections := Sections(cats, buckets);
    assert ShowExisting(cats, lines) == Shown(sections);
    var c := CategoryOfLine(cats, lines[i - 1]);
    SectionsLayout(cats, buckets);
    forall s | 0 <= s < |sections|
      ensures Numbered(sections[s].entries, i) <==> sections[s].category == c
    {
      assert sections[s].entries == buckets[sections[s].category];
      ClassifyPartition(cats, lines, i, sections[s].category);
    }
    ShownHome(cats, lines, i);
  }

  /** The section for a line's category is on the screen. */
  lemma ShownHome(cats: seq<Category>, lines: seq<string>, i: int)
    requires 1 <= i <= |lines|
    ensures var sections := Sections(cats, Classify(cats, lines));
      exists s :: 0 <= s < |sections| && sections[s].category == CategoryOfLine(cats, lines[i - 1])
  {
    var buckets := Classify(cats, lines);
    var sections := Sections(cats, buckets);
    var c := CategoryOfLine(cats, lines[i - 1]);
    SectionsLayout(cats, buckets);
    LinesHaveBuckets(cats);
    assert c in BucketNames(cats);
    if c == Unknown {
      ClassifyComplete(cats, lines, i);
      assert sections[|cats|].category == c;
    } else {
      var k :| 0 <= k < |cats| && CategoryNames(cats)[k] == c;
      assert sections[k].category == c;
    }
  }

  /** With distinct category names, no two sections share a heading. */
  lemma SectionsDistinct(cats: seq<Category>, lines: seq<string>)
    requires WellFormed(cats) && |lines| > 0
    ensures var sections := ShowExisting(cats, lines).sections;
      forall s, t :: 0 <= s < t < |sections| ==> sections[s].category != sections[t].category
  {
    var buckets := Classify(cats, lines);
    var sections := Sections(cats, buckets);
    assert ShowExisting(cats, lines) == Shown(sections);
    SectionsLayout(cats, buckets);
    forall s, t | 0 <= s < t < |sections|
      ensures sections[s].category != sections[t].category
    {
      assert sections[s].category == CategoryNames(cats)[s];
      if t < |cats| {
        assert sections[t].category == CategoryNames(cats)[t];
      }
    }
  }
}
