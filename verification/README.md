# Blueprint Tracker, modelled in Dafny

Blueprint Tracker is a one-file interactive script (`bbp-script.py`). It keeps
crafting blueprints for a game in a text file, one blueprint per line:

```
<item> | Usage: <u> | Materials: <m1>:<q1>, <m2>:<q2>, ... | Total: <m1>:<u*q1>, <m2>:<u*q2>, ...
```

A static catalog groups items into categories: Craft, Cooking and
Manufacturing. Each item lists the materials one craft needs. The script's
menu offers four operations:

- list the stored lines by category;
- delete a line by its number;
- add blueprints through a wizard;
- add up the materials all stored blueprints need.

This project models the logic behind those operations as pure Dafny functions
and proves what they guarantee. The file, the prompts and Python's exceptions
become values:

- the file is its text; `readlines()` cuts it into lines;
- a prompt's answers are a sequence of strings;
- an exception is the `None` or error case of a datatype.

The modules follow the script's structure:

| module | file | what it holds |
|---|---|---|
| `Wrappers` | wrappers.dfy | `Option` |
| `Text` | text.dfy | Python's `strip`, `split`, `", ".join`, `in` and `replace` on strings |
| `Numbers` | numbers.dfy | `int()` on text and `str()` on integers |
| `Tally` | tally.dfy | insertion-ordered dicts from material to quantity |
| `Catalog` | catalog.dfy | `blueprint_types`; the item-to-category map |
| `Records` | records.dfy | the saved line: building it, and reading its fields back |
| `Totals` | totals.dfy | `calculate_total_materials` |
| `Listing` | listing.dfy | `show_existing_blueprints` |
| `Store` | store.dfy | `readlines`, `writelines`, `append_line`, `delete_blueprint` |
| `Words` | words.dfy | proofs that every catalog name is made of plain words |
| `Wizard` | wizard.dfy | `add_new_blueprints`: menus, prompt loops, and the lines it appends |

The model follows the code as written; in particular:

- Totals are not all-or-nothing per line. When a pair of a line fails to
  parse, the pairs before it on that line stay counted. The line is still
  reported as an error.
- The usage and materials fields are the first `|`-fields that *contain*
  `Usage:` or `Materials:`, not fields that start with them. The label is
  removed wherever it occurs in the field (`str.replace`).
- Usage counts may be negative, since `int()` accepts a sign.
- `int()` skips less whitespace than `str.strip()`. The ASCII separators
  `\x1c`-`\x1f` are whitespace to `str.isspace()` but make `int()` raise.
  The model therefore has two sets: `Text.IsSpace` and `Numbers.IntSpace`.
  Where the script calls `int()` on unstripped text, such as the delete
  answer and the quantity after `:`, an answer like `"\x1c1"` is neither
  blank nor a number.
- Listed entries show the stripped line text (`line.strip()`).
- The item-to-category map is last-wins when two categories list the same
  item. The built-in catalog has no such item (`Catalog.BlueprintsUnique`).
- A saved line reads back as what was saved only under conditions on the
  names. Item and material names must hold no `|`, and the item name no
  label. Material names must hold no `,` or `:`, must not start with
  whitespace, and must not end in "Materials". The last condition is needed
  because `replace("Materials:", "")` would also eat the `:` after such a
  name. Every name in the built-in catalog meets these conditions
  (`Wizard.BlueprintsFit`).
- `append_line` adds one line only when the file is empty or already ends in
  a newline. The script only ever writes whole lines, so its own files always
  qualify. A file edited by hand to lack the final newline gets the new
  record glued to its last line. `Store.AppendReads` states the condition,
  and `Store.AppendAllWholeLines` and `Store.DeleteWholeLines` show that
  appending and deleting keep it.

## Model

| member | source | states |
|---|---|---|
| Catalog.BlueprintsWellFormed | bbp-script.py:3-14 | The catalog's category names are distinct, no category is called "Unknown", and item names are distinct within each category. |
| Catalog.BlueprintsUnique | bbp-script.py:3-14 | No item name is listed under two categories, so the reverse map loses nothing. |
| Words.BlueprintsPlain | bbp-script.py:3-14 | Every catalog item has a name made of letters and inner spaces, and at least one material. Its materials are distinct plain names, none ending in "Materials". |
| Wizard.BlueprintsFit | bbp-script.py:3-14 | Every catalog item meets the conditions under which its saved lines read back, are listed under its category, and add to the totals. |
| Catalog.CategoryOfSpec | bbp-script.py:41-49 | A name listed by some category maps to the last category that lists it. A name no category lists maps to "Unknown". |
| Catalog.CategoryOfKnown | bbp-script.py:41-49 | The category found for any name is a catalog category or "Unknown". |
| Catalog.CategoryOfUnique | bbp-script.py:41-49 | When no item is listed twice, an item maps to the one category that lists it. |
| Text.StripSpec | bbp-script.py:48 | `strip()` is empty exactly when the text is all whitespace. Otherwise it starts and ends with a non-whitespace character. |
| Text.LStripSpec | bbp-script.py:48 | The left strip is a suffix of the text, and everything cut off before it is whitespace. |
| Text.RStripSpec | bbp-script.py:48 | The right strip is a prefix of the text, and everything cut off after it is whitespace. |
| Text.StripIdempotent | bbp-script.py:48 | Stripping twice is stripping once. |
| Text.JoinSplit | bbp-script.py:102 | Joining the pieces of `split(sep)` with `sep` gives the text back. |
| Text.SplitJoin | bbp-script.py:107 | Splitting a join of separator-free pieces gives the pieces back. |
| Text.ContainsIffOccurs | bbp-script.py:99 | `p in s` holds exactly when `p` occurs in `s` at some offset. |
| Numbers.IntToString | bbp-script.py:191 | `str(n)` is non-empty and ends in a digit. It starts with '-' exactly when `n` is negative. Every other character is a digit. |
| Numbers.ParseIntToString | bbp-script.py:106 | `int(str(n)) == n` for every integer. |
| Numbers.ParseIntPadded | bbp-script.py:106 | The whitespace `int()` skips around a number does not change what it reads. That whitespace is every `str.isspace()` character except `\x1c`-`\x1f`. |
| Numbers.ParseIntSeparator | bbp-script.py:106 | `int()` rejects text that starts with one of `\x1c`-`\x1f`, although `str.isspace()` counts them as whitespace. |
| Numbers.ParseIntBlank | bbp-script.py:106 | `int()` rejects blank text. |
| Tally.AddSpec | bbp-script.py:113-115 | Adding to a known material grows it in place. A new material goes last. No other material changes. |
| Tally.PutSpec | bbp-script.py:179 | Setting a known material replaces its value in place. A new material goes last. No other material changes. |
| Tally.ScaleIntoSpec | bbp-script.py:184-186 | Filling a fresh dict with `d[mat] = qty * factor` from a dict's items keeps its materials in order and multiplies each quantity by the factor. |
| Tally.AddAllGet | bbp-script.py:109-115 | After a list of amounts is added, each material holds its old quantity plus the sum listed for it. |
| Tally.AddAllNames | bbp-script.py:109-115 | After a list of amounts is added, the old keys keep their order and new materials follow in first-seen order. |
| Tally.AddAllFresh | bbp-script.py:109-115 | Adding distinct materials the dict lacks appends them as they are. |
| Records.FirstContainingSpec | bbp-script.py:103-104 | The field search returns the first field holding the label, and fails exactly when no field holds it. |
| Records.ParseAllSome | bbp-script.py:109-111 | The pairs parse to a list exactly when each entry parses to that list's element at the same position. |
| Records.ParseAllNone | bbp-script.py:109-111 | Parsing the pairs fails exactly when some entry fails. |
| Records.ParseEntryRendered | bbp-script.py:110-111 | A pair written as `f"{mat}:{qty}"` parses back to the same pair, for a material name that fits. |
| Records.SplitCommaJoin | bbp-script.py:107 | Splitting a `", "`-join on `,` gives the texts back, up to the space after each comma. |
| Records.RenderedListParses | bbp-script.py:104-111 | A `Materials:` list written by the add flow parses back to exactly its pairs, in order. |
| Records.RecordLayout | bbp-script.py:101-106 | A line in the saved layout reads back as its usage and its comma-separated materials text. A usage text that `int()` rejects once stripped makes the line unreadable. |
| Records.FormatLineReads | bbp-script.py:98-111 | A saved line reads back as exactly the usage and the per-craft pairs it was built from. |
| Records.PerCraftKeysDistinct | bbp-script.py:174-179 | The per-craft dict never holds a material twice, whatever the catalog lists. |
| Records.PerCraftDistinct | bbp-script.py:174-179 | With distinct materials, the per-craft dict is the materials zipped with their quantities, in catalog order. |
| Totals.LeadingSpec | bbp-script.py:109-117 | The pairs counted for a line are the parses before the first failure. Counting stops at the end or at a failure. |
| Totals.ScanAddsLeading | bbp-script.py:109-117 | The pair loop adds usage times each pair before the first bad one. It fails exactly when some pair is bad. |
| Totals.ProcessLineSpec | bbp-script.py:98-117 | Processing a line adds its contribution and reports it exactly when it fails. |
| Totals.RunSpec | bbp-script.py:98-117 | The line loop adds every line's contribution in file order and reports the failing lines in file order. |
| Totals.AggregateSpec | bbp-script.py:96-117 | The totals are every line's contribution added to an empty dict. The report is the failing lines. |
| Totals.AggregateGet | bbp-script.py:96-117 | Each material's total is the sum over all lines of usage times its per-craft quantity, counting only the pairs before a line's first bad one. |
| Totals.AggregateNames | bbp-script.py:113-121 | The totals list each contributed material once, in first-seen order. |
| Totals.AggregateAppendGet | bbp-script.py:96-117 | Totals are additive: the totals of two runs of lines sum material by material. |
| Totals.AggregateAppendNames | bbp-script.py:113-121 | Over two runs of lines, the first run's materials come first and the second run's new materials follow in their own order. |
| Totals.AggregateAppendErrors | bbp-script.py:116-117 | The error report of two runs of lines is the first run's report followed by the second's. |
| Totals.CalculateTotals | bbp-script.py:90-94 | There is nothing to calculate exactly when no line is stored. |
| Totals.NoBarSkipped | bbp-script.py:99-100 | A line without `|` changes nothing and is not reported. |
| Totals.MissingLabelFails | bbp-script.py:103-104 | A line with `|` but no `Usage:` or no `Materials:` is reported and changes nothing. |
| Totals.BadUsageFails | bbp-script.py:106 | A record whose usage is not an integer is reported and changes nothing. |
| Totals.BadPairKeepsPrefix | bbp-script.py:109-117 | A bad pair keeps the pairs before it in the totals, and the line is reported. |
| Totals.GoodLineAddsAll | bbp-script.py:109-115 | A readable line whose pairs all parse adds usage times each of them and is not reported. |
| Totals.SavedLineContributes | bbp-script.py:98-115 | A line formatted like the add flow's, with a newline after it, contributes usage times each per-craft quantity and reports no error. |
| Totals.SavedLineAdds | bbp-script.py:98-115 | A line written by the add flow adds usage times each per-craft quantity and is not reported. |
| Totals.FirstSavedLine | bbp-script.py:96-121 | A store holding one saved line totals to `m -> u*q` for each of its materials, in catalog order, with no error. |
| Totals.NoMaterialsFails | bbp-script.py:104-110 | A line saved for an item without materials has an empty `Materials:` list. It is reported and adds nothing. |
| Listing.Classify | bbp-script.py:37-38 | The buckets are exactly the catalog categories plus "Unknown". |
| Listing.ClassifySound | bbp-script.py:47-50 | Every listed entry is a stored line, with its 1-based number and stripped text, in the bucket of its category. |
| Listing.ClassifyOrdered | bbp-script.py:47-50 | Each bucket lists its lines in file order. |
| Listing.ClassifyComplete | bbp-script.py:47-50 | Every stored line is listed under its category. |
| Listing.ClassifyPartition | bbp-script.py:47-50 | A line is listed under a bucket exactly when that bucket is its category, so it is listed once. |
| Listing.UnknownFilled | bbp-script.py:60-64 | The "Unknown" bucket is non-empty exactly when some stored line names an item the catalog does not file. |
| Listing.ShownLayout | bbp-script.py:31-64 | Only the "no blueprints" message is shown, and exactly when the store is empty. Otherwise catalog categories come first, and an "Unknown" section follows exactly when some line needs it. |
| Listing.ShownOnce | bbp-script.py:46-64 | Every stored line is shown under its category's section and under no other. |
| Listing.SectionsDistinct | bbp-script.py:52-64 | With distinct category names, no two sections share a heading. |
| Store.WriteReadLines | bbp-script.py:16-25 | Writing back the lines that were read gives the file text back. |
| Store.ReadLinesShape | bbp-script.py:16-21 | `readlines()` returns non-empty lines, each ending in a newline except perhaps the last. |
| Store.ReadWriteLines | bbp-script.py:16-25 | Reading back what was written gives the same lines, whenever they have the shape `readlines()` produces. |
| Store.AppendAllWholeLines | bbp-script.py:27-29 | However often `append_line` runs, a file that is empty or ends in a newline still ends in one. |
| Store.DeleteWholeLines | bbp-script.py:68-88 | Deleting a line from a file that is empty or ends in a newline leaves a file that is empty or ends in one. |
| Store.AppendReads | bbp-script.py:27-29 | Appending a text without a newline adds exactly one line, `text + "\n"`, after the old lines, provided the file ends in a newline or is empty. |
| Store.AppendAllReads | bbp-script.py:27-29 | Appending several texts adds one line per text, in order. |
| Store.DeleteSpec | bbp-script.py:68-87 | A line is removed exactly when the answer reads as a number from 1 to the line count. The removed line is the one at that position, and the others stay in order. |
| Store.DeleteKeepsOthers | bbp-script.py:80-82 | Removal loses the chosen line and nothing else. |
| Store.DeleteRejects | bbp-script.py:69-87 | An answer that does not read as a number in 1..len(lines) leaves the file unchanged. Cancellation happens exactly for a blank answer on a non-empty store. |
| Store.DeleteSeparatorKeeps | bbp-script.py:75-87 | An answer that starts with one of `\x1c`-`\x1f` never deletes a line. `strip()` drops these characters, but `int()` does not. |
| Store.DeleteRereads | bbp-script.py:80-82 | After a deletion, the file reads back as exactly the remaining lines. |
| Store.RemoveWellSplit | bbp-script.py:81-82 | Dropping one line keeps the shape `readlines()` produces. |
| Store.AppendThenDelete | bbp-script.py:27-87 | Deleting by the number of the line just appended removes that line and gives back the lines from before. |
| Wizard.SelectSpec | bbp-script.py:131-139 | "back" in any case returns. A number `c` picks entry `c - 1`, counted from the end when `c <= 0`, exactly when `-len < c <= len`. Anything else is rejected. |
| Wizard.SelectListed | bbp-script.py:126-136 | The number printed before a menu entry picks that entry. |
| Wizard.BackSavesNothing | bbp-script.py:129-132 | Going back at the first menu appends nothing. |
| Wizard.PickListed | bbp-script.py:134-158 | The item the wizard works on is listed under some catalog category. |
| Wizard.RetrySpec | bbp-script.py:176-182 | The retry loop settles on the first answer the parser accepts and leaves the answers after it. It finds none exactly when the parser accepts none. |
| Wizard.ReadQuantitySpec | bbp-script.py:176-182 | The quantity prompt settles on the first answer `int()` accepts. It finds none exactly when no answer is a number. |
| Wizard.ReadQuantities | bbp-script.py:175-182 | The prompts give one quantity per material. |
| Wizard.ReadBlueprints | bbp-script.py:166-172 | At most `count` blueprints are made, each with one quantity per material. |
| Wizard.ReadQuantitiesAnswered | bbp-script.py:175-182 | Answering each quantity prompt with the printed number of a quantity reads exactly those quantities and leaves the later answers. |
| Wizard.RetryEachAnswered | bbp-script.py:175-182 | For any parser, a run of accepted answers, one per prompt, is read in order and the answers after it are left. |
| Wizard.ReadBlueprintsAnswered | bbp-script.py:166-182 | Answering the usage and quantity prompts with the printed numbers of some blueprints reads exactly those blueprints. |
| Wizard.PickAnswered | bbp-script.py:129-156 | Typing the printed numbers of a category and of one of its items picks that item. |
| Wizard.AddNewAnswered | bbp-script.py:123-194 | Answering the whole wizard with a category, an item, a count and the numbers of some blueprints appends exactly the lines of those blueprints. |
| Wizard.SavedLineLayout | bbp-script.py:184-191 | The appended line holds the item name, the usage, the `Materials:` pairs `m:q` and the `Total:` pairs `m:u*q`. Both lists name the materials in catalog order. |
| Wizard.LineTotalScales | bbp-script.py:184-186 | `total_line_materials` has the per-craft materials in the same order, each quantity multiplied by the usage count. |
| Wizard.SavedLineWritesTotal | bbp-script.py:188-191 | The saved line's `Total:` list renders `total_line_materials`. |
| Wizard.SavedLineTotals | bbp-script.py:184-191 | Read back, an appended line contributes exactly its own `Total:` list and reports no error. |
| Wizard.SavedLineOneLine | bbp-script.py:191-193 | An appended line holds no newline, so it stays one line of the file. |
| Wizard.SavedLineName | bbp-script.py:191 | The listing reads the item name back from an appended line. |
| Wizard.SavedLineListed | bbp-script.py:191 | An appended line is listed under the category of its item. |
| Wizard.AddedTotals | bbp-script.py:166-193 | After the wizard's lines are appended, each material's total is its old total plus the new lines' `Total:` entries for it. |
| Wizard.AddNewSaves | bbp-script.py:123-194 | The wizard appends something only after picking an item and reading a count `int()` accepts. It then appends at most that many lines, each the saved line of one blueprint for the picked item. |
| Wizard.AddNewReadsBack | bbp-script.py:123-194 | After the wizard, the file reads back as its old lines followed by one line per appended blueprint. |
| Wizard.AddNewTotals | bbp-script.py:123-194 | After the wizard, each material's total is its old total plus the `Total:` entries of the new lines. |
| Wizard.AddNewListed | bbp-script.py:123-194 | After the wizard, every new line is listed under the category of the item it was made for. |

## Left out

- Terminal I/O: every `print`, the menu and prompt texts, and the report's
  layout on screen (bbp-script.py:53-64, 119-121). The model returns the
  sections, the totals dict and the error list that the prints show.
- The main menu loop (bbp-script.py:196-226). It only dispatches to the four
  operations.
- File system errors other than a missing file. The file is modelled as its
  text, and a missing file as the empty text.
- Universal-newline translation of `\r` and `\r\n` when reading.
  `readlines()` is modelled as a cut after each `\n`.
- Numbers.ParseInt: accepts numbers of any length. Since Python 3.11, and
  in the security releases back to 3.7, `int()` raises ValueError on a
  decimal text of more than 4300 digits. Such an answer or stored quantity
  is rejected by the script and accepted by the model. The limit is a
  runtime setting (`sys.set_int_max_str_digits`), not part of the script.
- Numbers.IntToString: renders integers of any length. Under the same
  4300-digit limit, `str()` and the f-strings at bbp-script.py:186-191 raise
  an uncaught ValueError when a total `qty * usage_count` has more digits.
  The model appends the line instead.
- `int()` quirks beyond its whitespace, an optional sign and ASCII digits, such
  as `_` separators and non-ASCII digits. Such answers are rejected.
- `str.lower()` for characters other than the ones that lower to "back";
  only that comparison matters to the script.
- Python exceptions in general. Each `try`/`except` becomes an `Option` or
  a datatype case.
- End of input (EOFError) inside the wizard ends the session. The model keeps
  the lines appended before it and appends nothing more.
- Wizard.ReadBlueprints: its contract and Wizard.ReadBlueprintsAnswered
  state the outcome of well-formed answers only. Skipping a blueprint on a
  rejected usage and stopping at the end of input are read from its
  definition.
