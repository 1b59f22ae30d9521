/** The blueprint file: its text, the list of lines `readlines()` makes of it,
    `append_line`, which adds one record at the end, and `delete_blueprint`,
    which removes the line the user names by number. */
module Store {
  import opened Wrappers
  import opened Text
  import opened Numbers

  /** The position of the first newline of `s`, or `|s|` when there is none. */
  function LineEnd(s: string): (n: nat)
    ensures n <= |s| && '\n' !in s[..n]
    ensures n < |s| ==> s[n] == '\n'
    decreases |s|
  {
    if |s| == 0 || s[0] == '\n' then 0
    else
      var n := 1 + LineEnd(s[1..]);
      assert s[..n] == [s[0]] + s[1..][..n - 1];
      n
  }

  /** `f.readlines()`: the text cut after every newline, each line keeping
      its newline; a last line without one is kept as it is. */
  function ReadLines(content: string): seq<string>
    decreases |content|
  {
    if |content| == 0 then []
    else
      var n := LineEnd(content);
      if n == |content| then [content]
      else [content[..n + 1]] + ReadLines(content[n + 1..])
  }

  /** `f.writelines(lines)`: the lines written one after the other. */
  function WriteLines(lines: seq<string>): string
    decreases |lines|
  {
    if |lines| == 0 then "" else lines[0] + WriteLines(lines[1..])
  }

  /** The file after `append_line(text)`. */
  function AppendLine(content: string, text: string): string {
    content + text + "\n"
  }

  /** The file after `append_line` has been called once per text, in order. */
  function AppendAll(content: string, texts: seq<string>): string
    decreases |texts|
  {
    if |texts| == 0 then content else AppendAll(AppendLine(content, texts[0]), texts[1..])
  }

  /** Each text with the newline `append_line` adds. */
  function Newlined(texts: seq<string>): seq<string> {
    seq(|texts|, j requires 0 <= j < |texts| => texts[j] + "\n")
  }

  /** A line as `readlines()` returns it: not empty, and with no newline
      before its last character. */
  predicate IsLine(line: string) {
    |line| > 0 && '\n' !in line[..|line| - 1]
  }

  predicate Terminated(line: string) {
    |line| > 0 && line[|line| - 1] == '\n'
  }

  /** What `readlines()` can return: lines, each but the last ending in a
      newline. */
  predicate WellSplit(lines: seq<string>) {
    && (forall k :: 0 <= k < |lines| ==> IsLine(lines[k]))
    && (forall k :: 0 <= k < |lines| - 1 ==> Terminated(lines[k]))
  }

  /** A file `append_line` can add a line to: empty, or ending in a newline. */
  predicate WholeLines(content: string) {
    |content| == 0 || content[|content| - 1] == '\n'
  }

  /** The outcome of one run of "Delete a Blueprint". */
  datatype Deletion =
    | NothingSaved                           // no line to choose from
    | Cancelled                              // a blank answer
    | NotANumber                             // `int()` raised ValueError
    | OutOfRange                             // a number outside 1..len(lines)
    | Deleted(line: string, rest: seq<string>)  // the removed line and the lines written back

  /** `delete_blueprint` given the stored lines and the user's answer. */
  function Delete(lines: seq<string>, answer: string): Deletion {
    if |lines| == 0 then NothingSaved
    else if Strip(answer) == "" then Cancelled
    else
      match ParseInt(answer)
      case None => NotANumber
      case Some(k) =>
        if 1 <= k <= |lines| then Deleted(lines[k - 1], lines[..k - 1] + lines[k..])
        else OutOfRange
  }

  /** The file text after `delete_blueprint`: rewritten only when a line
      was removed. */
  function AfterDelete(content: string, answer: string): string {
    match Delete(ReadLines(content), answer)
    case Deleted(_, rest) => WriteLines(rest)
    case _ => content
  }

  // ---------------------------------------------------------------------------
  // Reading and writing

  /** Writing the lines that were read gives the text back. */
  lemma {:induction false} WriteReadLines(content: string)
    ensures WriteLines(ReadLines(content)) == content
    decreases |content|
  {
    if |content| > 0 {
      var n := LineEnd(content);
      if n < |content| {
        WriteReadLines(content[n + 1..]);
        assert content[..n + 1] + content[n + 1..] == content;
      }
    }
  }

  /** `readlines()` returns lines that each end in a newline, except
      perhaps the last. */
  lemma {:induction false} ReadLinesShape(content: string)
    ensures WellSplit(ReadLines(content))
    decreases |content|
  {
    if |content| > 0 {
      var n := LineEnd(content);
      if n < |content| {
        var first := content[..n + 1];
        var rest := ReadLines(content[n + 1..]);
        ReadLinesShape(content[n + 1..]);
        assert first[..|first| - 1] == content[..n];
        ConsWellSplit(first, rest);
      }
    }
  }

  lemma ConsWellSplit(first: string, rest: seq<string>)
    requires IsLine(first) && Terminated(first) && WellSplit(rest)
    ensures WellSplit([first] + rest)
  {
    var lines := [first] + rest;
    forall k | 1 <= k < |lines|
      ensures lines[k] == rest[k - 1]
    {
    }
  }

  /** Reading back what was written gives the same lines, whenever they have
      the shape `readlines()` produces. */
  lemma {:induction false} ReadWriteLines(lines: seq<string>)
    requires WellSplit(lines)
    ensures ReadLines(WriteLines(lines)) == lines
    decreases |lines|
  {
    if |lines| > 0 {
      var first := lines[0];
      var tail := lines[1..];
      var s := WriteLines(lines);
      assert s == first + WriteLines(tail);
      if |lines| == 1 {
        assert WriteLines(tail) == "";
        assert s == first;
        FirstLineEnd(first, "");
      } else {
        assert WellSplit(tail) by {
          forall k | 0 <= k < |tail|
            ensures tail[k] == lines[k + 1]
          {
          }
        }
        ReadWriteLines(tail);
        FirstLineEnd(first, WriteLines(tail));
        assert s[LineEnd(s) + 1..] == WriteLines(tail);
        assert s[..LineEnd(s) + 1] == first;
        assert [first] + tail == lines;
      }
    }
  }

  /** The first line of a text ends where its first newline is. */
  lemma FirstLineEnd(first: string, more: string)
    requires IsLine(first) && (Terminated(first) || more == "")
    ensures var s := first + more;
      if Terminated(first) then LineEnd(s) == |first| - 1
      else LineEnd(s) == |s|
  {
    var s := first + more;
    var body := first[..|first| - 1];
    if Terminated(first) {
      assert s == body + ['\n'] + more;
      NewlineAfter(body, more);
    } else {
      assert s == first;
      NoNewline(first);
    }
  }

  lemma {:induction false} NewlineAfter(body: string, more: string)
    requires '\n' !in body
    ensures LineEnd(body + ['\n'] + more) == |body|
    decreases |body|
  {
    var s := body + ['\n'] + more;
    if |body| > 0 {
      assert s[1..] == body[1..] + ['\n'] + more;
      assert '\n' !in body[1..];
      NewlineAfter(body[1..], more);
    }
  }

  lemma {:induction false} NoNewline(s: string)
    requires '\n' !in s
    ensures LineEnd(s) == |s|
    decreases |s|
  {
    if |s| > 0 {
      assert '\n' !in s[1..];
      NoNewline(s[1..]);
    }
  }

  lemma {:induction false} WriteLinesSnoc(lines: seq<string>, line: string)
    ensures WriteLines(lines + [line]) == WriteLines(lines) + line
    decreases |lines|
  {
    if |lines| > 0 {
      assert (lines + [line])[1..] == lines[1..] + [line];
      WriteLinesSnoc(lines[1..], line);
    }
  }

  /** The last line read from a text ending in a newline ends in one too. */
  lemma {:induction false} LastLineTerminated(content: string)
    requires |content| > 0 && content[|content| - 1] == '\n'
    ensures var lines := ReadLines(content); |lines| > 0 && Terminated(lines[|lines| - 1])
    decreases |content|
  {
    var n := LineEnd(content);
    if n < |content| && n + 1 < |content| {
      var rest := content[n + 1..];
      assert rest[|rest| - 1] == '\n';
      LastLineTerminated(rest);
    }
  }

  // ---------------------------------------------------------------------------
  // Appending

  /** `append_line` adds exactly one line, `text + "\n"`, after the lines
      already read, provided the file is empty or ends in a newline and the
      text holds none. */
  lemma AppendReads(content: string, text: string)
    requires |content| == 0 || content[|content| - 1] == '\n'
    requires '\n' !in text
    ensures ReadLines(AppendLine(content, text)) == ReadLines(content) + [text + "\n"]
  {
    var line := text + "\n";
    CharsAssoc(content, text, "\n");
    assert line[..|line| - 1] == text;
    AppendTerminatedReads(content, line);
  }

  /** A whole-lines text followed by one terminated line reads as its lines
      and then that line. */
  lemma AppendTerminatedReads(content: string, line: string)
    requires WholeLines(content)
    requires IsLine(line) && Terminated(line)
    ensures ReadLines(content + line) == ReadLines(content) + [line]
  {
    var lines := ReadLines(content);
    WriteReadLines(content);
    ReadLinesShape(content);
    WriteLinesSnoc(lines, line);
    if |content| > 0 {
      LastLineTerminated(content);
    }
    SnocWellSplit(lines, line);
    ReadWriteLines(lines + [line]);
  }

  /** Appending several texts, none holding a newline, adds exactly one
      line per text, in order. */
  lemma {:induction false} AppendAllReads(content: string, texts: seq<string>)
    requires |content| == 0 || content[|content| - 1] == '\n'
    requires forall j :: 0 <= j < |texts| ==> '\n' !in texts[j]
    ensures ReadLines(AppendAll(content, texts)) == ReadLines(content) + Newlined(texts)
    decreases |texts|
  {
    if |texts| > 0 {
      var next := AppendLine(content, texts[0]);
      AppendReads(content, texts[0]);
      assert next[|next| - 1] == '\n';
      AppendAllReads(next, texts[1..]);
      NewlinedCons(texts);
      LinesAssoc(ReadLines(content), [texts[0] + "\n"], Newlined(texts[1..]));
    }
  }

  lemma CharsAssoc(a: string, b: string, c: string)
    ensures a + b + c == a + (b + c)
  {
  }

  lemma LinesAssoc(a: seq<string>, b: seq<string>, c: seq<string>)
    ensures (a + b) + c == a + (b + c)
  {
  }

  lemma NewlinedCons(texts: seq<string>)
    requires |texts| > 0
    ensures Newlined(texts) == [texts[0] + "\n"] + Newlined(texts[1..])
  {
  }

  lemma SnocWellSplit(lines: seq<string>, line: string)
    requires WellSplit(lines) && IsLine(line)
    requires |lines| == 0 || Terminated(lines[|lines| - 1])
    ensures WellSplit(lines + [line])
  {
  }

  // ---------------------------------------------------------------------------
  // Deleting

  /** A line is removed exactly when the answer reads as a number between 1
      and the number of lines; it is the line at that position, and the
      others stay in order. */
  lemma DeleteSpec(lines: seq<string>, answer: string)
    ensures Delete(lines, answer).Deleted? <==> exists k :: ParseInt(answer) == Some(k) && 1 <= k <= |lines|
    ensures Delete(lines, answer).Deleted? ==>
      var k := ParseInt(answer).value;
      var d := Delete(lines, answer);
      && d.line == lines[k - 1]
      && |d.rest| == |lines| - 1
      && (forall i :: 0 <= i < k - 1 ==> d.rest[i] == lines[i])
      && (forall i :: k - 1 <= i < |d.rest| ==> d.rest[i] == lines[i + 1])
  {
    StripSpec(answer);
    if Strip(answer) == "" {
      ParseIntBlank(answer);
    }
  }

  /** An answer that starts with one of the separators `\x1c`-`\x1f` never
      deletes: `int()` does not skip them, although `strip()` does. */
  lemma DeleteSeparatorKeeps(lines: seq<string>, c: char, x: string)
    requires '\U{1C}' <= c <= '\U{1F}'
    ensures !Delete(lines, [c] + x).Deleted?
  {
    ParseIntSeparator(c, x);
  }

  /** Removal loses the chosen line and nothing else. */
  lemma DeleteKeepsOthers(lines: seq<string>, answer: string)
    requires Delete(lines, answer).Deleted?
    ensures var d := Delete(lines, answer);
      multiset(d.rest) + multiset{d.line} == multiset(lines)
  {
    var d := Delete(lines, answer);
    var k := ParseInt(answer).value;
    assert lines == lines[..k - 1] + [lines[k - 1]] + lines[k..];
  }

  /** Every other answer leaves the file as it was: no lines, a blank
      answer, a non-number, or a number out of range. */
  lemma DeleteRejects(content: string, answer: string)
    ensures (forall k :: ParseInt(answer) == Some(k) ==> !(1 <= k <= |ReadLines(content)|))
            ==> AfterDelete(content, answer) == content
    ensures Delete(ReadLines(content), answer) == Cancelled <==> |ReadLines(content)| > 0 && AllSpace(answer)
  {
    StripSpec(answer);
  }

  /** Writing back the remaining lines and reading them again gives exactly
      the remaining lines. */
  lemma DeleteRereads(content: string, answer: string)
    requires Delete(ReadLines(content), answer).Deleted?
    ensures ReadLines(AfterDelete(content, answer)) == Delete(ReadLines(content), answer).rest
  {
    var lines := ReadLines(content);
    var d := Delete(lines, answer);
    var k := ParseInt(answer).value;
    ReadLinesShape(content);
    RemoveWellSplit(lines, k - 1);
    ReadWriteLines(d.rest);
  }

  /** Dropping one line keeps the shape `readlines()` produces. */
  lemma RemoveWellSplit(lines: seq<string>, i: int)
    requires WellSplit(lines) && 0 <= i < |lines|
    ensures WellSplit(lines[..i] + lines[i + 1..])
  {
    var rest := lines[..i] + lines[i + 1..];
    forall k | 0 <= k < |rest|
      ensures rest[k] == if k < i then lines[k] else lines[k + 1]
    {
    }
  }

  /** Deleting by the number of the line just appended removes that line and
      gives back the lines from before. */
  lemma AppendThenDelete(lines: seq<string>, text: string)
    ensures Delete(lines + [text + "\n"], IntToString(|lines| + 1)) == Deleted(text + "\n", lines)
  {
    var all := lines + [text + "\n"];
    ParseIntToString(|lines| + 1);
    StripSpec(IntToString(|lines| + 1));
    assert all[..|lines|] + all[|lines| + 1..] == lines;
  }

  // ---------------------------------------------------------------------------
  // Files the script writes

  /** Lines whose last one ends in a newline are written as whole lines. */
  lemma WriteTerminated(lines: seq<string>)
    requires |lines| == 0 || Terminated(lines[|lines| - 1])
    ensures WholeLines(WriteLines(lines))
  {
    if |lines| > 0 {
      var front := lines[..|lines| - 1];
      var last := lines[|lines| - 1];
      WriteLinesSnoc(front, last);
      assert front + [last] == lines;
    }
  }

  /** Every line read from a file of whole lines ends in a newline. */
  lemma ReadWholeLines(content: string)
    requires WholeLines(content)
    ensures forall k :: 0 <= k < |ReadLines(content)| ==> Terminated(ReadLines(content)[k])
  {
    var lines := ReadLines(content);
    ReadLinesShape(content);
    if |content| > 0 {
      LastLineTerminated(content);
    }
  }

  /** `append_line` keeps the file made of whole lines, however often it is
      called. */
  lemma {:induction false} AppendAllWholeLines(content: string, texts: seq<string>)
    requires WholeLines(content)
    ensures WholeLines(AppendAll(content, texts))
    decreases |texts|
  {
    if |texts| > 0 {
      var next := AppendLine(content, texts[0]);
      assert next[|next| - 1] == '\n';
      AppendAllWholeLines(next, texts[1..]);
    }
  }

  /** Deleting a line keeps the file made of whole lines. */
  lemma DeleteWholeLines(content: string, answer: string)
    requires WholeLines(content)
    ensures WholeLines(AfterDelete(content, answer))
  {
    var lines := ReadLines(content);
    var d := Delete(lines, answer);
    if d.Deleted? {
      var k := ParseInt(answer).value;
      assert d.rest == lines[..k - 1] + lines[k..];
      ReadWholeLines(content);
      if |d.rest| > 0 {
        var last := |d.rest| - 1;
        assert d.rest[last] == if last < k - 1 then lines[last] else lines[last + 1];
      }
      WriteTerminated(d.rest);
    }
  }
}
