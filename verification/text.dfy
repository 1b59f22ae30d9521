/** The parts of Python's `str` that the blueprint script relies on: whitespace
    stripping, splitting on one character, joining, the substring test `p in s`
    and `s.replace(p, "")`. */
module Text {

  /** Python's `str.isspace()` for a single character. */
  predicate IsSpace(c: char) {
    || ('\t' <= c <= '\r')
    || ('\U{1C}' <= c <= '\U{1F}')
    || c == ' '
    || c == '\U{85}'
    || c == '\U{A0}'
    || c == '\U{1680}'
    || ('\U{2000}' <= c <= '\U{200A}')
    || c == '\U{2028}'
    || c == '\U{2029}'
    || c == '\U{202F}'
    || c == '\U{205F}'
    || c == '\U{3000}'
  }

  predicate AllSpace(s: string) {
    forall i :: 0 <= i < |s| ==> IsSpace(s[i])
  }

  /** `s.lstrip()`: the suffix of `s` left after dropping leading whitespace. */
  function LStrip(s: string): (r: string)
    ensures |r| <= |s|
    decreases |s|
  {
    if |s| > 0 && IsSpace(s[0]) then LStrip(s[1..]) else s
  }

  /** What `lstrip` removes is whitespace, and it stops at a non-space. */
  lemma {:induction false} LStripSpec(s: string)
    ensures var r := LStrip(s);
      && r == s[|s| - |r|..]
      && AllSpace(s[..|s| - |r|])
      && (|r| > 0 ==> !IsSpace(r[0]))
    decreases |s|
  {
    if |s| > 0 && IsSpace(s[0]) {
      LStripSpec(s[1..]);
      var r := LStrip(s[1..]);
      assert s[1..][..|s| - 1 - |r|] == s[1..|s| - |r|];
    }
  }

  /** `s.rstrip()`: the prefix of `s` left after dropping trailing whitespace. */
  function RStrip(s: string): (r: string)
    ensures |r| <= |s|
    decreases |s|
  {
    if |s| > 0 && IsSpace(s[|s| - 1]) then RStrip(s[..|s| - 1]) else s
  }

  /** What `rstrip` removes is whitespace, and it stops at a non-space. */
  lemma {:induction false} RStripSpec(s: string)
    ensures var r := RStrip(s);
      && r == s[..|r|]
      && AllSpace(s[|r|..])
      && (|r| > 0 ==> !IsSpace(r[|r| - 1]))
    decreases |s|
  {
    if |s| > 0 && IsSpace(s[|s| - 1]) {
      RStripSpec(s[..|s| - 1]);
      var r := RStrip(s[..|s| - 1]);
      assert s[|r|..] == s[..|s| - 1][|r|..] + [s[|s| - 1]];
    }
  }

  /** `s.strip()`. */
  function Strip(s: string): (r: string)
    ensures |r| <= |s|
  {
    RStrip(LStrip(s))
  }

  /** The strip is empty exactly when `s` is blank, and otherwise neither
      starts nor ends with whitespace. */
  lemma StripSpec(s: string)
    ensures var r := Strip(s);
      && (r == [] <==> AllSpace(s))
      && (|r| > 0 ==> !IsSpace(r[0]) && !IsSpace(r[|r| - 1]))
  {
    var l := LStrip(s);
    LStripSpec(s);
    RStripSpec(l);
    assert l == [] <==> AllSpace(s) by {
      if l != [] {
        assert s[|s| - |l|] == l[0];
      } else {
        assert s[..|s| - |l|] == s;
      }
    }
    var r := RStrip(l);
    if |r| > 0 {
      assert r[0] == l[0];
    }
  }

  /** `sep.join(pieces)`. */
  function Join(pieces: seq<string>, sep: string): string {
    if |pieces| == 0 then ""
    else if |pieces| == 1 then pieces[0]
    else pieces[0] + sep + Join(pieces[1..], sep)
  }

  /** `s.split(sep)` for a one-character separator: the maximal separator-free
      pieces of `s` (their join is `s` again, see `JoinSplit`). */
  function Split(s: string, sep: char): (parts: seq<string>)
    ensures |parts| > 0
    ensures forall k :: 0 <= k < |parts| ==> sep !in parts[k]
    ensures |parts[0]| <= |s| && parts[0] == s[..|parts[0]|]
    decreases |s|
  {
    if |s| == 0 then [""]
    else
      var rest := Split(s[1..], sep);
      if s[0] == sep then [""] + rest
      else
        assert [s[0]] + rest[0] == s[..1 + |rest[0]|];
        [[s[0]] + rest[0]] + rest[1..]
  }

  /** Joining the pieces of `s.split(sep)` with `sep` gives `s` back. */
  lemma {:induction false} JoinSplit(s: string, sep: char)
    ensures Join(Split(s, sep), [sep]) == s
    decreases |s|
  {
    if |s| > 0 {
      var rest := Split(s[1..], sep);
      JoinSplit(s[1..], sep);
      if s[0] == sep {
        assert ([""] + rest)[1..] == rest;
      } else {
        var parts := [[s[0]] + rest[0]] + rest[1..];
        if |rest| > 1 {
          assert parts[1..] == rest[1..];
        }
      }
    }
  }

  predicate StartsWith(s: string, p: string) {
    |p| <= |s| && s[..|p|] == p
  }

  predicate EndsWith(s: string, p: string) {
    |p| <= |s| && s[|s| - |p|..] == p
  }

  /** `p` sits in `s` at offset `i`. */
  predicate OccursAt(s: string, p: string, i: int) {
    0 <= i && i + |p| <= |s| && s[i..i + |p|] == p
  }

  /** Python's `p in s` for two strings. */
  predicate Contains(s: string, p: string)
    decreases |s|
  {
    StartsWith(s, p) || (|s| > 0 && Contains(s[1..], p))
  }

  /** `s.replace(p, "")`: occurrences of `p` are removed in one left-to-right,
      non-overlapping scan. */
  function RemoveAll(s: string, p: string): (r: string)
    requires |p| > 0
    ensures |r| <= |s|
    ensures !Contains(s, p) ==> r == s
    decreases |s|
  {
    if |s| < |p| then s
    else if s[..|p|] == p then RemoveAll(s[|p|..], p)
    else [s[0]] + RemoveAll(s[1..], p)
  }

  // ---------------------------------------------------------------------------
  // Substring search

  /** The recursive substring test agrees with the offset definition. */
  lemma {:induction false} ContainsIffOccurs(s: string, p: string)
    ensures Contains(s, p) <==> exists i :: OccursAt(s, p, i)
    decreases |s|
  {
    if StartsWith(s, p) {
      assert OccursAt(s, p, 0);
    } else if |s| > 0 {
      ContainsIffOccurs(s[1..], p);
      if Contains(s[1..], p) {
        var i :| OccursAt(s[1..], p, i);
        assert s[1..][i..i + |p|] == s[i + 1..i + 1 + |p|];
        assert OccursAt(s, p, i + 1);
      }
      if i :| OccursAt(s, p, i) {
        assert i != 0;
        assert s[1..][i - 1..i - 1 + |p|] == s[i..i + |p|];
        assert OccursAt(s[1..], p, i - 1);
      }
    }
  }

  /** Every character of a prefix of `s` is a character of `s`'s start. */
  lemma PrefixChars(s: string, p: string)
    ensures StartsWith(s, p) ==> forall k :: 0 <= k < |p| ==> s[k] in p
  {
    if StartsWith(s, p) {
      forall k | 0 <= k < |p|
        ensures s[k] in p
      {
        assert s[k] == p[k];
      }
    }
  }

  /** A pattern with a character that `s` lacks does not occur in `s`. */
  lemma {:induction false} MissingCharNotContained(s: string, p: string, c: char)
    requires c in p && c !in s
    ensures !Contains(s, p)
    decreases |s|
  {
    if |s| > 0 {
      assert forall x :: x in s[1..] ==> x in s;
      MissingCharNotContained(s[1..], p, c);
    }
  }

  /** Text that is split by a character the pattern lacks contains the pattern
      exactly when one of the two sides does. */
  lemma {:induction false} ContainsAcross(a: string, c: char, b: string, p: string)
    requires c !in p
    ensures Contains(a + [c] + b, p) <==> Contains(a, p) || Contains(b, p)
    decreases |a|
  {
    var s := a + [c] + b;
    if |p| == 0 {
      assert StartsWith(s, p) && StartsWith(b, p);
    } else if |a| == 0 {
      assert s == [c] + b && s[1..] == b;
      PrefixChars(s, p);
      assert s[0] == c;
      assert !Contains(a, p);
    } else {
      assert s[1..] == a[1..] + [c] + b;
      ContainsAcross(a[1..], c, b, p);
      PrefixChars(s, p);
      assert s[|a|] == c;
      assert |p| <= |a| ==> s[..|p|] == a[..|p|];
    }
  }

  /** Whatever occurs in a piece of `s` occurs in `s`. */
  lemma {:induction false} ContainsInfix(a: string, x: string, b: string, p: string)
    requires Contains(x, p)
    ensures Contains(a + x + b, p)
    decreases |a|, |x|
  {
    if |a| > 0 {
      assert (a + x + b)[1..] == a[1..] + x + b;
      ContainsInfix(a[1..], x, b, p);
    } else if StartsWith(x, p) {
      assert (a + x + b)[..|p|] == x[..|p|];
    } else {
      assert a + x + b == x + b;
      assert (x + b)[1..] == a + x[1..] + b;
      ContainsInfix(a, x[1..], b, p);
    }
  }

  /** Trailing text that shares no character with the pattern adds no occurrence. */
  lemma ContainsIgnoresForeignTail(x: string, y: string, p: string)
    requires |p| > 0
    requires forall i :: 0 <= i < |y| ==> y[i] !in p
    ensures Contains(x + y, p) <==> Contains(x, p)
  {
    if |y| == 0 {
      assert x + y == x;
    } else {
      var c, rest := y[0], y[1..];
      assert y == [c] + rest;
      assert x + y == x + [c] + rest;
      ContainsAcross(x, c, rest, p);
      assert p[0] !in rest;
      MissingCharNotContained(rest, p, p[0]);
    }
  }

  /** An occurrence in `x + [c]` lies in `x` or ends at the added character. */
  lemma ContainsSnoc(x: string, c: char, p: string)
    ensures Contains(x + [c], p) <==> Contains(x, p) || EndsWith(x + [c], p)
  {
    if Contains(x + [c], p) && !EndsWith(x + [c], p) {
      ContainsBeforeLast(x, c, p);
    }
    if Contains(x, p) {
      ContainsInPrefix(x + [c], |x|, p);
    }
    if EndsWith(x + [c], p) {
      ContainsAtEnd(x + [c], p);
    }
  }

  lemma ContainsAtEnd(s: string, p: string)
    requires EndsWith(s, p)
    ensures Contains(s, p)
  {
    assert StartsWith(p, p);
    ContainsInfix(s[..|s| - |p|], p, "", p);
    assert s[..|s| - |p|] + p + "" == s;
  }

  lemma ContainsBeforeLast(x: string, c: char, p: string)
    requires Contains(x + [c], p) && !EndsWith(x + [c], p)
    ensures Contains(x, p)
  {
    var s := x + [c];
    ContainsIffOccurs(s, p);
    var i :| OccursAt(s, p, i);
    assert i + |p| <= |x|;
    assert x[i..i + |p|] == s[i..i + |p|];
    assert OccursAt(x, p, i);
    ContainsIffOccurs(x, p);
  }

  /** Whatever occurs in a suffix of `s` occurs in `s`. */
  lemma ContainsInSuffix(s: string, k: nat, p: string)
    requires k <= |s| && Contains(s[k..], p)
    ensures Contains(s, p)
  {
    ContainsInfix(s[..k], s[k..], "", p);
    assert s[..k] + s[k..] + "" == s;
  }

  /** Whatever occurs in a prefix of `s` occurs in `s`. */
  lemma ContainsInPrefix(s: string, k: nat, p: string)
    requires k <= |s| && Contains(s[..k], p)
    ensures Contains(s, p)
  {
    ContainsInfix("", s[..k], s[k..], p);
    assert "" + s[..k] + s[k..] == s;
  }

  // ---------------------------------------------------------------------------
  // Removing a pattern

  /** `s.replace(p, "")` on text that starts with a character other than `p[0]` keeps that character. */
  lemma RemoveAllKeepsHead(c: char, s: string, p: string)
    requires |p| > 0 && c != p[0]
    ensures RemoveAll([c] + s, p) == [c] + RemoveAll(s, p)
  {
    var t := [c] + s;
    assert t[1..] == s;
    if |t| >= |p| {
      assert t[..|p|][0] == c;
    } else {
      assert !Contains(s, p) by {
        if Contains(s, p) {
          ContainsIffOccurs(s, p);
        }
      }
    }
  }

  /** Removing the pattern from text that starts with it drops that occurrence. */
  lemma RemoveAllDropsLead(s: string, p: string)
    requires |p| > 0
    ensures RemoveAll(p + s, p) == RemoveAll(s, p)
  {
    assert (p + s)[..|p|] == p;
    assert (p + s)[|p|..] == s;
  }

  // ---------------------------------------------------------------------------
  // Splitting

  lemma {:induction false} SplitWithoutSep(s: string, sep: char)
    requires sep !in s
    ensures Split(s, sep) == [s]
    decreases |s|
  {
    if |s| > 0 {
      assert sep !in s[1..];
      SplitWithoutSep(s[1..], sep);
      assert [s[0]] + s[1..] == s;
    }
  }

  /** The first separator of `a + [sep] + b` ends the first piece. */
  lemma {:induction false} SplitAtFirstSep(a: string, sep: char, b: string)
    requires sep !in a
    ensures Split(a + [sep] + b, sep) == [a] + Split(b, sep)
    decreases |a|
  {
    var s := a + [sep] + b;
    if |a| == 0 {
      assert s[1..] == b;
    } else {
      assert s[1..] == a[1..] + [sep] + b;
      assert sep !in a[1..];
      SplitAtFirstSep(a[1..], sep, b);
      assert [a[0]] + a[1..] == a;
    }
  }

  /** A leading character other than the separator belongs to the first piece. */
  lemma SplitConsOther(c: char, s: string, sep: char)
    requires c != sep
    ensures Split([c] + s, sep) == [[c] + Split(s, sep)[0]] + Split(s, sep)[1..]
  {
    assert ([c] + s)[1..] == s;
  }

  /** A leading separator ends an empty first piece. */
  lemma SplitConsSep(s: string, sep: char)
    ensures Split([sep] + s, sep) == [""] + Split(s, sep)
  {
    assert ([sep] + s)[1..] == s;
  }

  /** A trailing character other than the separator belongs to the last piece. */
  lemma {:induction false} SplitSnocOther(s: string, c: char, sep: char)
    requires c != sep
    ensures var ps := Split(s, sep);
      Split(s + [c], sep) == ps[..|ps| - 1] + [ps[|ps| - 1] + [c]]
    decreases |s|
  {
    if |s| == 0 {
      assert s + [c] == [c] + s;
      SplitConsOther(c, s, sep);
    } else {
      var h, t := s[0], s[1..];
      assert s == [h] + t;
      assert s + [c] == [h] + (t + [c]);
      SplitSnocOther(t, c, sep);
      if h == sep {
        SplitConsSep(t, sep);
        SplitConsSep(t + [c], sep);
        SnocAfterEmpty(Split(t, sep), Split(t + [c], sep), c);
      } else {
        SplitConsOther(h, t, sep);
        SplitConsOther(h, t + [c], sep);
        SnocAfterHead(h, Split(t, sep), Split(t + [c], sep), c);
      }
    }
  }

  lemma SnocAfterEmpty(rs: seq<string>, rs': seq<string>, c: char)
    requires |rs| > 0 && rs' == rs[..|rs| - 1] + [rs[|rs| - 1] + [c]]
    ensures var ps := [""] + rs;
      [""] + rs' == ps[..|ps| - 1] + [ps[|ps| - 1] + [c]]
  {
    var ps := [""] + rs;
    assert ps[..|ps| - 1] == [""] + rs[..|rs| - 1];
  }

  lemma SnocAfterHead(h: char, rs: seq<string>, rs': seq<string>, c: char)
    requires |rs| > 0 && rs' == rs[..|rs| - 1] + [rs[|rs| - 1] + [c]]
    ensures var ps := [[h] + rs[0]] + rs[1..];
      [[h] + rs'[0]] + rs'[1..] == ps[..|ps| - 1] + [ps[|ps| - 1] + [c]]
  {
    var n := |rs|;
    if n == 1 {
      assert rs' == [rs[0] + [c]];
      assert [h] + rs'[0] == ([h] + rs[0]) + [c];
    } else {
      assert rs'[0] == rs[0];
      assert rs'[1..] == rs[1..n - 1] + [rs[n - 1] + [c]];
    }
  }

  /** Splitting text joined with a separator that none of the pieces contains
      gives the pieces back. */
  lemma {:induction false} SplitJoin(pieces: seq<string>, sep: char)
    requires |pieces| > 0
    requires forall k :: 0 <= k < |pieces| ==> sep !in pieces[k]
    ensures Split(Join(pieces, [sep]), sep) == pieces
    decreases |pieces|
  {
    if |pieces| == 1 {
      SplitWithoutSep(pieces[0], sep);
    } else {
      SplitJoin(pieces[1..], sep);
      SplitAtFirstSep(pieces[0], sep, Join(pieces[1..], [sep]));
      assert pieces[0] + [sep] + Join(pieces[1..], [sep]) == Join(pieces, [sep]);
      assert [pieces[0]] + pieces[1..] == pieces;
    }
  }

  // ---------------------------------------------------------------------------
  // Stripping

  lemma {:induction false} LStripDropsSpaces(a: string, x: string)
    requires AllSpace(a)
    ensures LStrip(a + x) == LStrip(x)
    decreases |a|
  {
    if |a| == 0 {
      assert a + x == x;
    } else {
      assert (a + x)[1..] == a[1..] + x;
      LStripDropsSpaces(a[1..], x);
    }
  }

  lemma {:induction false} RStripDropsSpaces(x: string, b: string)
    requires AllSpace(b)
    ensures RStrip(x + b) == RStrip(x)
    decreases |b|
  {
    if |b| == 0 {
      assert x + b == x;
    } else {
      assert (x + b)[..|x + b| - 1] == x + b[..|b| - 1];
      RStripDropsSpaces(x, b[..|b| - 1]);
    }
  }

  /** Left stripping stops inside `x` when `x` is not blank. */
  lemma {:induction false} LStripAppend(x: string, b: string)
    requires !AllSpace(x)
    ensures LStrip(x + b) == LStrip(x) + b
    decreases |x|
  {
    assert |x| > 0;
    if IsSpace(x[0]) {
      assert (x + b)[1..] == x[1..] + b;
      assert !AllSpace(x[1..]) by {
        var i :| 0 <= i < |x| && !IsSpace(x[i]);
        assert x[1..][i - 1] == x[i];
      }
      LStripAppend(x[1..], b);
    }
  }

  /** Right stripping stops inside `x` when `x` is not blank. */
  lemma {:induction false} RStripPrepend(a: string, x: string)
    requires !AllSpace(x)
    ensures RStrip(a + x) == a + RStrip(x)
    decreases |x|
  {
    assert |x| > 0;
    if IsSpace(x[|x| - 1]) {
      assert (a + x)[..|a + x| - 1] == a + x[..|x| - 1];
      assert !AllSpace(x[..|x| - 1]) by {
        var i :| 0 <= i < |x| && !IsSpace(x[i]);
        assert x[..|x| - 1][i] == x[i];
      }
      RStripPrepend(a, x[..|x| - 1]);
    }
  }

  lemma LStripTrimmed(x: string)
    requires |x| == 0 || !IsSpace(x[0])
    ensures LStrip(x) == x
  {
  }

  lemma RStripTrimmed(x: string)
    requires |x| == 0 || !IsSpace(x[|x| - 1])
    ensures RStrip(x) == x
  {
  }

  /** Text that neither starts nor ends with whitespace is its own strip. */
  lemma StripTrimmed(x: string)
    requires |x| == 0 || (!IsSpace(x[0]) && !IsSpace(x[|x| - 1]))
    ensures Strip(x) == x
  {
    LStripTrimmed(x);
    RStripTrimmed(x);
  }

  lemma StripIdempotent(x: string)
    ensures Strip(Strip(x)) == Strip(x)
  {
    StripSpec(x);
    StripTrimmed(Strip(x));
  }

  /** Whitespace padding on either side does not change the strip. */
  lemma StripPadded(a: string, x: string, b: string)
    requires AllSpace(a) && AllSpace(b)
    ensures Strip(a + x + b) == Strip(x)
  {
    assert a + x + b == a + (x + b);
    LStripDropsSpaces(a, x + b);
    if AllSpace(x) {
      assert AllSpace(x + b);
      LStripBlank(x + b);
      LStripBlank(x);
    } else {
      LStripAppend(x, b);
      RStripDropsSpaces(LStrip(x), b);
    }
  }

  /** Left stripping stops at a non-space character. */
  lemma LStripToMark(x: string, c: char, y: string)
    requires !IsSpace(c)
    ensures LStrip(x + [c] + y) == LStrip(x) + [c] + y
  {
    var xc := x + [c];
    assert !AllSpace(xc) by {
      assert xc[|x|] == c;
    }
    LStripAppend(xc, y);
    LStripMark(x, c);
  }

  lemma LStripMark(x: string, c: char)
    requires !IsSpace(c)
    ensures LStrip(x + [c]) == LStrip(x) + [c]
  {
    if AllSpace(x) {
      LStripDropsSpaces(x, [c]);
      LStripSingle(c);
      LStripBlank(x);
    } else {
      LStripAppend(x, [c]);
    }
  }

  lemma LStripSingle(c: char)
    requires !IsSpace(c)
    ensures LStrip([c]) == [c]
  {
  }

  lemma RStripSingle(c: char)
    requires !IsSpace(c)
    ensures RStrip([c]) == [c]
  {
  }

  lemma LStripBlank(x: string)
    requires AllSpace(x)
    ensures LStrip(x) == []
  {
  }

  lemma RStripBlank(x: string)
    requires AllSpace(x)
    ensures RStrip(x) == []
  {
  }

  /** Right stripping stops at a non-space character. */
  lemma RStripFromMark(x: string, c: char, y: string)
    requires !IsSpace(c)
    ensures RStrip(x + [c] + y) == x + [c] + RStrip(y)
  {
    assert ([c] + y)[0] == c;
    assert x + [c] + y == x + ([c] + y);
    RStripPrepend(x, [c] + y);
    if AllSpace(y) {
      RStripDropsSpaces([c], y);
      RStripSingle(c);
      RStripBlank(y);
    } else {
      RStripPrepend([c], y);
    }
  }

  lemma StripSides(s: string)
    ensures Strip(s) == RStrip(LStrip(s))
  {
  }

  /** Stripping a text introduces no pattern it lacked. */
  lemma StripLacks(s: string, p: string)
    requires !Contains(s, p)
    ensures !Contains(Strip(s), p)
  {
    StripSides(s);
    RStripLacks(LStrip(s), p);
    LStripLacks(s, p);
  }

  lemma {:induction false} LStripLacks(s: string, p: string)
    ensures Contains(LStrip(s), p) ==> Contains(s, p)
    decreases |s|
  {
    if |s| > 0 && IsSpace(s[0]) {
      LStripLacks(s[1..], p);
    }
  }

  lemma {:induction false} RStripLacks(s: string, p: string)
    ensures Contains(RStrip(s), p) ==> Contains(s, p)
    decreases |s|
  {
    if |s| > 0 && IsSpace(s[|s| - 1]) {
      RStripLacks(s[..|s| - 1], p);
      if Contains(s[..|s| - 1], p) {
        ContainsInPrefix(s, |s| - 1, p);
      }
    }
  }

  /** One more character cannot complete `p` when the text does not end in
      the rest of `p`. */
  lemma NotEndsWithSnoc(s: string, c: char, p: string)
    requires |p| > 0 && !EndsWith(s, p[..|p| - 1])
    ensures !EndsWith(s + [c], p)
  {
    var n := |p|;
    if n <= |s| + 1 {
      assert (s + [c])[|s| + 1 - n..] == s[|s| + 1 - n..] + [c];
      assert (s[|s| + 1 - n..] + [c])[..n - 1] == s[|s| + 1 - n..];
    }
  }

  lemma LStripNoChar(s: string, c: char)
    requires c !in s
    ensures c !in LStrip(s)
  {
    assert forall x :: x in s[|s| - |LStrip(s)|..] ==> x in s;
  }

  lemma RStripNoChar(s: string, c: char)
    requires c !in s
    ensures c !in RStrip(s)
  {
    assert forall x :: x in s[..|RStrip(s)|] ==> x in s;
  }
}
