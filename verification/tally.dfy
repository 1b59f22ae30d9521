/** Insertion-ordered dictionaries from material name to quantity, the way the
    script uses Python dicts for per-craft quantities and running totals. */
module Tally {

  /** A material name with a quantity: one `name:qty` pair of a record, or one
      row of a running total. */
  datatype Amount = Amount(material: string, quantity: int)

  /** Rows in insertion order; a dict never holds a key twice. */
  type Table = seq<Amount>

  function Names(t: seq<Amount>): seq<string> {
    seq(|t|, i requires 0 <= i < |t| => t[i].material)
  }

  function Seen(ns: seq<string>): set<string> {
    set n | n in ns
  }

  predicate Distinct(ns: seq<string>) {
    forall i, j :: 0 <= i < j < |ns| ==> ns[i] != ns[j]
  }

  /** `d.get(m, 0)`. */
  function Get(t: Table, m: string): int {
    if |t| == 0 then 0
    else if t[0].material == m then t[0].quantity
    else Get(t[1..], m)
  }

  /** `if m not in d: d[m] = 0` followed by `d[m] += q` (see `AddSpec`). */
  function Add(t: Table, m: string, q: int): Table {
    if |t| == 0 then [Amount(m, q)]
    else if t[0].material == m then [Amount(m, t[0].quantity + q)] + t[1..]
    else [t[0]] + Add(t[1..], m, q)
  }

  /** Adding to an existing key keeps its place and grows it by `q`; a new key
      goes last with quantity `q`; no other key changes. */
  lemma {:induction false} AddSpec(t: Table, m: string, q: int)
    ensures var r := Add(t, m, q);
      && Names(r) == (if m in Names(t) then Names(t) else Names(t) + [m])
      && forall k :: Get(r, k) == Get(t, k) + (if k == m then q else 0)
    decreases |t|
  {
    if |t| > 0 {
      var r := Add(t, m, q);
      NamesTail(t);
      NamesTail(r);
      if t[0].material == m {
        assert r[1..] == t[1..];
      } else {
        AddSpec(t[1..], m, q);
        assert r[1..] == Add(t[1..], m, q);
      }
    }
  }

  /** `d[m] = q` (see `PutSpec`). */
  function Put(t: Table, m: string, q: int): Table {
    if |t| == 0 then [Amount(m, q)]
    else if t[0].material == m then [Amount(m, q)] + t[1..]
    else [t[0]] + Put(t[1..], m, q)
  }

  /** Setting an existing key keeps its place and replaces its value; a new
      key goes last; no other key changes. */
  lemma {:induction false} PutSpec(t: Table, m: string, q: int)
    ensures var r := Put(t, m, q);
      && Names(r) == (if m in Names(t) then Names(t) else Names(t) + [m])
      && forall k :: Get(r, k) == if k == m then q else Get(t, k)
    decreases |t|
  {
    if |t| > 0 {
      var r := Put(t, m, q);
      NamesTail(t);
      NamesTail(r);
      if t[0].material == m {
        assert r[1..] == t[1..];
      } else {
        PutSpec(t[1..], m, q);
        assert r[1..] == Put(t[1..], m, q);
      }
    }
  }

  /** Adding each amount in turn. */
  function AddAll(t: Table, amounts: seq<Amount>): Table
    decreases |amounts|
  {
    if |amounts| == 0 then t
    else AddAll(Add(t, amounts[0].material, amounts[0].quantity), amounts[1..])
  }

  /** The sum of the quantities listed for material `m`. */
  function SumFor(amounts: seq<Amount>, m: string): int {
    if |amounts| == 0 then 0
    else (if amounts[0].material == m then amounts[0].quantity else 0) + SumFor(amounts[1..], m)
  }

  /** The names of `ns` not in `seen`, each once, in order of first appearance. */
  function NewNames(seen: set<string>, ns: seq<string>): seq<string>
    decreases |ns|
  {
    if |ns| == 0 then []
    else if ns[0] in seen then NewNames(seen, ns[1..])
    else [ns[0]] + NewNames(seen + {ns[0]}, ns[1..])
  }

  /** The elements of `ns` outside `drop`, in order. */
  function Without(ns: seq<string>, drop: set<string>): seq<string> {
    if |ns| == 0 then []
    else if ns[0] in drop then Without(ns[1..], drop)
    else [ns[0]] + Without(ns[1..], drop)
  }

  /** Every quantity multiplied by `factor`: the `Total:` list of a record. */
  function Scale(factor: int, amounts: seq<Amount>): (r: seq<Amount>)
    ensures |r| == |amounts| && Names(r) == Names(amounts)
    ensures forall i :: 0 <= i < |r| ==> r[i].quantity == factor * amounts[i].quantity
  {
    seq(|amounts|, i requires 0 <= i < |amounts| => Amount(amounts[i].material, factor * amounts[i].quantity))
  }

  /** `for mat, qty in amounts: d[mat] = qty * factor`, starting from `t`. */
  function ScaleInto(t: Table, factor: int, amounts: seq<Amount>): Table
    decreases |amounts|
  {
    if |amounts| == 0 then t
    else ScaleInto(Put(t, amounts[0].material, amounts[0].quantity * factor), factor, amounts[1..])
  }

  /** Filling a fresh dict from a dict's items, each quantity multiplied by
      `factor`, gives the same materials in the same order with the
      multiplied quantities. */
  lemma ScaleIntoSpec(factor: int, amounts: seq<Amount>)
    requires Distinct(Names(amounts))
    ensures ScaleInto([], factor, amounts) == Scale(factor, amounts)
  {
    ScaleIntoFresh([], factor, amounts);
    assert [] + Scale(factor, amounts) == Scale(factor, amounts);
  }

  lemma {:induction false} ScaleIntoFresh(t: Table, factor: int, amounts: seq<Amount>)
    requires Distinct(Names(amounts))
    requires forall i :: 0 <= i < |amounts| ==> amounts[i].material !in Names(t)
    ensures ScaleInto(t, factor, amounts) == t + Scale(factor, amounts)
    decreases |amounts|
  {
    if |amounts| > 0 {
      var a := amounts[0];
      var rest := amounts[1..];
      PutFresh(t, a.material, a.quantity * factor);
      var x := Amount(a.material, factor * a.quantity);
      assert Amount(a.material, a.quantity * factor) == x;
      FreshAfterHead(t, factor, amounts);
      DistinctTail(amounts);
      ScaleIntoFresh(t + [x], factor, rest);
      ScaleCons(factor, a, rest);
      HeadRest(amounts);
      SnocShift(t, x, Scale(factor, rest));
    }
  }

  lemma HeadRest<T>(s: seq<T>)
    requires |s| > 0
    ensures [s[0]] + s[1..] == s
  {
  }

  lemma SnocShift<T>(s: seq<T>, x: T, xs: seq<T>)
    ensures (s + [x]) + xs == s + ([x] + xs)
  {
  }

  /** After the first material is set, the others are still missing. */
  lemma FreshAfterHead(t: Table, factor: int, amounts: seq<Amount>)
    requires |amounts| > 0 && Distinct(Names(amounts))
    requires forall i :: 0 <= i < |amounts| ==> amounts[i].material !in Names(t)
    ensures var t' := t + [Amount(amounts[0].material, factor * amounts[0].quantity)];
      forall i :: 0 <= i < |amounts| - 1 ==> amounts[1..][i].material !in Names(t')
  {
    var t' := t + [Amount(amounts[0].material, factor * amounts[0].quantity)];
    NamesAppend(t, [Amount(amounts[0].material, factor * amounts[0].quantity)]);
    assert Names(t') == Names(t) + [amounts[0].material];
    forall i | 0 <= i < |amounts| - 1
      ensures amounts[1..][i].material !in Names(t')
    {
      assert amounts[1..][i] == amounts[i + 1];
      assert Names(amounts)[0] != Names(amounts)[i + 1];
    }
  }

  lemma DistinctTail(amounts: seq<Amount>)
    requires |amounts| > 0 && Distinct(Names(amounts))
    ensures Distinct(Names(amounts[1..]))
  {
    var rest := amounts[1..];
    forall i, j | 0 <= i < j < |Names(rest)|
      ensures Names(rest)[i] != Names(rest)[j]
    {
      assert Names(rest)[i] == Names(amounts)[i + 1];
      assert Names(rest)[j] == Names(amounts)[j + 1];
    }
  }

  /** Setting a key keeps the keys distinct. */
  lemma PutKeepsDistinct(t: Table, m: string, q: int)
    requires Distinct(Names(t))
    ensures Distinct(Names(Put(t, m, q)))
  {
    PutSpec(t, m, q);
    if m !in Names(t) {
      var ns := Names(t) + [m];
      forall i, j | 0 <= i < j < |ns|
        ensures ns[i] != ns[j]
      {
        if j == |ns| - 1 {
          assert ns[i] == Names(t)[i];
        }
      }
    }
  }

  // ---------------------------------------------------------------------------

  lemma {:induction false} AddAllAppend(t: Table, a: seq<Amount>, b: seq<Amount>)
    ensures AddAll(t, a + b) == AddAll(AddAll(t, a), b)
    decreases |a|
  {
    if |a| == 0 {
      assert a + b == b;
    } else {
      assert (a + b)[0] == a[0] && (a + b)[1..] == a[1..] + b;
      AddAllAppend(Add(t, a[0].material, a[0].quantity), a[1..], b);
    }
  }

  /** After adding a list of amounts, each material holds its old quantity
      plus everything listed for it. */
  lemma {:induction false} AddAllGet(t: Table, amounts: seq<Amount>, m: string)
    ensures Get(AddAll(t, amounts), m) == Get(t, m) + SumFor(amounts, m)
    decreases |amounts|
  {
    if |amounts| > 0 {
      AddSpec(t, amounts[0].material, amounts[0].quantity);
      AddAllGet(Add(t, amounts[0].material, amounts[0].quantity), amounts[1..], m);
    }
  }

  /** After adding a list of amounts, the old keys keep their order and the
      new materials follow in order of first appearance. */
  lemma {:induction false} AddAllNames(t: Table, amounts: seq<Amount>)
    ensures Names(AddAll(t, amounts)) == Names(t) + NewNames(Seen(Names(t)), Names(amounts))
    decreases |amounts|
  {
    if |amounts| > 0 {
      var a, rest := amounts[0], amounts[1..];
      var t' := Add(t, a.material, a.quantity);
      AddSpec(t, a.material, a.quantity);
      AddAllNames(t', rest);
      NamesTail(amounts);
      NewNamesStep(Names(t), a.material, Names(rest));
    }
  }

  lemma NamesTail(amounts: seq<Amount>)
    requires |amounts| > 0
    ensures Names(amounts) == [amounts[0].material] + Names(amounts[1..])
  {
  }

  lemma NamesAppend(a: seq<Amount>, b: seq<Amount>)
    ensures Names(a + b) == Names(a) + Names(b)
  {
  }

  /** One more name, first recorded in the key list and then read from the
      rest, gives the same as reading it along with the rest. */
  lemma NewNamesStep(ns: seq<string>, m: string, rest: seq<string>)
    ensures var ns' := if m in ns then ns else ns + [m];
      ns' + NewNames(Seen(ns'), rest) == ns + NewNames(Seen(ns), [m] + rest)
  {
    assert ([m] + rest)[0] == m && ([m] + rest)[1..] == rest;
    if m !in ns {
      SeenSnoc(ns, m);
      assert (ns + [m]) + NewNames(Seen(ns) + {m}, rest) == ns + ([m] + NewNames(Seen(ns) + {m}, rest));
    }
  }

  lemma SeenSnoc(ns: seq<string>, n: string)
    ensures Seen(ns + [n]) == Seen(ns) + {n}
  {
  }

  lemma SumForAppend(a: seq<Amount>, b: seq<Amount>, m: string)
    ensures SumFor(a + b, m) == SumFor(a, m) + SumFor(b, m)
  {
    if |a| == 0 {
      assert a + b == b;
    } else {
      assert (a + b)[1..] == a[1..] + b;
      SumForAppend(a[1..], b, m);
    }
  }

  lemma {:induction false} NewNamesAppend(seen: set<string>, a: seq<string>, b: seq<string>)
    ensures NewNames(seen, a + b) == NewNames(seen, a) + NewNames(seen + Seen(a), b)
    decreases |a|
  {
    if |a| == 0 {
      assert a + b == b;
      assert seen + Seen(a) == seen;
    } else {
      assert (a + b)[0] == a[0] && (a + b)[1..] == a[1..] + b;
      if a[0] in seen {
        NewNamesAppend(seen, a[1..], b);
        assert seen + Seen(a[1..]) == seen + Seen(a);
      } else {
        NewNamesAppend(seen + {a[0]}, a[1..], b);
        assert seen + {a[0]} + Seen(a[1..]) == seen + Seen(a);
      }
    }
  }

  /** First appearances after `drop ∪ seen` are the first appearances after
      `seen` with the `drop` names filtered out. */
  lemma {:induction false} NewNamesWithout(drop: set<string>, seen: set<string>, ns: seq<string>)
    ensures NewNames(drop + seen, ns) == Without(NewNames(seen, ns), drop)
    decreases |ns|
  {
    if |ns| > 0 {
      var x := ns[0];
      if x in seen {
        NewNamesWithout(drop, seen, ns[1..]);
      } else if x in drop {
        NewNamesWithout(drop, seen + {x}, ns[1..]);
        assert drop + (seen + {x}) == drop + seen;
      } else {
        NewNamesWithout(drop, seen + {x}, ns[1..]);
        assert drop + (seen + {x}) == (drop + seen) + {x};
      }
    }
  }

  lemma {:induction false} SeenNewNames(seen: set<string>, ns: seq<string>)
    ensures Seen(NewNames(seen, ns)) == Seen(ns) - seen
    decreases |ns|
  {
    if |ns| > 0 {
      if ns[0] in seen {
        SeenNewNames(seen, ns[1..]);
        assert Seen(ns) == {ns[0]} + Seen(ns[1..]);
      } else {
        SeenNewNames(seen + {ns[0]}, ns[1..]);
        assert Seen(ns) == {ns[0]} + Seen(ns[1..]);
        assert Seen([ns[0]] + NewNames(seen + {ns[0]}, ns[1..])) == {ns[0]} + Seen(NewNames(seen + {ns[0]}, ns[1..]));
      }
    }
  }

  /** Adding amounts whose materials are distinct and new appends them as they are. */
  lemma AddAllFresh(t: Table, amounts: seq<Amount>)
    requires Distinct(Names(amounts))
    requires forall i :: 0 <= i < |amounts| ==> amounts[i].material !in Names(t)
    ensures AddAll(t, amounts) == t + amounts
  {
    FreshChainOf(t, amounts);
    AddAllChain(t, amounts);
  }

  /** Each amount in turn names a material the table built so far lacks. */
  predicate FreshChain(t: Table, amounts: seq<Amount>)
    decreases |amounts|
  {
    |amounts| == 0 || (amounts[0].material !in Names(t) && FreshChain(t + [amounts[0]], amounts[1..]))
  }

  lemma {:induction false} FreshChainOf(t: Table, amounts: seq<Amount>)
    requires Distinct(Names(amounts))
    requires forall i :: 0 <= i < |amounts| ==> amounts[i].material !in Names(t)
    ensures FreshChain(t, amounts)
    decreases |amounts|
  {
    if |amounts| > 0 {
      FreshTail(t, amounts);
      FreshChainOf(t + [amounts[0]], amounts[1..]);
    }
  }

  lemma {:induction false} AddAllChain(t: Table, amounts: seq<Amount>)
    requires FreshChain(t, amounts)
    ensures AddAll(t, amounts) == t + amounts
    decreases |amounts|
  {
    if |amounts| == 0 {
      assert t + amounts == t;
    } else {
      var a, rest := amounts[0], amounts[1..];
      calc {
        AddAll(t, amounts);
        { assert amounts == [a] + rest; }
        AddAll(t, [a] + rest);
        { AddAllFreshStep(t, a, rest); }
        AddAll(t + [a], rest);
        { AddAllChain(t + [a], rest); }
        t + [a] + rest;
        { assert amounts == [a] + rest; }
        t + amounts;
      }
    }
  }

  /** Adding a fresh first amount appends it. */
  lemma AddAllFreshStep(t: Table, a: Amount, rest: seq<Amount>)
    requires a.material !in Names(t)
    ensures AddAll(t, [a] + rest) == AddAll(t + [a], rest)
  {
    AddAllCons(t, a, rest);
    AddFresh(t, a);
  }

  lemma AddAllCons(t: Table, a: Amount, rest: seq<Amount>)
    ensures AddAll(t, [a] + rest) == AddAll(Add(t, a.material, a.quantity), rest)
  {
    assert ([a] + rest)[0] == a && ([a] + rest)[1..] == rest;
  }

  /** The conditions of `AddAllFresh` carry over to the rest of the list once
      its first amount has been appended. */
  lemma FreshTail(t: Table, amounts: seq<Amount>)
    requires |amounts| > 0 && Distinct(Names(amounts))
    requires forall i :: 0 <= i < |amounts| ==> amounts[i].material !in Names(t)
    ensures Distinct(Names(amounts[1..]))
    ensures forall i :: 0 <= i < |amounts| - 1 ==> amounts[1..][i].material !in Names(t + [amounts[0]])
  {
    var ns := Names(amounts);
    assert Names(amounts[1..]) == ns[1..];
    assert Names(t + [amounts[0]]) == Names(t) + [ns[0]];
    forall i | 0 <= i < |amounts| - 1
      ensures amounts[1..][i].material != ns[0]
    {
      assert ns[i + 1] != ns[0];
    }
  }

  /** Adding a material the table lacks appends one row. */
  lemma {:induction false} AddFresh(t: Table, a: Amount)
    requires a.material !in Names(t)
    ensures Add(t, a.material, a.quantity) == t + [a]
    decreases |t|
  {
    if |t| > 0 {
      NamesTail(t);
      AddFresh(t[1..], a);
      assert Add(t, a.material, a.quantity) == [t[0]] + (t[1..] + [a]);
      assert [t[0]] + (t[1..] + [a]) == t + [a];
    }
  }

  /** Setting a material the table lacks appends one row. */
  lemma {:induction false} PutFresh(t: Table, m: string, q: int)
    requires m !in Names(t)
    ensures Put(t, m, q) == t + [Amount(m, q)]
    decreases |t|
  {
    if |t| > 0 {
      NamesTail(t);
      PutFresh(t[1..], m, q);
      assert Put(t, m, q) == [t[0]] + (t[1..] + [Amount(m, q)]);
      assert [t[0]] + (t[1..] + [Amount(m, q)]) == t + [Amount(m, q)];
    }
  }

  lemma ScaleCons(factor: int, a: Amount, rest: seq<Amount>)
    ensures Scale(factor, [a] + rest) == [Amount(a.material, factor * a.quantity)] + Scale(factor, rest)
  {
    var l := Scale(factor, [a] + rest);
    var r := [Amount(a.material, factor * a.quantity)] + Scale(factor, rest);
    assert |l| == |r|;
    forall i | 0 <= i < |l|
      ensures l[i] == r[i]
    {
      if i > 0 {
        assert ([a] + rest)[i] == rest[i - 1];
      }
    }
  }
}
