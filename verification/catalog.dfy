/** The static table of blueprint categories, their final items and each
    item's ordered list of required materials, with the item-to-category
    lookup that the listing uses. */
module Catalog {
  import opened Tally

  datatype Item = Item(name: string, materials: seq<string>)

  datatype Category = Category(name: string, items: seq<Item>)

  /** The bucket for lines whose item the catalog does not know. */
  const Unknown: string := "Unknown"

  /** `blueprint_types`, in definition order. */
  const Blueprints: seq<Category> := [
    Category("Craft", [
      Item("Umbra Crystal", ["Fish Remains", "Shell Elixir", "Black Ink"]),
      Item("Fire Seed", ["Poison", "Iron Ore", "Hidden Honey"])
    ]),
    Category("Cooking", [
      Item("Field Brew", ["Herbs", "Water", "Spices"])
    ]),
    Category("Manufacturing", [
      Item("Flash Bomb", ["Lightning Heart", "Enchanted Wood Strip", "Mystic Leaf"])
    ])
  ]

  function CategoryNames(cats: seq<Category>): seq<string> {
    seq(|cats|, k requires 0 <= k < |cats| => cats[k].name)
  }

  function ItemNames(items: seq<Item>): seq<string> {
    seq(|items|, j requires 0 <= j < |items| => items[j].name)
  }

  /** What the nested dict literal guarantees: category names are distinct
      keys, item names are distinct keys within their category; and no
      category is called "Unknown", the name the listing keeps for itself. */
  predicate WellFormed(cats: seq<Category>) {
    && Distinct(CategoryNames(cats))
    && Unknown !in CategoryNames(cats)
    && forall k :: 0 <= k < |cats| ==> Distinct(ItemNames(cats[k].items))
  }

  /** No item name is listed under two categories. */
  predicate UniqueItems(cats: seq<Category>) {
    forall k, j :: 0 <= k < j < |cats| ==>
      forall n :: n in ItemNames(cats[k].items) ==> n !in ItemNames(cats[j].items)
  }

  /** Category `k` lists an item called `n`. */
  predicate Lists(cats: seq<Category>, k: int, n: string) {
    0 <= k < |cats| && n in ItemNames(cats[k].items)
  }

  /** Category `k` is the last category that lists `n`. */
  predicate LastLists(cats: seq<Category>, k: int, n: string) {
    Lists(cats, k, n) && forall j :: k < j < |cats| ==> !Lists(cats, j, n)
  }

  /** `name_to_type`, filled category by category and item by item; an item
      listed again under a later category is reassigned to it. */
  function ReverseIndex(cats: seq<Category>): map<string, string>
    decreases |cats|
  {
    if |cats| == 0 then map[]
    else
      var last := cats[|cats| - 1];
      ReverseIndex(cats[..|cats| - 1]) + map n | n in ItemNames(last.items) :: last.name
  }

  lemma ListsInFront(cats: seq<Category>, m: int, k: int, n: string)
    requires 0 <= k < m <= |cats|
    ensures Lists(cats[..m], k, n) <==> Lists(cats, k, n)
  {
    assert cats[..m][k] == cats[k];
  }

  /** The reverse index holds exactly the item names some category lists. */
  lemma {:induction false} ReverseIndexKeys(cats: seq<Category>, n: string)
    ensures n in ReverseIndex(cats) <==> exists k :: Lists(cats, k, n)
    decreases |cats|
  {
    if |cats| > 0 {
      var m := |cats| - 1;
      var front := cats[..m];
      var added := map x | x in ItemNames(cats[m].items) :: cats[m].name;
      assert ReverseIndex(cats) == ReverseIndex(front) + added;
      ReverseIndexKeys(front, n);
      if k :| Lists(cats, k, n) {
        if k < m {
          ListsInFront(cats, m, k, n);
        }
      }
      if n in ReverseIndex(cats) {
        if n in added {
          assert Lists(cats, m, n);
        } else {
          var k :| Lists(front, k, n);
          ListsInFront(cats, m, k, n);
        }
      }
    }
  }

  /** Each item is mapped to the last category that lists it. */
  lemma {:induction false} ReverseIndexValue(cats: seq<Category>, k: int, n: string)
    requires LastLists(cats, k, n)
    ensures n in ReverseIndex(cats) && ReverseIndex(cats)[n] == cats[k].name
    decreases |cats|
  {
    var m := |cats| - 1;
    var front := cats[..m];
    var added := map x | x in ItemNames(cats[m].items) :: cats[m].name;
    assert ReverseIndex(cats) == ReverseIndex(front) + added;
    if k < m {
      assert !Lists(cats, m, n);
      ListsInFront(cats, m, k, n);
      forall j | k < j < m
        ensures !Lists(front, j, n)
      {
        ListsInFront(cats, m, j, n);
      }
      ReverseIndexValue(front, k, n);
    }
  }

  lemma ReverseIndexValues(cats: seq<Category>, n: string)
    ensures forall k :: LastLists(cats, k, n) ==> n in ReverseIndex(cats) && ReverseIndex(cats)[n] == cats[k].name
  {
    forall k | LastLists(cats, k, n)
      ensures n in ReverseIndex(cats) && ReverseIndex(cats)[n] == cats[k].name
    {
      ReverseIndexValue(cats, k, n);
    }
  }

  /** `name_to_type.get(name, "Unknown")`: the last category listing the item,
      or "Unknown" when none does. */
  function CategoryOf(cats: seq<Category>, name: string): string {
    var index := ReverseIndex(cats);
    if name in index then index[name] else Unknown
  }

  /** An item no category lists is "Unknown"; otherwise it belongs to the last
      category listing it. */
  lemma CategoryOfSpec(cats: seq<Category>, name: string)
    ensures (forall k :: !Lists(cats, k, name)) ==> CategoryOf(cats, name) == Unknown
    ensures forall k :: LastLists(cats, k, name) ==> CategoryOf(cats, name) == cats[k].name
  {
    ReverseIndexKeys(cats, name);
    ReverseIndexValues(cats, name);
  }

  /** The reverse index only ever names a category of the catalog. */
  lemma {:induction false} ReverseIndexRange(cats: seq<Category>, n: string)
    requires n in ReverseIndex(cats)
    ensures ReverseIndex(cats)[n] in CategoryNames(cats)
    decreases |cats|
  {
    var m := |cats| - 1;
    var front := cats[..m];
    var added := map x | x in ItemNames(cats[m].items) :: cats[m].name;
    assert ReverseIndex(cats) == ReverseIndex(front) + added;
    assert CategoryNames(cats) == CategoryNames(front) + [cats[m].name];
    if n !in added {
      ReverseIndexRange(front, n);
    }
  }

  /** Every item name is filed under a catalog category or under "Unknown". */
  lemma CategoryOfKnown(cats: seq<Category>, name: string)
    ensures CategoryOf(cats, name) in CategoryNames(cats) + [Unknown]
  {
    if name in ReverseIndex(cats) {
      ReverseIndexRange(cats, name);
    }
  }

  /** With no item listed twice, an item is filed under the one category that
      lists it, and a name no category lists is "Unknown". */
  lemma CategoryOfUnique(cats: seq<Category>, k: int, name: string)
    requires UniqueItems(cats)
    requires Lists(cats, k, name)
    ensures CategoryOf(cats, name) == cats[k].name
  {
    CategoryOfSpec(cats, name);
    assert LastLists(cats, k, name);
  }

  lemma BlueprintsWellFormed()
    ensures WellFormed(Blueprints)
  {
    assert CategoryNames(Blueprints) == ["Craft", "Cooking", "Manufacturing"];
  }

  lemma BlueprintsUnique()
    ensures UniqueItems(Blueprints)
  {
    assert ItemNames(Blueprints[0].items) == ["Umbra Crystal", "Fire Seed"];
    assert ItemNames(Blueprints[1].items) == ["Field Brew"];
    assert ItemNames(Blueprints[2].items) == ["Flash Bomb"];
  }
}
