/** Names made of letters and inner spaces, and the check that every name in
    the built-in catalog is one. Such names carry none of the characters the
    saved-line format reserves. */
module Words {
  import opened Text
  import opened Tally
  import opened Catalog

  /** Letters and inner spaces only. */
  predicate Plain(s: string) {
    && |s| > 0 && s[0] != ' ' && s[|s| - 1] != ' '
    && forall i :: 0 <= i < |s| ==> ('A' <= s[i] <= 'Z' || 'a' <= s[i] <= 'z' || s[i] == ' ')
  }

  predicate PlainMaterial(m: string) {
    Plain(m) && !EndsWith(m, "Materials")
  }

  /** Material names made of plain words, none ending in "Materials". */
  predicate PlainMaterials(ms: seq<string>)
    decreases |ms|
  {
    |ms| == 0 || (PlainMaterial(ms[0]) && PlainMaterials(ms[1..]))
  }

  /** Three distinct plain material names, none ending in "Materials". */
  lemma PlainMaterials3(a: string, b: string, c: string)
    requires PlainMaterial(a) && PlainMaterial(b) && PlainMaterial(c)
    requires a != b && a != c && b != c
    ensures PlainMaterials([a, b, c]) && Distinct([a, b, c])
  {
    assert PlainMaterials([c]) by { assert [c][1..] == []; }
    assert PlainMaterials([b, c]) by { assert [b, c][1..] == [c]; }
  }

  /** Every item of the built-in catalog has a plain name and a non-empty list
      of distinct plain material names. */
  lemma BlueprintsPlain(k: int, j: int)
    requires 0 <= k < |Blueprints| && 0 <= j < |Blueprints[k].items|
    ensures Plain(Blueprints[k].items[j].name)
    ensures var ms := Blueprints[k].items[j].materials; |ms| > 0 && PlainMaterials(ms) && Distinct(ms)
  {
    if k == 0 && j == 0 {
      UmbraCrystalPlain();
    } else if k == 0 {
      FireSeedPlain();
    } else if k == 1 {
      FieldBrewPlain();
    } else {
      FlashBombPlain();
    }
  }

  lemma UmbraCrystalPlain()
    ensures Plain("Umbra Crystal")
    ensures PlainMaterials(["Fish Remains", "Shell Elixir", "Black Ink"])
    ensures Distinct(["Fish Remains", "Shell Elixir", "Black Ink"])
  {
    UmbraCrystalNamePlain();
    FishRemainsPlain();
    ShellElixirPlain();
    BlackInkPlain();
    PlainMaterials3("Fish Remains", "Shell Elixir", "Black Ink");
  }

  lemma FireSeedPlain()
    ensures Plain("Fire Seed")
    ensures PlainMaterials(["Poison", "Iron Ore", "Hidden Honey"])
    ensures Distinct(["Poison", "Iron Ore", "Hidden Honey"])
  {
    FireSeedNamePlain();
    PoisonPlain();
    IronOrePlain();
    HiddenHoneyPlain();
    PlainMaterials3("Poison", "Iron Ore", "Hidden Honey");
  }

  lemma FieldBrewPlain()
    ensures Plain("Field Brew")
    ensures PlainMaterials(["Herbs", "Water", "Spices"])
    ensures Distinct(["Herbs", "Water", "Spices"])
  {
    FieldBrewNamePlain();
    HerbsPlain();
    WaterPlain();
    SpicesPlain();
    PlainMaterials3("Herbs", "Water", "Spices");
  }

  lemma FlashBombPlain()
    ensures Plain("Flash Bomb")
    ensures PlainMaterials(["Lightning Heart", "Enchanted Wood Strip", "Mystic Leaf"])
    ensures Distinct(["Lightning Heart", "Enchanted Wood Strip", "Mystic Leaf"])
  {
    FlashBombNamePlain();
    LightningHeartPlain();
    EnchantedWoodStripPlain();
    MysticLeafPlain();
    PlainMaterials3("Lightning Heart", "Enchanted Wood Strip", "Mystic Leaf");
  }

  /* Each literal is checked in a lemma of its own: checked together,
     the character-by-character facts about different literals make a proof
     obligation grow far faster than their number. */
  lemma FishRemainsPlain() ensures PlainMaterial("Fish Remains") {}
  lemma ShellElixirPlain() ensures PlainMaterial("Shell Elixir") {}
  lemma BlackInkPlain() ensures PlainMaterial("Black Ink") {}
  lemma PoisonPlain() ensures PlainMaterial("Poison") {}
  lemma IronOrePlain() ensures PlainMaterial("Iron Ore") {}
  lemma HiddenHoneyPlain() ensures PlainMaterial("Hidden Honey") {}
  lemma HerbsPlain() ensures PlainMaterial("Herbs") {}
  lemma WaterPlain() ensures PlainMaterial("Water") {}
  lemma SpicesPlain() ensures PlainMaterial("Spices") {}
  lemma LightningHeartPlain() ensures PlainMaterial("Lightning Heart") {}
  lemma EnchantedWoodStripPlain() ensures PlainMaterial("Enchanted Wood Strip") {}
  lemma MysticLeafPlain() ensures PlainMaterial("Mystic Leaf") {}
  lemma UmbraCrystalNamePlain() ensures Plain("Umbra Crystal") {}
  lemma FireSeedNamePlain() ensures Plain("Fire Seed") {}
  lemma FieldBrewNamePlain() ensures Plain("Field Brew") {}
  lemma FlashBombNamePlain() ensures Plain("Flash Bomb") {}
}
