/** The fixed catalog of collectible blocks: each entry's name and the
    weight the reward draw gives it. Emoji, texture file and colour are
    presentation and are not part of this model. */
module Blocks {

  datatype Block = Block(name: string, weight: nat)

  const Catalog: seq<Block> := [
    Block("Grass", 8),
    Block("Dirt", 8),
    Block("Stone", 8),
    Block("Oak Planks", 6),
    Block("Brick", 5),
    Block("Sand", 6),
    Block("Water", 5),
    Block("Coal Ore", 4),
    Block("Iron Ore", 3),
    Block("Gold Ore", 2),
    Block("Lapis Ore", 2),
    Block("Redstone Ore", 2),
    Block("Diamond Ore", 1),
    Block("Obsidian", 1),
    Block("TNT", 1)
  ]

  /** The catalog's names in catalog order. */
  function Names(): (r: seq<string>)
    ensures |r| == |Catalog|
    ensures forall i :: 0 <= i < |r| ==> r[i] == Catalog[i].name
  {
    seq(|Catalog|, i requires 0 <= i < |Catalog| => Catalog[i].name)
  }

  predicate IsBlockName(name: string)
  {
    name in Names()
  }

  /** The catalog the reward draw relies on: fifteen entries, no name
      twice, no name empty, every weight positive. */
  lemma CatalogWellFormed()
    ensures |Names()| == 15
    ensures forall i, j :: 0 <= i < j < |Names()| ==> Names()[i] != Names()[j]
    ensures forall i :: 0 <= i < |Names()| ==> Names()[i] != ""
    ensures forall i :: 0 <= i < |Catalog| ==> Catalog[i].weight > 0
  {
  }
}
