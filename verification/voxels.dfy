/** The voxel builder's ledger, without meshes: the world (which block sits
    in which grid cell) and the inventory (how many of each block the
    player may still place). In free-build mode the inventory checks are
    switched off. */
module Voxels {
  import opened Outcomes
  import opened Blocks
  import Game

  /** A grid cell. The program keys its tables by `key(x, y, z)`, which
      distinct cells never share (`VoxelKey.KeyInjective`), so keying by the
      triple is equivalent. */
  type Cell = (int, int, int)

  /** Stock every catalog name gets in free-build mode when nothing was
      earned. */
  const FREE_STOCK: int := 9999

  datatype Builder = Builder(world: map<Cell, string>, inventory: map<string, int>)

  /** What a place or remove reports (`true` or `false`) and the state
      afterwards. */
  datatype Outcome = Outcome(ok: bool, next: Builder)

  /** The stock of a name, zero for a name the inventory does not list. */
  function Stock(inv: map<string, int>, name: string): int
  {
    if name in inv then inv[name] else 0
  }

  predicate NonNegative(inv: map<string, int>)
  {
    forall name :: name in inv ==> inv[name] >= 0
  }

  /** The same stock for every name (a listed zero and an absent name agree). */
  ghost predicate SameStock(inv: map<string, int>, inv': map<string, int>)
  {
    forall name :: Stock(inv, name) == Stock(inv', name)
  }

  /** The cells holding `name`. */
  function CellsOf(world: map<Cell, string>, name: string): set<Cell>
  {
    set c | c in world && world[c] == name
  }

  /** Blocks of `name` on the grid plus blocks of `name` still in stock. */
  function Held(b: Builder, name: string): int
  {
    Stock(b.inventory, name) + |CellsOf(b.world, name)|
  }

  /** Put a block of `name` in cell `c`. Refused when the cell is taken, or,
      outside free-build, when the name has no positive stock; a refusal
      changes nothing. Success fills exactly that cell and, outside
      free-build, takes one from that name's stock and nothing else. */
  function PlaceVoxel(b: Builder, freeBuild: bool, c: Cell, name: string): (r: Outcome)
    ensures r.ok <==> c !in b.world && (freeBuild || (name in b.inventory && b.inventory[name] > 0))
    ensures !r.ok ==> r.next == b
    ensures r.ok ==> r.next.world.Keys == b.world.Keys + {c} && r.next.world[c] == name
    ensures r.ok ==> forall c' :: c' in b.world ==> r.next.world[c'] == b.world[c']
    ensures freeBuild ==> r.next.inventory == b.inventory
    ensures r.ok && !freeBuild ==>
              && r.next.inventory.Keys == b.inventory.Keys
              && Stock(r.next.inventory, name) == Stock(b.inventory, name) - 1
              && forall other :: other != name ==> Stock(r.next.inventory, other) == Stock(b.inventory, other)
    ensures NonNegative(b.inventory) ==> NonNegative(r.next.inventory)
  {
    if c in b.world then Outcome(false, b)
    else if !freeBuild && (name !in b.inventory || b.inventory[name] <= 0) then Outcome(false, b)
    else
      var inv := if freeBuild then b.inventory else b.inventory[name := b.inventory[name] - 1];
      Outcome(true, Builder(b.world[c := name], inv))
  }

  /** Take the block out of cell `c`. Refused, changing nothing, when the
      cell is empty. Success empties exactly that cell and, outside
      free-build, gives one back to the removed block's name, unless that
      name is the empty string, which the program treats as no name. */
  function RemoveVoxel(b: Builder, freeBuild: bool, c: Cell): (r: Outcome)
    ensures r.ok <==> c in b.world
    ensures !r.ok ==> r.next == b
    ensures r.ok ==> r.next.world.Keys == b.world.Keys - {c}
    ensures r.ok ==> forall c' :: c' in r.next.world ==> r.next.world[c'] == b.world[c']
    ensures r.ok && !freeBuild && b.world[c] != "" ==>
              && r.next.inventory.Keys == b.inventory.Keys + {b.world[c]}
              && Stock(r.next.inventory, b.world[c]) == Stock(b.inventory, b.world[c]) + 1
              && forall other :: other != b.world[c] ==> Stock(r.next.inventory, other) == Stock(b.inventory, other)
    ensures freeBuild || (r.ok && b.world[c] == "") ==> r.next.inventory == b.inventory
    ensures NonNegative(b.inventory) ==> NonNegative(r.next.inventory)
  {
    if c !in b.world then Outcome(false, b)
    else
      var name := b.world[c];
      var inv := if !freeBuild && name != "" then b.inventory[name := Stock(b.inventory, name) + 1] else b.inventory;
      Outcome(true, Builder(b.world - {c}, inv))
  }

  lemma CellsAfterInsert(world: map<Cell, string>, c: Cell, name: string, other: string)
    requires c !in world
    ensures |CellsOf(world[c := name], other)| == |CellsOf(world, other)| + (if other == name then 1 else 0)
  {
    if other == name {
      assert CellsOf(world[c := name], other) == CellsOf(world, other) + {c};
    } else {
      assert CellsOf(world[c := name], other) == CellsOf(world, other);
    }
  }

  lemma CellsAfterDelete(world: map<Cell, string>, c: Cell, other: string)
    requires c in world
    ensures |CellsOf(world - {c}, other)| == |CellsOf(world, other)| - (if world[c] == other then 1 else 0)
  {
    if world[c] == other {
      assert CellsOf(world, other) == CellsOf(world - {c}, other) + {c};
    } else {
      assert CellsOf(world - {c}, other) == CellsOf(world, other);
    }
  }

  /** Outside free-build a placement moves a block from stock to grid:
      for every name, stock plus placed blocks stays the same. */
  lemma PlaceConserves(b: Builder, c: Cell, name: string, other: string)
    requires PlaceVoxel(b, false, c, name).ok
    ensures Held(PlaceVoxel(b, false, c, name).next, other) == Held(b, other)
  {
    CellsAfterInsert(b.world, c, name, other);
  }

  /** Outside free-build a removal moves the block back from grid to stock,
      so stock plus placed blocks stays the same for every name, except that
      a block with the empty name is not given back and is lost. */
  lemma RemoveConserves(b: Builder, c: Cell, other: string)
    requires RemoveVoxel(b, false, c).ok
    ensures Held(RemoveVoxel(b, false, c).next, other) ==
            Held(b, other) - (if other == "" && b.world[c] == "" then 1 else 0)
  {
    CellsAfterDelete(b.world, c, other);
  }

  /** In free-build a placement adds one placed block of that name and
      leaves the stock alone. */
  lemma FreePlaceAddsOne(b: Builder, c: Cell, name: string)
    requires PlaceVoxel(b, true, c, name).ok
    ensures |CellsOf(PlaceVoxel(b, true, c, name).next.world, name)| == |CellsOf(b.world, name)| + 1
  {
    CellsAfterInsert(b.world, c, name, name);
  }

  /** Placing into a free cell and then removing it restores the builder
      exactly (outside free-build this needs a non-empty name, since the
      empty name is not refunded). */
  lemma PlaceThenRemove(b: Builder, freeBuild: bool, c: Cell, name: string)
    requires PlaceVoxel(b, freeBuild, c, name).ok
    requires freeBuild || name != ""
    ensures RemoveVoxel(PlaceVoxel(b, freeBuild, c, name).next, freeBuild, c) == Outcome(true, b)
  {
  }

  /** The empty name, as the program treats it: placing it outside
      free-build takes one from its stock, and removing it again does not
      give it back. */
  lemma EmptyNameIsNotRefunded(b: Builder, c: Cell)
    requires PlaceVoxel(b, false, c, "").ok
    ensures var back := RemoveVoxel(PlaceVoxel(b, false, c, "").next, false, c).next;
            back.world == b.world && Stock(back.inventory, "") == Stock(b.inventory, "") - 1
  {
  }

  /** Removing a block and putting the same block back in the same cell
      succeeds and restores the grid and every stock (given stocks that are
      not negative, and outside free-build a non-empty name). */
  lemma RemoveThenPlace(b: Builder, freeBuild: bool, c: Cell)
    requires c in b.world
    requires freeBuild || (b.world[c] != "" && NonNegative(b.inventory))
    ensures var mid := RemoveVoxel(b, freeBuild, c).next;
            var r := PlaceVoxel(mid, freeBuild, c, b.world[c]);
            r.ok && r.next.world == b.world && SameStock(r.next.inventory, b.inventory)
  {
  }

  /** One entry of a world document: a cell and the block in it. */
  datatype Entry = Entry(x: int, y: int, z: int, name: string)

  function CellOf(e: Entry): Cell
  {
    (e.x, e.y, e.z)
  }

  /** The cells a list of entries mentions. */
  function EntryCells(es: seq<Entry>): set<Cell>
  {
    set i | 0 <= i < |es| :: CellOf(es[i])
  }

  /** No later entry names the same cell as entry `i`. */
  predicate LastForCell(es: seq<Entry>, i: int)
    requires 0 <= i < |es|
  {
    forall j :: i < j < |es| ==> CellOf(es[j]) != CellOf(es[i])
  }

  /** The cells of a non-empty list are those of its prefix and its last. */
  lemma EntryCellsSnoc(es: seq<Entry>)
    requires |es| > 0
    ensures EntryCells(es) == EntryCells(es[..|es| - 1]) + {CellOf(es[|es| - 1])}
  {
  }

  /** An entry that is last for its cell in a list is last in the prefix too. */
  lemma LastForCellOfPrefix(es: seq<Entry>)
    requires |es| > 0
    ensures forall i :: 0 <= i < |es| - 1 && LastForCell(es, i) ==> LastForCell(es[..|es| - 1], i)
  {
  }

  /** The world the entries describe, entry by entry in order: exactly the
      cells mentioned, each holding the block of the last entry for it. */
  function Assemble(es: seq<Entry>): (w: map<Cell, string>)
    ensures w.Keys == EntryCells(es)
    ensures forall i :: 0 <= i < |es| && LastForCell(es, i) ==> w[CellOf(es[i])] == es[i].name
    decreases |es|
  {
    if |es| == 0 then map[]
    else
      var init, last := es[..|es| - 1], es[|es| - 1];
      EntryCellsSnoc(es);
      LastForCellOfPrefix(es);
      Assemble(init)[CellOf(last) := last.name]
  }

  /** A saved world document; `voxels` may be missing. */
  datatype Document = Document(voxels: Option<seq<Entry>>)

  /** Replace the whole world by the document's voxels (a later entry wins
      for a repeated cell); no document, or one without a voxel list, gives
      an empty world. The inventory is not looked at or charged. */
  function LoadWorld(b: Builder, doc: Option<Document>): (r: Builder)
    ensures r.inventory == b.inventory
    ensures doc.None? || doc.value.voxels.None? ==> r.world == map[]
    ensures doc.Some? && doc.value.voxels.Some? ==>
              var es := doc.value.voxels.value;
              && r.world.Keys == EntryCells(es)
              && forall i :: 0 <= i < |es| && LastForCell(es, i) ==> r.world[CellOf(es[i])] == es[i].name
  {
    match doc
    case None => b.(world := map[])
    case Some(Document(None)) => b.(world := map[])
    case Some(Document(Some(es))) => b.(world := Assemble(es))
  }

  /** The builder's starting inventory: the earned counts, or, when nothing
      was earned, every catalog name with `FREE_STOCK` in free-build and
      zero otherwise. */
  function StartInventory(counts: map<string, nat>, freeBuild: bool): (inv: map<string, int>)
    ensures |counts| == 0 ==> inv.Keys == set i | 0 <= i < |Names()| :: Names()[i]
    ensures |counts| == 0 ==> forall name :: name in inv ==> inv[name] == (if freeBuild then FREE_STOCK else 0)
    ensures |counts| != 0 ==> forall name :: Stock(inv, name) == (if name in counts then counts[name] else 0)
    ensures |counts| != 0 ==> inv.Keys == counts.Keys
    ensures NonNegative(inv)
  {
    if |counts| == 0 then
      var inv := map name | name in Names() :: if freeBuild then FREE_STOCK else 0;
      assert inv.Keys == set i | 0 <= i < |Names()| :: Names()[i] by {
        forall name | name in inv ensures name in set i | 0 <= i < |Names()| :: Names()[i] {
          var i :| 0 <= i < |Names()| && Names()[i] == name;
        }
      }
      inv
    else
      map name | name in counts :: counts[name] as int
  }

  /** Open the builder on the earned counts and an optional saved world:
      the starting inventory, and the world the document describes, with
      no world when there is no document or it lists no voxels. */
  function OpenBuilder(counts: map<string, nat>, world: Option<Document>, freeBuild: bool): (b: Builder)
    ensures b.inventory == StartInventory(counts, freeBuild)
    ensures NonNegative(b.inventory)
    ensures world.None? || world.value.voxels.None? ==> b.world == map[]
    ensures world.Some? && world.value.voxels.Some? ==>
              var es := world.value.voxels.value;
              && b.world.Keys == EntryCells(es)
              && forall i :: 0 <= i < |es| && LastForCell(es, i) ==> b.world[CellOf(es[i])] == es[i].name
  {
    LoadWorld(Builder(map[], StartInventory(counts, freeBuild)), world)
  }

  /** Opened on a session's counter outside free-build, the builder's stock
      of every name is the number of times that name was earned. */
  lemma StockIsEarned(s: Game.Session, world: Option<Document>)
    requires s.inventory.Some? && |s.inventory.value| > 0
    ensures forall name :: Stock(OpenBuilder(Game.InventoryCounts(s), world, false).inventory, name)
                           == multiset(s.inventory.value)[name]
  {
  }

  /** Outside free-build, a player who has earned nothing can place nothing. */
  lemma NothingEarnedNothingPlaced(world: Option<Document>, c: Cell, name: string)
    ensures !PlaceVoxel(OpenBuilder(map[], world, false), false, c, name).ok
  {
  }

  /** A click in the builder: place a block in a cell, or remove one. */
  datatype Action = Place(cell: Cell, name: string) | Remove(cell: Cell)

  function Apply(b: Builder, freeBuild: bool, a: Action): Outcome
  {
    match a
    case Place(c, name) => PlaceVoxel(b, freeBuild, c, name)
    case Remove(c) => RemoveVoxel(b, freeBuild, c)
  }

  /** The builder after a sequence of clicks, each applied to the state the
      previous one left. */
  function Run(b: Builder, freeBuild: bool, actions: seq<Action>): Builder
    decreases |actions|
  {
    if |actions| == 0 then b
    else Run(Apply(b, freeBuild, actions[0]).next, freeBuild, actions[1..])
  }

  /** Across any sequence of clicks outside free-build, no stock goes
      negative, stock plus placed blocks never grows, and for every
      non-empty name it stays what it was at the start. */
  lemma {:induction false} RunKeepsLedger(b: Builder, actions: seq<Action>, name: string)
    requires NonNegative(b.inventory)
    ensures NonNegative(Run(b, false, actions).inventory)
    ensures Held(Run(b, false, actions), name) <= Held(b, name)
    ensures name != "" ==> Held(Run(b, false, actions), name) == Held(b, name)
    decreases |actions|
  {
    if |actions| > 0 {
      var next := Apply(b, false, actions[0]);
      match actions[0] {
        case Place(c, n) =>
          if next.ok {
            PlaceConserves(b, c, n, name);
          }
        case Remove(c) =>
          if next.ok {
            RemoveConserves(b, c, name);
          }
      }
      assert Run(b, false, actions) == Run(next.next, false, actions[1..]);
      RunKeepsLedger(next.next, actions[1..], name);
    }
  }

  /** The ledger from start to finish: open the builder outside free-build
      on a session's earned blocks, with no saved world, and apply any
      sequence of clicks; the blocks of a name on the grid never outnumber
      the times that name was earned. */
  lemma PlacedWithinEarned(s: Game.Session, actions: seq<Action>, name: string)
    ensures |CellsOf(Run(OpenBuilder(Game.InventoryCounts(s), None, false), false, actions).world, name)|
            <= (if s.inventory.Some? then multiset(s.inventory.value)[name] else 0)
  {
    var counts := Game.InventoryCounts(s);
    var b := OpenBuilder(counts, None, false);
    var earned := if s.inventory.Some? then multiset(s.inventory.value)[name] else 0;
    assert CellsOf(b.world, name) == {};
    if s.inventory.Some? && |s.inventory.value| > 0 {
      StockIsEarned(s, None);
    } else {
      assert counts.Keys == {};
      assert counts == map[];
    }
    assert Held(b, name) == earned;
    RunKeepsLedger(b, actions, name);
  }

  /** Loading a world charges nothing, so a block that was never earned can
      enter through a saved document and then be removed for a refund:
      outside free-build, with nothing earned, a document holding one TNT
      block puts one TNT on the grid, and removing it leaves one TNT in
      stock. */
  lemma LoadedBlockIsRefunded()
    ensures var b := OpenBuilder(map[], Some(Document(Some([Entry(0, 0, 0, "TNT")]))), false);
            && Stock(b.inventory, "TNT") == 0
            && |CellsOf(b.world, "TNT")| == 1
            && RemoveVoxel(b, false, (0, 0, 0)).ok
            && Stock(RemoveVoxel(b, false, (0, 0, 0)).next.inventory, "TNT") == 1
  {
    var es := [Entry(0, 0, 0, "TNT")];
    var b := OpenBuilder(map[], Some(Document(Some(es))), false);
    assert EntryCells(es) == {(0, 0, 0)};
    assert LastForCell(es, 0);
    assert b.world == map[(0, 0, 0) := "TNT"];
    assert CellsOf(b.world, "TNT") == {(0, 0, 0)};
    assert "TNT" == Names()[14];
  }
}
