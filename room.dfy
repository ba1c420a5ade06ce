/** The `Room` object of picopix-puzzle.js: the two grids, the actors and the
    three operations that change or read them. Each method is proved to do to
    `Snapshot()` what the matching function of `RoomState` says. */
module PuzzleRoom {
  import opened RoomState

  /** The fields of every actor in `actors`. */
  ghost function PosesOf(actors: set<Actor>): (m: map<Actor, Pose>)
    reads actors
    ensures m.Keys == actors
  {
    map a | a in actors :: a.CurrentPose()
  }

  /** A second write to a cell overrides the first. */
  lemma PutTwice<T>(g: seq<seq<T>>, x: int, y: int, u: T, v: T)
    requires 0 <= x < |g| && 0 <= y < |g[x]|
    ensures Put(Put(g, x, y, u), x, y, v) == Put(g, x, y, v)
  {
    assert g[x][y := u][y := v] == g[x][y := v];
  }

  /** Fields of actors that did not change give the same poses. */
  twostate lemma PosesOfFrame(actors: set<Actor>)
    requires unchanged(actors)
    ensures PosesOf(actors) == old(PosesOf(actors))
  {
  }

  /** The poses of a set are those of the set without `obj`, plus the
      pose of `obj`. */
  lemma PosesOfSplit(actors: set<Actor>, obj: Actor)
    requires obj in actors
    ensures PosesOf(actors) == PosesOf(actors - {obj})[obj := obj.CurrentPose()]
  {
  }

  /** Adding an actor adds its fields. */
  lemma PosesOfAdd(actors: set<Actor>, obj: Actor)
    ensures PosesOf(actors + {obj}) == PosesOf(actors)[obj := obj.CurrentPose()]
  {
  }

  /** A `w` by `h` grid holding `v` everywhere. */
  function Blank<T>(w: nat, h: nat, v: T): (g: seq<seq<T>>)
    ensures GridShaped(g, w, h)
    ensures forall x, y | 0 <= x < w && 0 <= y < h :: g[x][y] == v
  {
    seq(w, _ => seq(h, _ => v))
  }

  /** The cells with glyph `g` that the constructor's column-major scan
      visits before column `x`, row `y`, in the order it visits them. */
  function ScanOrder(tiles: seq<string>, x: nat, y: nat, g: char): seq<(nat, nat)>
    requires y <= |tiles|
    decreases x, y
  {
    if y == 0 then
      if x == 0 then [] else ScanOrder(tiles, x - 1, |tiles|, g)
    else
      ScanOrder(tiles, x, y - 1, g) + (if TileGlyph(tiles, x, y - 1) == g then [(x, y - 1)] else [])
  }

  /** Every cell before column `x`, row `y` holds what the scan makes of
      its glyph; every later cell is still blank. */
  ghost predicate GridScanned(tiles: seq<string>, floor: seq<seq<char>>, occupied: seq<seq<Cell>>,
                              w: int, h: int, x: int, y: int)
    requires h == |tiles| && GridShaped(floor, w, h) && GridShaped(occupied, w, h)
  {
    forall i, j | 0 <= i < w && 0 <= j < h ::
      if i < x || (i == x && j < y) then
        floor[i][j] == Classify(TileGlyph(tiles, i, j)) &&
        (occupied[i][j] == Wall <==> TileGlyph(tiles, i, j) == '#') &&
        (occupied[i][j].Holds? <==> TileGlyph(tiles, i, j) in {'^', '*'})
      else floor[i][j] == ' ' && occupied[i][j] == Free
  }

  /** Every actor rests, inside the grid, in the cell that refers to it. */
  ghost predicate AllResting(occupied: seq<seq<Cell>>, poses: map<Actor, Pose>, w: int, h: int)
    requires GridShaped(occupied, w, h)
  {
    forall a | a in poses ::
      poses[a] == Resting(poses[a].gridX, poses[a].gridY) &&
      0 <= poses[a].gridX < w && 0 <= poses[a].gridY < h &&
      occupied[poses[a].gridX][poses[a].gridY] == Holds(a)
  }

  /** The actors of `list` stand at the cells of `cells`, in order. */
  ghost predicate ListedAt(list: seq<Actor>, poses: map<Actor, Pose>, cells: seq<(nat, nat)>)
  {
    |list| == |cells| &&
    forall k | 0 <= k < |list| ::
      list[k] in poses && poses[list[k]].gridX == cells[k].0 && poses[list[k]].gridY == cells[k].1
  }

  /** `player` is null when there are no cells, and otherwise stands at the
      last of them. */
  ghost predicate LastAt(player: Actor?, poses: map<Actor, Pose>, cells: seq<(nat, nat)>)
  {
    (player == null <==> cells == []) &&
    (player != null ==>
       player in poses && poses[player].gridX == cells[|cells| - 1].0 &&
       poses[player].gridY == cells[|cells| - 1].1)
  }

  /** Writing a cell that was still blank, and recording there a new actor
      resting in it if any, keeps every actor at home and resting. */
  lemma ScanKeeps(occupied: seq<seq<Cell>>, poses: map<Actor, Pose>, w: int, h: int, x: int, y: int, c: Cell)
    requires GridShaped(occupied, w, h) && 0 <= x < w && 0 <= y < h && occupied[x][y] == Free
    requires Homed(occupied, poses) && AllResting(occupied, poses, w, h)
    requires c.Holds? ==> c.actor !in poses
    ensures var q := if c.Holds? then poses[c.actor := Resting(x, y)] else poses;
      Homed(Put(occupied, x, y, c), q) && AllResting(Put(occupied, x, y, c), q, w, h)
  {
    var q := if c.Holds? then poses[c.actor := Resting(x, y)] else poses;
    var r := Put(occupied, x, y, c);
    forall a | a in q
      ensures q[a] == Resting(q[a].gridX, q[a].gridY) &&
        0 <= q[a].gridX < w && 0 <= q[a].gridY < h && r[q[a].gridX][q[a].gridY] == Holds(a)
    {
      if a in poses && !(c.Holds? && a == c.actor) {
        assert q[a] == poses[a];
        assert occupied[q[a].gridX][q[a].gridY] == Holds(a);
      }
    }
    forall i, j | 0 <= i < |r| && 0 <= j < |r[i]| && r[i][j].Holds?
      ensures r[i][j].actor in q && q[r[i][j].actor].gridX == i && q[r[i][j].actor].gridY == j
    {
      if i != x || j != y {
        assert r[i][j] == occupied[i][j];
      }
    }
  }

  /** The scan of one more cell extends `GridScanned` by that cell. */
  lemma GridStep(tiles: seq<string>, floor: seq<seq<char>>, occupied: seq<seq<Cell>>,
                 w: int, h: int, x: int, y: int, c: Cell)
    requires h == |tiles| && GridShaped(floor, w, h) && GridShaped(occupied, w, h)
    requires 0 <= x < w && 0 <= y < h && GridScanned(tiles, floor, occupied, w, h, x, y)
    requires c == Wall <==> TileGlyph(tiles, x, y) == '#'
    requires c.Holds? <==> TileGlyph(tiles, x, y) in {'^', '*'}
    ensures GridShaped(Put(floor, x, y, Classify(TileGlyph(tiles, x, y))), w, h)
    ensures GridShaped(Put(occupied, x, y, c), w, h)
    ensures GridScanned(tiles, Put(floor, x, y, Classify(TileGlyph(tiles, x, y))), Put(occupied, x, y, c), w, h, x, y + 1)
  {
  }

  /** A new actor does not disturb where the listed ones stand. */
  lemma ListedGrow(list: seq<Actor>, poses: map<Actor, Pose>, cells: seq<(nat, nat)>, obj: Actor, p: Pose)
    requires ListedAt(list, poses, cells) && obj !in poses
    ensures ListedAt(list, poses[obj := p], cells)
  {
    forall k | 0 <= k < |list| ensures list[k] != obj {
      assert list[k] in poses;
    }
  }

  /** The scan's state after every cell before column `x`, row `y`. */
  ghost predicate ScanState(tiles: seq<string>, w: int, h: int, x: int, y: int,
                            floor: seq<seq<char>>, occupied: seq<seq<Cell>>, poses: map<Actor, Pose>,
                            boulders: seq<Actor>, player: Actor?)
  {
    |tiles| == h && GridShaped(floor, w, h) && GridShaped(occupied, w, h) &&
    0 <= x <= w && 0 <= y <= h &&
    GridScanned(tiles, floor, occupied, w, h, x, y) &&
    Homed(occupied, poses) && AllResting(occupied, poses, w, h) &&
    ListedAt(boulders, poses, ScanOrder(tiles, x, y, '*')) &&
    LastAt(player, poses, ScanOrder(tiles, x, y, '^'))
  }

  /** Scanning cell (x, y) with glyph `g`: `c` is what `occupied` gets, a new
      actor for `^` and `*`; the boulder list and the player follow. */
  lemma ScanStep(tiles: seq<string>, w: int, h: int, x: int, y: int,
                 floor: seq<seq<char>>, occupied: seq<seq<Cell>>, poses: map<Actor, Pose>,
                 boulders: seq<Actor>, player: Actor?, c: Cell,
                 floor': seq<seq<char>>, occupied': seq<seq<Cell>>, poses': map<Actor, Pose>,
                 boulders': seq<Actor>, player': Actor?)
    requires ScanState(tiles, w, h, x, y, floor, occupied, poses, boulders, player)
    requires 0 <= x < w && 0 <= y < h
    requires TileGlyph(tiles, x, y) in {'^', '*'} ==> c.Holds? && c.actor !in poses
    requires TileGlyph(tiles, x, y) !in {'^', '*'} ==> c == if TileGlyph(tiles, x, y) == '#' then Wall else Free
    requires floor' == Put(floor, x, y, Classify(TileGlyph(tiles, x, y)))
    requires occupied' == Put(occupied, x, y, c)
    requires poses' == if c.Holds? then poses[c.actor := Resting(x, y)] else poses
    requires boulders' == if TileGlyph(tiles, x, y) == '*' then boulders + [c.actor] else boulders
    requires player' == if TileGlyph(tiles, x, y) == '^' then c.actor else player
    ensures ScanState(tiles, w, h, x, y + 1, floor', occupied', poses', boulders', player')
  {
    GridStep(tiles, floor, occupied, w, h, x, y, c);
    ScanKeeps(occupied, poses, w, h, x, y, c);
    ListsStep(tiles, x, y, poses, boulders, player, c, poses', boulders', player');
  }

  /** The boulder list and the player follow the scan of cell (x, y). */
  lemma ListsStep(tiles: seq<string>, x: nat, y: nat, poses: map<Actor, Pose>,
                  boulders: seq<Actor>, player: Actor?, c: Cell,
                  poses': map<Actor, Pose>, boulders': seq<Actor>, player': Actor?)
    requires y < |tiles|
    requires ListedAt(boulders, poses, ScanOrder(tiles, x, y, '*'))
    requires LastAt(player, poses, ScanOrder(tiles, x, y, '^'))
    requires TileGlyph(tiles, x, y) in {'^', '*'} ==> c.Holds? && c.actor !in poses
    requires TileGlyph(tiles, x, y) !in {'^', '*'} ==> !c.Holds?
    requires poses' == if c.Holds? then poses[c.actor := Resting(x, y)] else poses
    requires boulders' == if TileGlyph(tiles, x, y) == '*' then boulders + [c.actor] else boulders
    requires player' == if TileGlyph(tiles, x, y) == '^' then c.actor else player
    ensures ListedAt(boulders', poses', ScanOrder(tiles, x, y + 1, '*'))
    ensures LastAt(player', poses', ScanOrder(tiles, x, y + 1, '^'))
  {
    BoulderListStep(tiles, x, y, poses, boulders, c, poses', boulders');
    PlayerStep(tiles, x, y, poses, player, c, poses', player');
  }

  /** The boulder list of the scan, extended by cell (x, y). */
  lemma BoulderListStep(tiles: seq<string>, x: nat, y: nat, poses: map<Actor, Pose>,
                        boulders: seq<Actor>, c: Cell, poses': map<Actor, Pose>, boulders': seq<Actor>)
    requires y < |tiles|
    requires ListedAt(boulders, poses, ScanOrder(tiles, x, y, '*'))
    requires TileGlyph(tiles, x, y) == '*' ==> c.Holds?
    requires c.Holds? ==> c.actor !in poses
    requires poses' == if c.Holds? then poses[c.actor := Resting(x, y)] else poses
    requires boulders' == if TileGlyph(tiles, x, y) == '*' then boulders + [c.actor] else boulders
    ensures ListedAt(boulders', poses', ScanOrder(tiles, x, y + 1, '*'))
  {
    var stars := ScanOrder(tiles, x, y, '*');
    assert ScanOrder(tiles, x, y + 1, '*') == stars + (if TileGlyph(tiles, x, y) == '*' then [(x, y)] else []);
    if c.Holds? {
      ListedGrow(boulders, poses, stars, c.actor, Resting(x, y));
    }
  }

  /** The player of the scan, updated by cell (x, y). */
  lemma PlayerStep(tiles: seq<string>, x: nat, y: nat, poses: map<Actor, Pose>,
                   player: Actor?, c: Cell, poses': map<Actor, Pose>, player': Actor?)
    requires y < |tiles|
    requires LastAt(player, poses, ScanOrder(tiles, x, y, '^'))
    requires TileGlyph(tiles, x, y) == '^' ==> c.Holds?
    requires c.Holds? ==> c.actor !in poses
    requires poses' == if c.Holds? then poses[c.actor := Resting(x, y)] else poses
    requires player' == if TileGlyph(tiles, x, y) == '^' then c.actor else player
    ensures LastAt(player', poses', ScanOrder(tiles, x, y + 1, '^'))
  {
    assert ScanOrder(tiles, x, y + 1, '^') ==
      ScanOrder(tiles, x, y, '^') + (if TileGlyph(tiles, x, y) == '^' then [(x, y)] else []);
  }

  /** Before the scan every cell is blank and there is no actor. */
  lemma ScanStart(tiles: seq<string>, w: int, h: int, floor: seq<seq<char>>, occupied: seq<seq<Cell>>)
    requires |tiles| == h && w >= 0 && h >= 0 && GridShaped(floor, w, h) && GridShaped(occupied, w, h)
    requires forall x, y | 0 <= x < w && 0 <= y < h :: floor[x][y] == ' ' && occupied[x][y] == Free
    ensures ScanState(tiles, w, h, 0, 0, floor, occupied, map[], [], null)
  {
  }

  /** Finishing a column is starting the next one. */
  lemma ScanNextColumn(tiles: seq<string>, w: int, h: int, x: int,
                       floor: seq<seq<char>>, occupied: seq<seq<Cell>>, poses: map<Actor, Pose>,
                       boulders: seq<Actor>, player: Actor?)
    requires x < w && ScanState(tiles, w, h, x, h, floor, occupied, poses, boulders, player)
    ensures ScanState(tiles, w, h, x + 1, 0, floor, occupied, poses, boulders, player)
  {
    assert ScanOrder(tiles, x + 1, 0, '*') == ScanOrder(tiles, x, h, '*');
    assert ScanOrder(tiles, x + 1, 0, '^') == ScanOrder(tiles, x, h, '^');
  }

  /** A finished scan of a well-formed level is a valid room. */
  lemma ScanValid(lv: Level, w: int, h: int, floor: seq<seq<char>>, occupied: seq<seq<Cell>>,
                  poses: map<Actor, Pose>, boulders: seq<Actor>, player: Actor?)
    requires LevelOk(lv) && w == |lv.tiles[0]|
    requires ScanState(lv.tiles, w, h, w, 0, floor, occupied, poses, boulders, player)
    ensures State(w, h, lv.buttons, floor, occupied, poses).Valid()
  {
    forall a | a in poses
      ensures 0 <= poses[a].gridX < w && 0 <= poses[a].gridY < h &&
        (poses[a].moving ==> 0 <= poses[a].gridX + poses[a].dx < w && 0 <= poses[a].gridY + poses[a].dy < h) &&
        (!poses[a].moving ==> poses[a].dx == 0 && poses[a].dy == 0)
    {
    }
    forall x, y | 0 <= x < |floor| && 0 <= y < |floor[x]| ensures Bound(lv.buttons, floor[x][y]) {
      assert Bound(lv.buttons, TileGlyph(lv.tiles, x, y));
    }
  }

  class Room {
    const width: nat
    const height: nat
    const buttons: map<nat, Button>
    /** `floor[x][y]`: the terrain glyph of a cell. */
    var floor: seq<seq<char>>
    /** `occupied[x][y]`: free, wall or an actor. */
    var occupied: seq<seq<Cell>>
    var boulders: seq<Actor>
    /** The actor of the last `^` glyph; `null` while there is none. */
    var player: Actor?
    /** Every actor the room has created. */
    ghost var actors: set<Actor>

    /** The room as a value. */
    ghost function Snapshot(): State
      reads this, actors
    {
      State(width, height, buttons, floor, occupied, PosesOf(actors))
    }

    ghost predicate Valid()
      reads this, actors
    {
      Snapshot().Valid() &&
      (player != null ==> player in actors) &&
      (forall b | b in boulders :: b in actors)
    }

    /** The grids and actors after the constructor's scan has handled every
        cell before column `x`, row `y`. */
    ghost predicate Scanned(lv: Level, x: int, y: int)
      reads this, actors
    {
      ScanState(lv.tiles, width, height, x, y, floor, occupied, PosesOf(actors), boulders, player)
    }

    /** The `Room` constructor: scan the level column by column, classify
        every glyph and create an actor for every `^` and `*`. */
    constructor (lv: Level)
      requires LevelOk(lv)
      ensures width == |lv.tiles[0]| && height == |lv.tiles| && buttons == lv.buttons
      ensures Valid() && fresh(actors)
      ensures GridScanned(lv.tiles, floor, occupied, width, height, width, 0)
      ensures AllResting(occupied, PosesOf(actors), width, height)
      ensures ListedAt(boulders, PosesOf(actors), ScanOrder(lv.tiles, width, 0, '*'))
      ensures LastAt(player, PosesOf(actors), ScanOrder(lv.tiles, width, 0, '^'))
    {
      width := |lv.tiles[0]|;
      height := |lv.tiles|;
      buttons := lv.buttons;
      floor := Blank(|lv.tiles[0]|, |lv.tiles|, ' ');
      occupied := Blank(|lv.tiles[0]|, |lv.tiles|, Free);
      boulders := [];
      player := null;
      actors := {};
      new;
      ScanStart(lv.tiles, width, height, floor, occupied);
      var x := 0;
      while x < width
        invariant 0 <= x <= width
        invariant Scanned(lv, x, 0)
        invariant fresh(actors)
      {
        var y := 0;
        while y < height
          invariant 0 <= y <= height && x < width
          invariant Scanned(lv, x, y)
          invariant fresh(actors)
        {
          ScanCell(lv, x, y);
          y := y + 1;
        }
        ScanNextColumn(lv.tiles, width, height, x, floor, occupied, PosesOf(actors), boulders, player);
        x := x + 1;
      }
      ScanValid(lv, width, height, floor, occupied, PosesOf(actors), boulders, player);
    }

    /** One step of the constructor's scan: cell (x, y). */
    method ScanCell(lv: Level, x: int, y: int)
      requires Scanned(lv, x, y) && 0 <= x < width && 0 <= y < height
      modifies this
      ensures Scanned(lv, x, y + 1)
      ensures forall a | a in actors :: a in old(actors) || fresh(a)
    {
      ghost var P := PosesOf(actors);
      var g := TileGlyph(lv.tiles, x, y);
      SetFloor(g, x, y);
      PosesOfFrame(actors);
      if g == '^' || g == '*' {
        var obj := Spawn(g, x, y);
        PutTwice(old(occupied), x, y, Free, Holds(obj));
        ScanStep(lv.tiles, width, height, x, y, old(floor), old(occupied), P, old(boulders), old(player),
                 Holds(obj), floor, occupied, PosesOf(actors), boulders, player);
      } else {
        ScanStep(lv.tiles, width, height, x, y, old(floor), old(occupied), P, old(boulders), old(player),
                 if g == '#' then Wall else Free, floor, occupied, PosesOf(actors), boulders, player);
      }
    }

    /** The constructor's handling of a `^` or `*` at (x, y): a new actor
        there, recorded in `occupied` and as the player or a boulder. */
    method Spawn(g: char, x: int, y: int) returns (obj: Actor)
      requires g == '^' || g == '*'
      requires GridShaped(occupied, width, height) && 0 <= x < width && 0 <= y < height
      modifies this
      ensures fresh(obj) && actors == old(actors) + {obj}
      ensures floor == old(floor) && occupied == Put(old(occupied), x, y, Holds(obj))
      ensures PosesOf(actors) == old(PosesOf(actors))[obj := Resting(x, y)]
      ensures obj !in old(PosesOf(actors))
      ensures boulders == if g == '*' then old(boulders) + [obj] else old(boulders)
      ensures player == if g == '^' then obj else old(player)
    {
      obj := new Actor(x, y);
      occupied := Put(occupied, x, y, Holds(obj));
      if g == '^' {
        player := obj;
      } else {
        boulders := boulders + [obj];
      }
      actors := actors + {obj};
      PosesOfAdd(old(actors), obj);
      PosesOfFrame(old(actors));
    }

    /** `object_at(x, y)`. */
    function ObjectAt(x: int, y: int): (c: Cell)
      reads this
      requires GridShaped(occupied, width, height)
      ensures !(0 <= x < width && 0 <= y < height) ==> c == Wall
      ensures 0 <= x < width && 0 <= y < height ==> c == occupied[x][y]
    {
      if x < 0 || y < 0 || x >= width || y >= height then Wall else occupied[x][y]
    }

    /** `set_floor(g, x, y)` without the painting. */
    method SetFloor(g: char, x: int, y: int)
      requires GridShaped(floor, width, height) && GridShaped(occupied, width, height)
      requires 0 <= x < width && 0 <= y < height
      modifies this
      ensures floor == Put(old(floor), x, y, Classify(g))
      ensures occupied == Put(old(occupied), x, y, if g == '#' then Wall else Free)
      ensures boulders == old(boulders) && player == old(player) && actors == old(actors)
    {
      occupied := Put(occupied, x, y, Free);
      var t := g;
      if g == '@' {
      } else if g == '#' {
        occupied := Put(occupied, x, y, Wall);
        assert old(occupied)[x][y := Free][y := Wall] == old(occupied)[x][y := Wall];
      } else if g == '~' {
      } else if IsDigit(g) {
      } else {
        t := ' ';
      }
      floor := Put(floor, x, y, t);
    }

    /** `move_to(obj, x, y)`: commit `obj` into cell (x, y), apply the ice
        rule and the button under it, then free the old cell unless another
        actor already stands in it. */
    method MoveTo(obj: Actor, x: int, y: int)
      requires Valid() && obj in actors && 0 <= x < width && 0 <= y < height
      modifies this, obj
      ensures Valid()
      ensures Snapshot() == MoveSpec(old(Snapshot()), obj, x, y)
      ensures boulders == old(boulders) && player == old(player) && actors == old(actors)
    {
      ghost var s0 := Snapshot();
      var oldX, oldY := obj.gridX, obj.gridY;
      Place(obj, x, y);
      ghost var s1 := RoomState.Place(s0, obj, x, y);
      SettleHomed(s0, obj, x, y);
      SettleOn(obj, x, y);
      ghost var s2 := Settle(s1, obj, s0.floor[x][y]);
      assert Snapshot() == s2;
      Vacate(oldX, oldY);
      assert Snapshot() == RoomState.Vacate(s2, oldX, oldY);
      assert Snapshot() == MoveSpec(s0, obj, x, y);
      assert Snapshot().Valid();
    }

    /** The first step of `move_to`. */
    method Place(obj: Actor, x: int, y: int)
      requires Snapshot().Shaped() && obj in actors && 0 <= x < width && 0 <= y < height
      modifies this, obj
      ensures Snapshot() == RoomState.Place(old(Snapshot()), obj, x, y)
      ensures boulders == old(boulders) && player == old(player) && actors == old(actors)
    {
      obj.gridX, obj.gridY := x, y;
      obj.xOff, obj.yOff := 0, 0;
      occupied := Put(occupied, x, y, Holds(obj));
      assert PosesOf(actors) == old(PosesOf(actors))[obj := obj.CurrentPose()];
    }

    /** The second step of `move_to`, for `obj` just placed at (x, y). */
    method SettleOn(obj: Actor, x: int, y: int)
      requires Snapshot().Shaped() && ButtonsOk(width, height, buttons) && FloorOk(buttons, floor)
      requires obj in actors && obj.gridX == x && obj.gridY == y && 0 <= x < width && 0 <= y < height
      modifies this, obj
      ensures Snapshot() == Settle(old(Snapshot()), obj, old(floor[x][y]))
      ensures boulders == old(boulders) && player == old(player) && actors == old(actors)
    {
      var t := floor[x][y];
      assert Bound(buttons, t);
      var ahead := ObjectAt(x + obj.dx, y + obj.dy);
      if t != '~' || ahead != Free {
        obj.dx, obj.dy, obj.moving := 0, 0, false;
        PosesOfSplit(old(actors), obj);
        PosesOfFrame(actors - {obj});
        PosesOfSplit(actors, obj);
        ghost var stopped := Snapshot();
        if IsDigit(t) {
          var b := buttons[ButtonId(t)];
          label BeforePress:
          SetFloor(b.on, b.targetX, b.targetY);
          PosesOfFrame@BeforePress(actors);
          assert Snapshot() == Press(stopped, ButtonId(t));
        }
      }
    }

    /** The third step of `move_to`: the guarded release of the old cell. */
    method Vacate(x: int, y: int)
      requires Snapshot().Shaped() && ButtonsOk(width, height, buttons) && FloorOk(buttons, floor)
      requires 0 <= x < width && 0 <= y < height
      requires occupied[x][y].Holds? ==> occupied[x][y].actor in actors
      modifies this
      ensures Snapshot() == RoomState.Vacate(old(Snapshot()), x, y)
      ensures boulders == old(boulders) && player == old(player) && actors == old(actors)
    {
      var c := ObjectAt(x, y);
      if c.Holds? {
        if c.actor.gridX != x || c.actor.gridY != y {
          occupied := Put(occupied, x, y, Free);
          PosesOfFrame(actors);
          ghost var freed := Snapshot();
          var t := floor[x][y];
          if IsDigit(t) {
            var b := buttons[ButtonId(t)];
            label BeforeRelease:
            SetFloor(b.off, b.targetX, b.targetY);
            PosesOfFrame@BeforeRelease(actors);
            assert Snapshot() == Release(freed, ButtonId(t));
          }
        }
      }
    }
  }
}
