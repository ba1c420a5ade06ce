/** The room of picopix-puzzle.js seen as a value: the terrain glyph of every
    cell (`floor`), what occupies every cell (`occupied`) and the fields of
    every actor. The functions here say what `set_floor` and the three steps
    of `move_to` do to such a value; the `Room` class is proved to follow
    them. Columns come first, as in the source: `floor[x][y]`. */
module RoomState {

  /** Width and height of a tile in pixels (`tile_size`). */
  const TileSize: int := 16

  /** A button binding of the level file: the glyphs written to the target
      cell when the button is pressed and released. */
  datatype Button = Button(on: char, off: char, targetX: int, targetY: int)

  /** One level record: rows of glyphs and the buttons indexed by digit. */
  datatype Level = Level(tiles: seq<string>, buttons: map<nat, Button>)

  predicate IsDigit(c: char)
  {
    '0' <= c <= '9'
  }

  /** `parseInt` of a one-digit glyph. */
  function ButtonId(c: char): (id: nat)
    requires IsDigit(c)
    ensures id < 10
  {
    c as int - '0' as int
  }

  /** The glyphs `set_floor` keeps: exit, wall, ice and button digits. */
  predicate IsTerrain(g: char)
  {
    g == '@' || g == '#' || g == '~' || IsDigit(g)
  }

  /** The floor glyph `set_floor` stores for glyph `g`. */
  function Classify(g: char): (t: char)
    ensures IsTerrain(g) ==> t == g
    ensures !IsTerrain(g) ==> t == ' '
  {
    if IsTerrain(g) then g else ' '
  }

  /** A button digit always names a binding of the room. */
  predicate Bound(buttons: map<nat, Button>, g: char)
  {
    IsDigit(g) ==> ButtonId(g) in buttons
  }

  /** `contents.tiles[y].charAt(x)`. Past the end of a short row `charAt`
      yields the empty string, which `set_floor` treats exactly like ' ' and
      which is neither the player nor a boulder glyph; ' ' stands for it. */
  function TileGlyph(tiles: seq<string>, x: nat, y: nat): char
    requires y < |tiles|
  {
    if x < |tiles[y]| then tiles[y][x] else ' '
  }

  /** What the level data must satisfy for the source not to fail: a first
      row to take the width from, every button digit of the grid and of the
      button glyphs bound, and every button target inside the grid. */
  ghost predicate LevelOk(lv: Level)
  {
    |lv.tiles| > 0 &&
    (forall id | id in lv.buttons ::
       0 <= lv.buttons[id].targetX < |lv.tiles[0]| &&
       0 <= lv.buttons[id].targetY < |lv.tiles| &&
       Bound(lv.buttons, lv.buttons[id].on) && Bound(lv.buttons, lv.buttons[id].off)) &&
    (forall x: nat, y: nat | x < |lv.tiles[0]| && y < |lv.tiles| ::
       Bound(lv.buttons, TileGlyph(lv.tiles, x, y)))
  }

  /** The fields of an `Actor`. The offsets count pixels. */
  datatype Pose = Pose(gridX: int, gridY: int, xOff: int, yOff: int,
                       dx: int, dy: int, moving: bool)

  /** The pose of a freshly created actor standing at (x, y). */
  function Resting(x: int, y: int): Pose
  {
    Pose(x, y, 0, 0, 0, 0, false)
  }

  /** A player or a boulder (`Actor` in picopix-puzzle.js). */
  class Actor {
    var gridX: int
    var gridY: int
    var xOff: int
    var yOff: int
    var dx: int
    var dy: int
    var moving: bool

    constructor (x: int, y: int)
      ensures CurrentPose() == Resting(x, y)
    {
      gridX, gridY := x, y;
      xOff, yOff := 0, 0;
      dx, dy, moving := 0, 0, false;
    }

    function CurrentPose(): Pose
      reads this
    {
      Pose(gridX, gridY, xOff, yOff, dx, dy, moving)
    }
  }

  /** An entry of `occupied`: `false`, `true` (wall) or an actor. */
  datatype Cell = Free | Wall | Holds(actor: Actor)

  /** Grid `g` with cell (x, y) replaced by `v`. */
  function Put<T>(g: seq<seq<T>>, x: int, y: int, v: T): (r: seq<seq<T>>)
    requires 0 <= x < |g| && 0 <= y < |g[x]|
    ensures |r| == |g| && forall i :: 0 <= i < |g| ==> |r[i]| == |g[i]|
    ensures r[x][y] == v
    ensures forall i, j :: 0 <= i < |g| && 0 <= j < |g[i]| && (i != x || j != y) ==> r[i][j] == g[i][j]
  {
    g[x := g[x][y := v]]
  }

  /** `g` has `w` columns of `h` cells each. */
  predicate GridShaped<T>(g: seq<seq<T>>, w: int, h: int)
  {
    |g| == w && forall x :: 0 <= x < w ==> |g[x]| == h
  }

  /** Every button has its target inside a `w` by `h` grid and its two
      glyphs bound. */
  ghost predicate ButtonsOk(w: int, h: int, buttons: map<nat, Button>)
  {
    forall id | id in buttons ::
      0 <= buttons[id].targetX < w && 0 <= buttons[id].targetY < h &&
      Bound(buttons, buttons[id].on) && Bound(buttons, buttons[id].off)
  }

  /** Every button digit on the floor is bound. */
  ghost predicate FloorOk(buttons: map<nat, Button>, floor: seq<seq<char>>)
  {
    forall x, y | 0 <= x < |floor| && 0 <= y < |floor[x]| :: Bound(buttons, floor[x][y])
  }

  /** Every actor recorded in a cell is one of the room's actors and has
      that cell as its grid position. */
  ghost predicate Homed(occupied: seq<seq<Cell>>, poses: map<Actor, Pose>)
  {
    forall x, y | 0 <= x < |occupied| && 0 <= y < |occupied[x]| && occupied[x][y].Holds? ::
      occupied[x][y].actor in poses &&
      poses[occupied[x][y].actor].gridX == x && poses[occupied[x][y].actor].gridY == y
  }

  /** As `Homed`, except that the cell (ox, oy) may still name `a` after
      `a` has left it. */
  ghost predicate HomedBut(occupied: seq<seq<Cell>>, poses: map<Actor, Pose>, a: Actor, ox: int, oy: int)
  {
    forall x, y | 0 <= x < |occupied| && 0 <= y < |occupied[x]| && occupied[x][y].Holds? ::
      occupied[x][y].actor in poses &&
      ((poses[occupied[x][y].actor].gridX == x && poses[occupied[x][y].actor].gridY == y) ||
       (occupied[x][y].actor == a && x == ox && y == oy))
  }

  /** Every actor recorded in `r` is recorded in the same cell of `s`:
      `r` arises from `s` by clearing or walling cells only. */
  ghost predicate Kept(r: seq<seq<Cell>>, s: seq<seq<Cell>>)
  {
    forall x, y | 0 <= x < |r| && 0 <= y < |r[x]| && r[x][y].Holds? ::
      x < |s| && y < |s[x]| && s[x][y] == r[x][y]
  }

  /** Every actor stands inside the grid; a moving actor heads for a cell
      inside the grid and a resting one has no direction. */
  ghost predicate PosesOk(w: int, h: int, poses: map<Actor, Pose>)
  {
    forall a | a in poses ::
      0 <= poses[a].gridX < w && 0 <= poses[a].gridY < h &&
      (poses[a].moving ==>
         0 <= poses[a].gridX + poses[a].dx < w && 0 <= poses[a].gridY + poses[a].dy < h) &&
      (!poses[a].moving ==> poses[a].dx == 0 && poses[a].dy == 0)
  }

  datatype State = State(width: nat, height: nat, buttons: map<nat, Button>,
                         floor: seq<seq<char>>, occupied: seq<seq<Cell>>,
                         poses: map<Actor, Pose>)
  {
    predicate InBounds(x: int, y: int)
    {
      0 <= x < width && 0 <= y < height
    }

    predicate Shaped()
    {
      GridShaped(floor, width, height) && GridShaped(occupied, width, height)
    }

    /** `object_at`: everything off the grid is wall. */
    function At(x: int, y: int): Cell
      requires Shaped()
    {
      if InBounds(x, y) then occupied[x][y] else Wall
    }

    ghost predicate Valid()
    {
      Shaped() && ButtonsOk(width, height, buttons) && FloorOk(buttons, floor) &&
      Homed(occupied, poses) && PosesOk(width, height, poses)
    }
  }

  /** `set_floor(g, x, y)` without the painting. */
  function Paint(s: State, g: char, x: int, y: int): (r: State)
    requires s.Shaped() && s.InBounds(x, y)
    ensures r.Shaped()
    ensures r.width == s.width && r.height == s.height && r.buttons == s.buttons && r.poses == s.poses
    ensures r.occupied[x][y] == Wall <==> g == '#'
    ensures r.occupied[x][y] != Wall ==> r.occupied[x][y] == Free
    ensures r.floor[x][y] == g <==> IsTerrain(g) || g == ' '
    ensures r.floor[x][y] != g ==> r.floor[x][y] == ' '
    ensures forall i, j | r.InBounds(i, j) && (i != x || j != y) ::
      r.floor[i][j] == s.floor[i][j] && r.occupied[i][j] == s.occupied[i][j]
    ensures Kept(r.occupied, s.occupied)
    ensures FloorOk(s.buttons, s.floor) && Bound(s.buttons, g) ==> FloorOk(r.buttons, r.floor)
  {
    s.(floor := Put(s.floor, x, y, Classify(g)),
       occupied := Put(s.occupied, x, y, if g == '#' then Wall else Free))
  }

  /** A button press: its `on` glyph painted at its target. */
  function Press(s: State, id: nat): (r: State)
    requires s.Shaped() && ButtonsOk(s.width, s.height, s.buttons) && id in s.buttons
    ensures r.Shaped()
    ensures r.width == s.width && r.height == s.height && r.buttons == s.buttons && r.poses == s.poses
    ensures Kept(r.occupied, s.occupied)
    ensures FloorOk(s.buttons, s.floor) ==> FloorOk(r.buttons, r.floor)
  {
    Paint(s, s.buttons[id].on, s.buttons[id].targetX, s.buttons[id].targetY)
  }

  /** A button release: its `off` glyph painted at its target. */
  function Release(s: State, id: nat): (r: State)
    requires s.Shaped() && ButtonsOk(s.width, s.height, s.buttons) && id in s.buttons
    ensures r.Shaped()
    ensures r.width == s.width && r.height == s.height && r.buttons == s.buttons && r.poses == s.poses
    ensures Kept(r.occupied, s.occupied)
    ensures FloorOk(s.buttons, s.floor) ==> FloorOk(r.buttons, r.floor)
  {
    Paint(s, s.buttons[id].off, s.buttons[id].targetX, s.buttons[id].targetY)
  }

  /** First step of `move_to`: the actor takes the grid position (x, y) with
      no offset and `occupied[x][y]` refers to it. */
  function Place(s: State, a: Actor, x: int, y: int): (r: State)
    requires s.Shaped() && a in s.poses && s.InBounds(x, y)
    ensures r.Shaped()
    ensures r.width == s.width && r.height == s.height && r.buttons == s.buttons && r.floor == s.floor
    ensures r.occupied == Put(s.occupied, x, y, Holds(a))
    ensures r.poses == s.poses[a := s.poses[a].(gridX := x, gridY := y, xOff := 0, yOff := 0)]
  {
    s.(occupied := Put(s.occupied, x, y, Holds(a)),
       poses := s.poses[a := s.poses[a].(gridX := x, gridY := y, xOff := 0, yOff := 0)])
  }

  /** Whether an actor that has just been placed goes on sliding: its floor
      glyph `t` is ice and the next cell in its direction is free. */
  predicate Slides(s: State, a: Actor, t: char)
    requires s.Shaped() && a in s.poses
  {
    t == '~' && s.At(s.poses[a].gridX + s.poses[a].dx, s.poses[a].gridY + s.poses[a].dy) == Free
  }

  /** The pose `p` brought to a stop. */
  function Stopped(p: Pose): Pose
  {
    p.(dx := 0, dy := 0, moving := false)
  }

  /** Second step of `move_to`: on the floor glyph `t` the actor either goes
      on sliding, or stops and presses the button `t` names. */
  function Settle(s: State, a: Actor, t: char): (r: State)
    requires s.Shaped() && ButtonsOk(s.width, s.height, s.buttons) && a in s.poses && Bound(s.buttons, t)
    ensures r.Shaped()
    ensures r.width == s.width && r.height == s.height && r.buttons == s.buttons
    ensures r.poses == if Slides(s, a, t) then s.poses else s.poses[a := Stopped(s.poses[a])]
    ensures !IsDigit(t) || Slides(s, a, t) ==> r.floor == s.floor && r.occupied == s.occupied
    ensures Kept(r.occupied, s.occupied)
    ensures FloorOk(s.buttons, s.floor) ==> FloorOk(r.buttons, r.floor)
  {
    if Slides(s, a, t) then s
    else if IsDigit(t) then Press(s.(poses := s.poses[a := Stopped(s.poses[a])]), ButtonId(t))
    else s.(poses := s.poses[a := Stopped(s.poses[a])])
  }

  /** Third step of `move_to`: the old cell (x, y) is freed, and a button
      there released, only when the actor recorded in it has a different
      grid position, that is, when it is the actor that has just left. */
  function Vacate(s: State, x: int, y: int): (r: State)
    requires s.Shaped() && ButtonsOk(s.width, s.height, s.buttons) && FloorOk(s.buttons, s.floor)
    requires s.InBounds(x, y) && (s.occupied[x][y].Holds? ==> s.occupied[x][y].actor in s.poses)
    ensures r.Shaped()
    ensures r.width == s.width && r.height == s.height && r.buttons == s.buttons && r.poses == s.poses
    ensures Kept(r.occupied, s.occupied)
    ensures FloorOk(r.buttons, r.floor)
    ensures r.occupied[x][y].Holds? ==>
      s.poses[r.occupied[x][y].actor].gridX == x && s.poses[r.occupied[x][y].actor].gridY == y
  {
    if s.At(x, y).Holds? &&
       (s.poses[s.At(x, y).actor].gridX != x || s.poses[s.At(x, y).actor].gridY != y) then
      if IsDigit(s.floor[x][y])
      then Release(s.(occupied := Put(s.occupied, x, y, Free)), ButtonId(s.floor[x][y]))
      else s.(occupied := Put(s.occupied, x, y, Free))
    else s
  }

  lemma {:induction false} KeptHomedBut(r: seq<seq<Cell>>, s: seq<seq<Cell>>, poses: map<Actor, Pose>,
                                        a: Actor, ox: int, oy: int)
    requires Kept(r, s) && HomedBut(s, poses, a, ox, oy)
    ensures HomedBut(r, poses, a, ox, oy)
  {
    forall x, y | 0 <= x < |r| && 0 <= y < |r[x]| && r[x][y].Holds?
      ensures r[x][y].actor in poses &&
        ((poses[r[x][y].actor].gridX == x && poses[r[x][y].actor].gridY == y) ||
         (r[x][y].actor == a && x == ox && y == oy))
    {
      assert s[x][y] == r[x][y];
    }
  }

  /** Placing `a` at (x, y) leaves every actor at home except `a` in the
      cell it came from. */
  lemma PlaceHomed(s: State, a: Actor, x: int, y: int)
    requires s.Valid() && a in s.poses && s.InBounds(x, y)
    ensures var s1 := Place(s, a, x, y);
      HomedBut(s1.occupied, s1.poses, a, s.poses[a].gridX, s.poses[a].gridY)
  {
    var s1 := Place(s, a, x, y);
    forall i, j | 0 <= i < |s1.occupied| && 0 <= j < |s1.occupied[i]| && s1.occupied[i][j].Holds?
      ensures s1.occupied[i][j].actor in s1.poses &&
        ((s1.poses[s1.occupied[i][j].actor].gridX == i && s1.poses[s1.occupied[i][j].actor].gridY == j) ||
         (s1.occupied[i][j].actor == a && i == s.poses[a].gridX && j == s.poses[a].gridY))
    {
      if i != x || j != y {
        assert s1.occupied[i][j] == s.occupied[i][j];
      }
    }
  }

  /** Stopping `a` changes no grid position. */
  lemma StopHomed(occupied: seq<seq<Cell>>, poses: map<Actor, Pose>, a: Actor, ox: int, oy: int)
    requires a in poses && HomedBut(occupied, poses, a, ox, oy)
    ensures HomedBut(occupied, poses[a := Stopped(poses[a])], a, ox, oy)
  {
    var q := poses[a := Stopped(poses[a])];
    forall x, y | 0 <= x < |occupied| && 0 <= y < |occupied[x]| && occupied[x][y].Holds?
      ensures occupied[x][y].actor in q &&
        ((q[occupied[x][y].actor].gridX == x && q[occupied[x][y].actor].gridY == y) ||
         (occupied[x][y].actor == a && x == ox && y == oy))
    {
    }
  }

  /** Vacating the cell `a` left restores `Homed`. */
  lemma VacateHomed(s: State, a: Actor, ox: int, oy: int)
    requires s.Shaped() && ButtonsOk(s.width, s.height, s.buttons) && FloorOk(s.buttons, s.floor)
    requires s.InBounds(ox, oy) && HomedBut(s.occupied, s.poses, a, ox, oy)
    ensures Homed(Vacate(s, ox, oy).occupied, s.poses)
  {
    var r := Vacate(s, ox, oy);
    forall x, y | 0 <= x < |r.occupied| && 0 <= y < |r.occupied[x]| && r.occupied[x][y].Holds?
      ensures r.occupied[x][y].actor in s.poses &&
        s.poses[r.occupied[x][y].actor].gridX == x && s.poses[r.occupied[x][y].actor].gridY == y
    {
      assert s.occupied[x][y] == r.occupied[x][y];
    }
  }

  /** After placing and settling, every pose is in order again. */
  lemma SettlePoses(s: State, a: Actor, x: int, y: int)
    requires s.Valid() && a in s.poses && s.InBounds(x, y)
    ensures var s1 := Place(s, a, x, y);
      PosesOk(s.width, s.height, Settle(s1, a, s.floor[x][y]).poses)
  {
    var s1 := Place(s, a, x, y);
    var q := Settle(s1, a, s.floor[x][y]).poses;
    forall b | b in q
      ensures 0 <= q[b].gridX < s.width && 0 <= q[b].gridY < s.height &&
        (q[b].moving ==> 0 <= q[b].gridX + q[b].dx < s.width && 0 <= q[b].gridY + q[b].dy < s.height) &&
        (!q[b].moving ==> q[b].dx == 0 && q[b].dy == 0)
    {
      if b != a {
        assert q[b] == s.poses[b];
      }
    }
  }

  /** The first two steps of `move_to` leave every actor at home except
      `a` in the cell it came from. */
  lemma SettleHomed(s: State, a: Actor, x: int, y: int)
    requires s.Valid() && a in s.poses && s.InBounds(x, y)
    ensures Bound(s.buttons, s.floor[x][y])
    ensures var s2 := Settle(Place(s, a, x, y), a, s.floor[x][y]);
      HomedBut(s2.occupied, s2.poses, a, s.poses[a].gridX, s.poses[a].gridY)
  {
    var s1 := Place(s, a, x, y);
    var s2 := Settle(s1, a, s.floor[x][y]);
    PlaceHomed(s, a, x, y);
    if !Slides(s1, a, s.floor[x][y]) {
      StopHomed(s1.occupied, s1.poses, a, s.poses[a].gridX, s.poses[a].gridY);
    }
    KeptHomedBut(s2.occupied, s1.occupied, s2.poses, a, s.poses[a].gridX, s.poses[a].gridY);
  }

  /** `move_to(a, x, y)`: place, settle, vacate. */
  function MoveSpec(s: State, a: Actor, x: int, y: int): (r: State)
    requires s.Valid() && a in s.poses && s.InBounds(x, y)
    ensures r.Valid()
    ensures r.width == s.width && r.height == s.height && r.buttons == s.buttons
    ensures r.poses.Keys == s.poses.Keys
    ensures r.poses == s.poses[a := r.poses[a]]
    ensures r.poses[a].gridX == x && r.poses[a].gridY == y && r.poses[a].xOff == 0 && r.poses[a].yOff == 0
  {
    SettleHomed(s, a, x, y);
    SettlePoses(s, a, x, y);
    VacateHomed(Settle(Place(s, a, x, y), a, s.floor[x][y]), a, s.poses[a].gridX, s.poses[a].gridY);
    Vacate(Settle(Place(s, a, x, y), a, s.floor[x][y]), s.poses[a].gridX, s.poses[a].gridY)
  }
}
