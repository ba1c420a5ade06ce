/** What the room model promises beyond the contracts of its members: the
    order and completeness of the constructor's scan, and what one
    `move_to` does to the cells it touches (the ice rule, button presses
    and releases, and the guard on the vacated cell). */
module RoomFacts {
  import opened RoomState
  import opened PuzzleRoom

  /** Cell (i, j) comes before column x, row y in a column-major scan. */
  predicate Before(i: int, j: int, x: int, y: int)
  {
    i < x || (i == x && j < y)
  }

  /** Every listed cell lies inside the grid, carries glyph `g` and has
      already been scanned. */
  lemma {:induction false} ScanOrderSound(tiles: seq<string>, x: nat, y: nat, g: char)
    requires y <= |tiles|
    ensures forall c | c in ScanOrder(tiles, x, y, g) ::
      c.1 < |tiles| && TileGlyph(tiles, c.0, c.1) == g && Before(c.0, c.1, x, y)
    decreases x, y
  {
    if y == 0 {
      if x > 0 {
        ScanOrderSound(tiles, x - 1, |tiles|, g);
      }
    } else {
      ScanOrderSound(tiles, x, y - 1, g);
    }
  }

  /** Every scanned cell with glyph `g` is listed. */
  lemma {:induction false} ScanOrderComplete(tiles: seq<string>, x: nat, y: nat, g: char, i: nat, j: nat)
    requires y <= |tiles| && j < |tiles| && Before(i, j, x, y) && TileGlyph(tiles, i, j) == g
    ensures (i, j) in ScanOrder(tiles, x, y, g)
    decreases x, y
  {
    if y == 0 {
      ScanOrderComplete(tiles, x - 1, |tiles|, g, i, j);
    } else if (i, j) != (x, y - 1) {
      ScanOrderComplete(tiles, x, y - 1, g, i, j);
    }
  }

  /** The cells of `c` are strictly increasing in column-major order. */
  predicate ColumnMajor(c: seq<(nat, nat)>)
  {
    forall k, l | 0 <= k < l < |c| :: Before(c[k].0, c[k].1, c[l].0, c[l].1)
  }

  /** The list is strictly increasing in column-major order. */
  lemma {:induction false} ScanOrderSorted(tiles: seq<string>, x: nat, y: nat, g: char)
    requires y <= |tiles|
    ensures ColumnMajor(ScanOrder(tiles, x, y, g))
    decreases x, y
  {
    if y == 0 {
      if x > 0 {
        ScanOrderSorted(tiles, x - 1, |tiles|, g);
        assert ScanOrder(tiles, x, y, g) == ScanOrder(tiles, x - 1, |tiles|, g);
      }
    } else {
      ScanOrderSorted(tiles, x, y - 1, g);
      ScanOrderSound(tiles, x, y - 1, g);
      var prev := ScanOrder(tiles, x, y - 1, g);
      var c := ScanOrder(tiles, x, y, g);
      assert c == prev + (if TileGlyph(tiles, x, y - 1) == g then [(x, y - 1)] else []);
      forall k, l | 0 <= k < l < |c| ensures Before(c[k].0, c[k].1, c[l].0, c[l].1) {
        assert c[k] == prev[k] && prev[k] in prev;
        if l < |prev| {
          assert c[l] == prev[l];
        } else {
          assert c[l] == (x, y - 1);
          assert Before(prev[k].0, prev[k].1, x, y - 1);
        }
      }
    }
  }

  /** A full scan lists something exactly when some cell has glyph `g`;
      in particular the constructor finds a player exactly when the level
      has a `^`. */
  lemma ScanFinds(tiles: seq<string>, w: nat, g: char)
    requires |tiles| > 0
    ensures ScanOrder(tiles, w, 0, g) != [] <==>
      exists i, j | 0 <= i < w && 0 <= j < |tiles| :: TileGlyph(tiles, i, j) == g
  {
    ScanOrderSound(tiles, w, 0, g);
    var c := ScanOrder(tiles, w, 0, g);
    if c != [] {
      assert c[0] in c;
      assert TileGlyph(tiles, c[0].0, c[0].1) == g;
    }
    if exists i, j | 0 <= i < w && 0 <= j < |tiles| :: TileGlyph(tiles, i, j) == g {
      var i, j :| 0 <= i < w && 0 <= j < |tiles| && TileGlyph(tiles, i, j) == g;
      ScanOrderComplete(tiles, w, 0, g, i, j);
    }
  }

  /** After the constructor: the boulders are exactly the `*` cells, each
      listed once, in column-major order. */
  lemma BouldersInScanOrder(tiles: seq<string>, w: nat, boulders: seq<Actor>, poses: map<Actor, Pose>)
    requires |tiles| > 0 && ListedAt(boulders, poses, ScanOrder(tiles, w, 0, '*'))
    ensures forall k | 0 <= k < |boulders| ::
      boulders[k] in poses && 0 <= poses[boulders[k]].gridX < w &&
      0 <= poses[boulders[k]].gridY < |tiles| &&
      TileGlyph(tiles, poses[boulders[k]].gridX, poses[boulders[k]].gridY) == '*'
    ensures forall k, l | 0 <= k < l < |boulders| ::
      Before(poses[boulders[k]].gridX, poses[boulders[k]].gridY,
             poses[boulders[l]].gridX, poses[boulders[l]].gridY)
    ensures forall i: nat, j: nat | i < w && j < |tiles| && TileGlyph(tiles, i, j) == '*' ::
      exists k | 0 <= k < |boulders| :: poses[boulders[k]].gridX == i && poses[boulders[k]].gridY == j
  {
    var c := ScanOrder(tiles, w, 0, '*');
    ScanOrderSound(tiles, w, 0, '*');
    ScanOrderSorted(tiles, w, 0, '*');
    forall k | 0 <= k < |boulders|
      ensures boulders[k] in poses && 0 <= poses[boulders[k]].gridX < w &&
        0 <= poses[boulders[k]].gridY < |tiles| &&
        TileGlyph(tiles, poses[boulders[k]].gridX, poses[boulders[k]].gridY) == '*'
    {
      assert c[k] in c;
    }
    forall i: nat, j: nat | i < w && j < |tiles| && TileGlyph(tiles, i, j) == '*'
      ensures exists k | 0 <= k < |boulders| :: poses[boulders[k]].gridX == i && poses[boulders[k]].gridY == j
    {
      ScanOrderComplete(tiles, w, 0, '*', i, j);
      var k :| 0 <= k < |c| && c[k] == (i, j);
      assert poses[boulders[k]].gridX == i && poses[boulders[k]].gridY == j;
    }
  }

  /** After the constructor every actor stands on plain floor, on a cell
      whose glyph was `^` or `*`, and every wall cell is a `#`. */
  lemma FloorUnderActors(tiles: seq<string>, floor: seq<seq<char>>, occupied: seq<seq<Cell>>, w: nat)
    requires GridShaped(floor, w, |tiles|) && GridShaped(occupied, w, |tiles|)
    requires GridScanned(tiles, floor, occupied, w, |tiles|, w, 0)
    ensures forall i, j | 0 <= i < w && 0 <= j < |tiles| && occupied[i][j].Holds? ::
      floor[i][j] == ' ' && TileGlyph(tiles, i, j) in {'^', '*'}
    ensures forall i, j | 0 <= i < w && 0 <= j < |tiles| ::
      occupied[i][j] == Wall <==> floor[i][j] == '#'
  {
  }

  /** No button of the room rewrites cell (x, y). */
  ghost predicate Untargeted(buttons: map<nat, Button>, x: int, y: int)
  {
    forall id | id in buttons :: buttons[id].targetX != x || buttons[id].targetY != y
  }

  /** The ice rule of `move_to`: the actor keeps its direction exactly when
      the floor of its new cell is ice and the next cell in its direction is
      free; otherwise it stops. Either way it stands at (x, y) with no
      offset. */
  lemma IceRule(s: State, a: Actor, x: int, y: int)
    requires s.Valid() && a in s.poses && s.InBounds(x, y)
    ensures var p := s.poses[a];
      var slides := s.floor[x][y] == '~' && (p.dx != 0 || p.dy != 0) && s.At(x + p.dx, y + p.dy) == Free;
      MoveSpec(s, a, x, y).poses[a] ==
        if slides then Pose(x, y, 0, 0, p.dx, p.dy, true) else Pose(x, y, 0, 0, 0, 0, false)
  {
    var s1 := Place(s, a, x, y);
    SettleHomed(s, a, x, y);
    var s2 := Settle(s1, a, s.floor[x][y]);
    VacateHomed(s2, a, s.poses[a].gridX, s.poses[a].gridY);
    assert MoveSpec(s, a, x, y).poses == s2.poses;
  }

  /** Stopping on button tile `t` writes the button's `on` glyph at its
      target, as `set_floor` does, and changes no other cell. */
  lemma StopPresses(s: State, a: Actor, t: char)
    requires s.Shaped() && ButtonsOk(s.width, s.height, s.buttons) && a in s.poses && Bound(s.buttons, t)
    requires IsDigit(t) && !Slides(s, a, t)
    ensures var b := s.buttons[ButtonId(t)];
      var r := Settle(s, a, t);
      r.floor[b.targetX][b.targetY] == Classify(b.on) &&
      r.occupied[b.targetX][b.targetY] == (if b.on == '#' then Wall else Free) &&
      forall i, j | s.InBounds(i, j) && (i != b.targetX || j != b.targetY) ::
        r.floor[i][j] == s.floor[i][j] && r.occupied[i][j] == s.occupied[i][j]
  {
  }

  /** Freeing a cell whose floor is button tile `t` writes the button's
      `off` glyph at its target; the freed cell refers to no actor. */
  lemma LeaveReleases(s: State, x: int, y: int)
    requires s.Shaped() && ButtonsOk(s.width, s.height, s.buttons) && FloorOk(s.buttons, s.floor)
    requires s.InBounds(x, y) && s.occupied[x][y].Holds? && s.occupied[x][y].actor in s.poses
    requires s.poses[s.occupied[x][y].actor].gridX != x || s.poses[s.occupied[x][y].actor].gridY != y
    ensures !Vacate(s, x, y).occupied[x][y].Holds?
    ensures IsDigit(s.floor[x][y]) ==>
      var b := s.buttons[ButtonId(s.floor[x][y])];
      Vacate(s, x, y).floor[b.targetX][b.targetY] == Classify(b.off)
    ensures !IsDigit(s.floor[x][y]) ==>
      Vacate(s, x, y) == s.(occupied := Put(s.occupied, x, y, Free))
  {
  }

  /** The guard of `move_to`: a cell whose occupant still stands in it,
      or which refers to no actor, is left exactly as it is. */
  lemma GuardKeeps(s: State, x: int, y: int)
    requires s.Shaped() && ButtonsOk(s.width, s.height, s.buttons) && FloorOk(s.buttons, s.floor)
    requires s.InBounds(x, y) && (s.occupied[x][y].Holds? ==> s.occupied[x][y].actor in s.poses)
    requires s.occupied[x][y].Holds? ==>
      s.poses[s.occupied[x][y].actor].gridX == x && s.poses[s.occupied[x][y].actor].gridY == y
    ensures Vacate(s, x, y) == s
  {
  }

  /** `move_to` records the actor in its new cell unless a button it
      presses or releases rewrites that cell. */
  lemma MoveRecords(s: State, a: Actor, x: int, y: int)
    requires s.Valid() && a in s.poses && s.InBounds(x, y) && Untargeted(s.buttons, x, y)
    ensures MoveSpec(s, a, x, y).occupied[x][y] == Holds(a)
  {
    var s1 := Place(s, a, x, y);
    SettleHomed(s, a, x, y);
    var s2 := Settle(s1, a, s.floor[x][y]);
    var ox, oy := s.poses[a].gridX, s.poses[a].gridY;
    VacateHomed(s2, a, ox, oy);
    if ox == x && oy == y {
      GuardKeeps(s2, ox, oy);
    }
  }

  /** `move_to` frees the cell the actor left when the actor was still
      recorded there, even when a button pressed on arrival targets it. */
  lemma MoveFreesOldCell(s: State, a: Actor, x: int, y: int)
    requires s.Valid() && a in s.poses && s.InBounds(x, y)
    requires (x, y) != (s.poses[a].gridX, s.poses[a].gridY)
    requires s.occupied[s.poses[a].gridX][s.poses[a].gridY] == Holds(a)
    ensures !MoveSpec(s, a, x, y).occupied[s.poses[a].gridX][s.poses[a].gridY].Holds?
  {
    var s1 := Place(s, a, x, y);
    SettleHomed(s, a, x, y);
    var s2 := Settle(s1, a, s.floor[x][y]);
    var ox, oy := s.poses[a].gridX, s.poses[a].gridY;
    VacateHomed(s2, a, ox, oy);
    if s2.occupied[ox][oy] == Holds(a) {
      LeaveReleases(s2, ox, oy);
    } else {
      // a button pressed on arrival repainted the old cell
      assert s1.occupied[ox][oy] == Holds(a);
      GuardKeeps(s2, ox, oy);
    }
  }

  /** `move_to` keeps another actor that already stands in the cell the
      moving actor left. */
  lemma MoveKeepsNewcomer(s: State, a: Actor, x: int, y: int, c: Actor)
    requires s.Valid() && a in s.poses && s.InBounds(x, y)
    requires (x, y) != (s.poses[a].gridX, s.poses[a].gridY)
    requires s.occupied[s.poses[a].gridX][s.poses[a].gridY] == Holds(c) && c != a
    requires Untargeted(s.buttons, s.poses[a].gridX, s.poses[a].gridY)
    ensures MoveSpec(s, a, x, y).occupied[s.poses[a].gridX][s.poses[a].gridY] == Holds(c)
  {
    var s1 := Place(s, a, x, y);
    SettleHomed(s, a, x, y);
    var s2 := Settle(s1, a, s.floor[x][y]);
    var ox, oy := s.poses[a].gridX, s.poses[a].gridY;
    VacateHomed(s2, a, ox, oy);
    assert s2.occupied[ox][oy] == Holds(c);
    GuardKeeps(s2, ox, oy);
  }

  /** The first half of a push, as the tick commits it: the player,
      committed first, is recorded in the boulder's cell (cx, cy) while the
      boulder still stands there. The boulder's own `move_to` then keeps
      the player there (`MoveKeepsNewcomer`) instead of freeing the cell. */
  lemma PushPlayerFirst(s: State, p: Actor, b: Actor, dx: int, dy: int, cx: int, cy: int)
    requires s.Valid() && p in s.poses && (dx != 0 || dy != 0)
    requires cx == s.poses[p].gridX + dx && cy == s.poses[p].gridY + dy
    requires s.InBounds(cx, cy) && s.occupied[cx][cy] == Holds(b)
    requires Untargeted(s.buttons, cx, cy)
    ensures b != p && b in s.poses
    ensures var s1 := MoveSpec(s, p, cx, cy);
      s1.occupied[cx][cy] == Holds(p) && s1.poses[b] == s.poses[b] &&
      s1.poses[b].gridX == cx && s1.poses[b].gridY == cy
  {
    assert b in s.poses && s.poses[b].gridX == cx && s.poses[b].gridY == cy;
    MoveRecords(s, p, cx, cy);
  }
}
