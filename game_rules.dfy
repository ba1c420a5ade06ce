/** The discrete rules of `Game.prototype.update` in picopix-puzzle.js on
    room values: which held direction the player takes up, the collision
    and push rule, one actor's share of a tick, the sweep over the list of
    moving actors and the win check. The `Game` class is proved to follow
    them. */
module PuzzleRules {
  import opened RoomState

  datatype Option<T> = None | Some(value: T)

  /** The event strings `handle_keyhit` adds to the player's event list. */
  datatype Event = MoveLeft | MoveRight | MoveUp | MoveDown

  /** The direction `update` gives each event. */
  function Delta(e: Event): (d: (int, int))
    ensures -1 <= d.0 <= 1 && -1 <= d.1 <= 1
    ensures (d.0 == 0) != (d.1 == 0)
  {
    match e
    case MoveLeft => (-1, 0)
    case MoveRight => (1, 0)
    case MoveUp => (0, -1)
    case MoveDown => (0, 1)
  }

  /** The event a key code stands for in `handle_keyhit` and
      `handle_keyup`: the arrow keys and W, A, S, D. */
  function KeyEvent(key: int): (e: Option<Event>)
    ensures e.None? <==> key !in {37, 38, 39, 40, 65, 68, 83, 87}
    ensures e == Some(MoveLeft) <==> key == 37 || key == 65
    ensures e == Some(MoveUp) <==> key == 38 || key == 87
    ensures e == Some(MoveRight) <==> key == 39 || key == 68
    ensures e == Some(MoveDown) <==> key == 40 || key == 83
  {
    if key == 37 || key == 65 then Some(MoveLeft)
    else if key == 38 || key == 87 then Some(MoveUp)
    else if key == 39 || key == 68 then Some(MoveRight)
    else if key == 40 || key == 83 then Some(MoveDown)
    else None
  }

  /** The key code of the space bar. */
  const Space: int := 32

  /** The move `update` takes up: none while the player is still moving
      (`busy`) or holds no key, otherwise the most recently added event. */
  function Intent(events: seq<Event>, busy: bool): Option<Event>
  {
    if busy || events == [] then None else Some(events[|events| - 1])
  }

  function Abs(n: int): nat
  {
    if n < 0 then -n else n
  }

  /** Actor `a` with pose `q` instead of its own. */
  function Repose(s: State, a: Actor, q: Pose): State
  {
    s.(poses := s.poses[a := q])
  }

  /** A new pose that keeps the grid position and is well directed keeps
      the room valid. */
  lemma ReposeValid(s: State, a: Actor, q: Pose)
    requires s.Valid() && a in s.poses
    requires q.gridX == s.poses[a].gridX && q.gridY == s.poses[a].gridY
    requires q.moving ==> s.InBounds(q.gridX + q.dx, q.gridY + q.dy)
    requires !q.moving ==> q.dx == 0 && q.dy == 0
    ensures Repose(s, a, q).Valid()
  {
    var r := Repose(s, a, q);
    forall x, y | 0 <= x < |r.occupied| && 0 <= y < |r.occupied[x]| && r.occupied[x][y].Holds?
      ensures r.occupied[x][y].actor in r.poses &&
        r.poses[r.occupied[x][y].actor].gridX == x && r.poses[r.occupied[x][y].actor].gridY == y
    {
    }
  }

  /** An actor set off in direction `d`. */
  function Heading(p: Pose, d: (int, int)): Pose
  {
    p.(dx := d.0, dy := d.1, moving := true)
  }

  /** What setting off leaves of the room and of the list of moving actors. */
  datatype Start = Start(room: State, queue: seq<Actor>)

  /** The collision rule of `update` for player `p` setting off in
      direction `d`: a wall in the way, or a boulder with anything behind
      it, cancels the move; otherwise a boulder in the way is given the same
      direction and queued ahead of the player. */
  function Begin(s: State, p: Actor, queue: seq<Actor>, d: (int, int)): (r: Start)
    requires s.Valid() && p in s.poses
    ensures r.room.Valid()
    ensures r.room == s.(poses := r.room.poses) && r.room.poses.Keys == s.poses.Keys
    ensures |queue| <= |r.queue| && r.queue[..|queue|] == queue
    ensures forall k | |queue| <= k < |r.queue| :: r.queue[k] in s.poses
  {
    if s.At(s.poses[p].gridX + d.0, s.poses[p].gridY + d.1) == Wall then Start(s, queue)
    else if s.At(s.poses[p].gridX + d.0, s.poses[p].gridY + d.1).Holds? then
      if s.At(s.poses[p].gridX + d.0 + d.0, s.poses[p].gridY + d.1 + d.1) != Free then Start(s, queue)
      else Shove(s, p, s.At(s.poses[p].gridX + d.0, s.poses[p].gridY + d.1).actor, queue, d)
    else
      ReposeValid(s, p, Heading(s.poses[p], d));
      Start(Repose(s, p, Heading(s.poses[p], d)), queue + [p])
  }

  /** The push branch of `Begin`: the boulder `b` in front of player `p`,
      with a free cell behind it, heads off in direction `d`, then `p`. */
  function Shove(s: State, p: Actor, b: Actor, queue: seq<Actor>, d: (int, int)): (r: Start)
    requires s.Valid() && p in s.poses && b in s.poses
    requires s.poses[b].gridX == s.poses[p].gridX + d.0 && s.poses[b].gridY == s.poses[p].gridY + d.1
    requires s.InBounds(s.poses[b].gridX, s.poses[b].gridY)
    requires s.InBounds(s.poses[b].gridX + d.0, s.poses[b].gridY + d.1)
    ensures r.room.Valid()
    ensures r.room == s.(poses := r.room.poses) && r.room.poses.Keys == s.poses.Keys
    ensures |queue| <= |r.queue| && r.queue[..|queue|] == queue
    ensures forall k | |queue| <= k < |r.queue| :: r.queue[k] in s.poses
  {
    ReposeValid(s, b, Heading(s.poses[b], d));
    ReposeValid(Repose(s, b, Heading(s.poses[b], d)), p, Heading(s.poses[p], d));
    Start(Repose(Repose(s, b, Heading(s.poses[b], d)), p, Heading(s.poses[p], d)), queue + [b, p])
  }

  /** A wall in the way, or a boulder that cannot move on, changes nothing
      at all. */
  lemma BlockedMoveChangesNothing(s: State, p: Actor, queue: seq<Actor>, d: (int, int))
    requires s.Valid() && p in s.poses
    requires var t := (s.poses[p].gridX + d.0, s.poses[p].gridY + d.1);
      s.At(t.0, t.1) == Wall ||
      (s.At(t.0, t.1).Holds? && s.At(t.0 + d.0, t.1 + d.1) != Free)
    ensures Begin(s, p, queue, d) == Start(s, queue)
  {
  }

  /** A push gives the boulder and the player the same direction, queues
      the boulder and then the player, and touches nothing else. */
  lemma PushQueuesBoulderFirst(s: State, p: Actor, queue: seq<Actor>, d: (int, int), b: Actor)
    requires s.Valid() && p in s.poses
    requires var t := (s.poses[p].gridX + d.0, s.poses[p].gridY + d.1);
      s.At(t.0, t.1) == Holds(b) && s.At(t.0 + d.0, t.1 + d.1) == Free
    ensures b != p && b in s.poses
    ensures var r := Begin(s, p, queue, d);
      r.queue == queue + [b, p] &&
      r.room == s.(poses := s.poses[b := Heading(s.poses[b], d)][p := Heading(s.poses[p], d)])
  {
  }

  /** A step onto a free cell sets only the player off. */
  lemma FreeStepQueuesPlayer(s: State, p: Actor, queue: seq<Actor>, d: (int, int))
    requires s.Valid() && p in s.poses
    requires s.At(s.poses[p].gridX + d.0, s.poses[p].gridY + d.1) == Free
    ensures var r := Begin(s, p, queue, d);
      r.queue == queue + [p] && r.room == s.(poses := s.poses[p := Heading(s.poses[p], d)])
  {
  }

  /** A pose carried `step` pixels further in its direction
      (`x_off += spd*dx*dt`, with `spd*dt` given as `step`). */
  function Shift(p: Pose, step: int): Pose
  {
    p.(xOff := p.xOff + step * p.dx, yOff := p.yOff + step * p.dy)
  }

  /** The offset has reached a whole tile. */
  predicate Reached(p: Pose)
  {
    Abs(p.xOff) >= TileSize || Abs(p.yOff) >= TileSize
  }

  /** The end of one actor's share of a tick: once its offsets reach a
      whole tile, `move_to` commits it to the next cell. */
  function Commit(s: State, a: Actor): (r: State)
    requires s.Valid() && a in s.poses
    ensures r.Valid()
    ensures r.width == s.width && r.height == s.height && r.buttons == s.buttons
    ensures r.poses.Keys == s.poses.Keys && r.poses == s.poses[a := r.poses[a]]
    ensures Reached(s.poses[a]) ==>
      r.poses[a].gridX == s.poses[a].gridX + s.poses[a].dx &&
      r.poses[a].gridY == s.poses[a].gridY + s.poses[a].dy &&
      r.poses[a].xOff == 0 && r.poses[a].yOff == 0
    ensures !Reached(s.poses[a]) ==> r == s
  {
    if Reached(s.poses[a])
    then MoveSpec(s, a, s.poses[a].gridX + s.poses[a].dx, s.poses[a].gridY + s.poses[a].dy)
    else s
  }

  /** One actor's share of a tick: its offsets grow by `step` pixels in its
      direction, and once they reach a whole tile the actor is committed to
      the next cell. */
  function Advance(s: State, a: Actor, step: int): (r: State)
    requires s.Valid() && a in s.poses
    ensures r.Valid()
    ensures r.width == s.width && r.height == s.height && r.buttons == s.buttons
    ensures r.poses.Keys == s.poses.Keys
  {
    ReposeValid(s, a, Shift(s.poses[a], step));
    Commit(Repose(s, a, Shift(s.poses[a], step)), a)
  }

  /** Every offset is less than a tile. */
  ghost predicate OffsetsSmall(poses: map<Actor, Pose>)
  {
    forall a | a in poses :: Abs(poses[a].xOff) < TileSize && Abs(poses[a].yOff) < TileSize
  }

  /** A tick moves no other actor, carries this one at most one cell, in
      its own direction, and leaves its offsets below a tile; short of a
      tile, only the offsets change. */
  lemma AdvanceStep(s: State, a: Actor, step: int)
    requires s.Valid() && a in s.poses
    ensures var r := Advance(s, a, step).poses[a];
      var p := s.poses[a];
      Abs(r.xOff) < TileSize && Abs(r.yOff) < TileSize &&
      ((r.gridX == p.gridX && r.gridY == p.gridY) ||
       (r.gridX == p.gridX + p.dx && r.gridY == p.gridY + p.dy))
    ensures !Reached(Shift(s.poses[a], step)) ==>
      Advance(s, a, step) == Repose(s, a, Shift(s.poses[a], step))
    ensures forall b | b in s.poses && b != a :: Advance(s, a, step).poses[b] == s.poses[b]
  {
    ReposeValid(s, a, Shift(s.poses[a], step));
    var s1 := Repose(s, a, Shift(s.poses[a], step));
    assert s1.poses[a] == Shift(s.poses[a], step);
    assert Advance(s, a, step) == Commit(s1, a);
  }

  /** Offsets stay below a tile. */
  lemma AdvanceKeepsSmall(s: State, a: Actor, step: int)
    requires s.Valid() && a in s.poses && OffsetsSmall(s.poses)
    ensures OffsetsSmall(Advance(s, a, step).poses)
  {
    AdvanceStep(s, a, step);
    var r := Advance(s, a, step).poses;
    forall b | b in r ensures Abs(r[b].xOff) < TileSize && Abs(r[b].yOff) < TileSize {
      if b != a {
        assert r[b] == s.poses[b];
      }
    }
  }

  /** A tick of length zero changes nothing while offsets are below a
      tile. */
  lemma IdleAdvance(s: State, a: Actor)
    requires s.Valid() && a in s.poses
    requires Abs(s.poses[a].xOff) < TileSize && Abs(s.poses[a].yOff) < TileSize
    ensures Advance(s, a, 0) == s
  {
    assert Shift(s.poses[a], 0) == s.poses[a];
    assert Repose(s, a, s.poses[a]) == s;
    AdvanceStep(s, a, 0);
  }

  /** What a tick leaves of the room and of the list of moving actors, and
      whether any actor came to rest. */
  datatype Swept = Swept(room: State, kept: seq<Actor>, anyStopped: bool)

  /** One entry `a` of the tick loop, after the entries behind it left
      `rest`: `a` advances and stays in the list only while still moving. */
  function Handle(rest: Swept, a: Actor, step: int): Swept
    requires rest.room.Valid() && a in rest.room.poses
  {
    Swept(Advance(rest.room, a, step),
          (if Advance(rest.room, a, step).poses[a].moving then [a] else []) + rest.kept,
          rest.anyStopped || !Advance(rest.room, a, step).poses[a].moving)
  }

  /** The tick loop of `update` after it has handled `queue[i..]`, last
      entry first: every handled actor advances, and one that is no longer
      moving afterwards leaves the list. */
  function SweepFrom(s: State, queue: seq<Actor>, i: nat, step: int): (r: Swept)
    requires s.Valid() && i <= |queue| && forall a | a in queue :: a in s.poses
    ensures r.room.Valid()
    ensures r.room.width == s.width && r.room.height == s.height && r.room.buttons == s.buttons
    ensures r.room.poses.Keys == s.poses.Keys
    ensures |r.kept| <= |queue| - i && forall a | a in r.kept :: a in queue[i..]
    ensures r.anyStopped <==> |r.kept| < |queue| - i
    decreases |queue| - i
  {
    if i == |queue| then Swept(s, [], false)
    else Handle(SweepFrom(s, queue, i + 1, step), queue[i], step)
  }

  /** An actor left in the list after it was handled is still moving. */
  lemma {:induction false} KeptWereMoving(s: State, queue: seq<Actor>, i: nat, step: int)
    requires s.Valid() && i < |queue| && forall a | a in queue :: a in s.poses
    ensures var rest := SweepFrom(s, queue, i + 1, step);
      var r := SweepFrom(s, queue, i, step);
      (|r.kept| > |rest.kept| <==> r.room.poses[queue[i]].moving) &&
      (r.room.poses[queue[i]].moving ==> r.kept == [queue[i]] + rest.kept) &&
      (!r.room.poses[queue[i]].moving ==> r.kept == rest.kept && r.anyStopped)
  {
  }

  /** The list left after setting off, before the tick. */
  function Started(s: State, p: Actor, events: seq<Event>, queue: seq<Actor>): (r: Start)
    requires s.Valid() && p in s.poses && forall a | a in queue :: a in s.poses
    ensures r.room.Valid() && r.room.poses.Keys == s.poses.Keys
    ensures forall a | a in r.queue :: a in s.poses
  {
    if Intent(events, s.poses[p].moving).Some?
    then Begin(s, p, queue, Delta(Intent(events, s.poses[p].moving).value))
    else Start(s, queue)
  }

  /** What one `update` in the playing scene leaves: the room, the list of
      moving actors, and whether the level is won. */
  datatype Play = Play(room: State, queue: seq<Actor>, won: bool)

  /** The win check at the end of `update`: the level is won when some
      actor came to rest in this tick and the player stands on the exit. */
  function Conclude(w: Swept, p: Actor): Play
    requires w.room.Valid() && p in w.room.poses
  {
    Play(w.room, w.kept,
         w.anyStopped && w.room.floor[w.room.poses[p].gridX][w.room.poses[p].gridY] == '@')
  }

  /** `update` in the playing scene: take up a move, tick every moving
      actor, and check for a win. */
  function PlayStep(s: State, p: Actor, events: seq<Event>, queue: seq<Actor>, step: int): (r: Play)
    requires s.Valid() && p in s.poses && forall a | a in queue :: a in s.poses
    ensures r.room.Valid()
    ensures r.room.width == s.width && r.room.height == s.height && r.room.buttons == s.buttons
    ensures r.room.poses.Keys == s.poses.Keys
    ensures forall a | a in r.queue :: a in r.room.poses
    ensures r.won ==> r.room.floor[r.room.poses[p].gridX][r.room.poses[p].gridY] == '@'
  {
    assert Started(s, p, events, queue).queue[0..] == Started(s, p, events, queue).queue;
    Conclude(SweepFrom(Started(s, p, events, queue).room, Started(s, p, events, queue).queue, 0, step), p)
  }

  /** The level is won exactly when some actor left the list of moving
      actors in this tick and the player stands on the exit. */
  lemma WinRule(s: State, p: Actor, events: seq<Event>, queue: seq<Actor>, step: int)
    requires s.Valid() && p in s.poses && forall a | a in queue :: a in s.poses
    ensures var r := PlayStep(s, p, events, queue, step);
      r.won <==>
        |r.queue| < |Started(s, p, events, queue).queue| &&
        r.room.floor[r.room.poses[p].gridX][r.room.poses[p].gridY] == '@'
  {
  }

  /** While the player is moving, or holds no key, the held keys start
      nothing. */
  lemma NoIntentNoStart(s: State, p: Actor, events: seq<Event>, queue: seq<Actor>)
    requires s.Valid() && p in s.poses && forall a | a in queue :: a in s.poses
    requires s.poses[p].moving || events == []
    ensures Started(s, p, events, queue) == Start(s, queue)
  {
  }
}
